/** `LocalSpansInner::to_span_records` (fastrace/src/collector/global_collector.rs) applied to the queue of
    a thread, against a direct semantics that keeps a record for each open span and writes every event and
    property straight into the innermost one. */
module LocalRecords {
  import opened Records
  import opened Postprocess
  import opened SpanQueues

  function ToRecords(local: LocalSpans, parent: SpanContext, anchor: Anchor): seq<SpanRecord> {
    var entries := LocalEntries(local, parent.traceId, parent.spanId, anchor);
    Mount(RecordsOf(entries), Absorb(map[], entries))
  }

  method ToSpanRecords(local: LocalSpans, parent: SpanContext, anchor: Anchor) returns (records: seq<SpanRecord>)
    ensures records == ToRecords(local, parent, anchor)
  {
    hide LocalEntries, RecordsOf, Absorb, Mount;
    ghost var entries := LocalEntries(local, parent.traceId, parent.spanId, anchor);
    assert [] + RecordsOf(entries) == RecordsOf(entries);
    var danglings: Danglings := map[];
    records, danglings := AmendLocalSpan(local, parent.traceId, parent.spanId, [], danglings, anchor);
    records, danglings := MountDanglings(records, danglings);
  }

  // The direct semantics

  /** A span together with what was recorded on it: `own` properties by handle, `items` while innermost. */
  datatype Node = Node(id: SpanId, parentId: SpanId, begin: Instant, end: Option<Instant>, name: string,
                       own: Properties, items: seq<DanglingItem>)

  /** What one unit of queue capacity was spent on. */
  datatype Slot = SpanSlot(node: Node) | ItemSlot

  datatype Direct = Direct(slots: seq<Slot>, open: seq<nat>) {
    ghost predicate Valid() {
      forall j :: 0 <= j < |open| ==> open[j] < |slots| && slots[open[j]].SpanSlot?
    }

    function WithNode(k: nat, node: Node): Direct
      requires k < |slots|
    {
      this.(slots := slots[k := SpanSlot(node)])
    }

    /** Records an item on the innermost open span; a top-level item belongs to no local span. */
    function Noted(item: DanglingItem): Direct
      requires Valid()
    {
      var counted := this.(slots := slots + [ItemSlot]);
      if open == [] then counted
      else
        var node := slots[Records.Last(open)].node;
        counted.WithNode(Records.Last(open), node.(items := node.items + [item]))
    }
  }

  function DirectAfter(d: Direct, capacity: nat, external: SpanId, anchor: Anchor, op: Op): Direct
    requires d.Valid()
    requires op.Finish? || op.WithProperties? ==> op.handle < |d.slots| && d.slots[op.handle].SpanSlot?
    requires op.Finish? ==> d.open != []
  {
    match op
    case Start(id, now, name) =>
      if |d.slots| >= capacity then d
      else
        var parentId := if d.open == [] then external else d.slots[Last(d.open)].node.id;
        Direct(d.slots + [SpanSlot(Node(id, parentId, now, None, name, [], []))], d.open + [|d.slots|])
    case Finish(handle, now) =>
      d.WithNode(handle, d.slots[handle].node.(end := Some(now))).(open := Init(d.open))
    case AddEvent(_, now, name, properties) =>
      if |d.slots| >= capacity then d
      else d.Noted(EventItem(EventRecord(name, anchor(now), if properties.Some? then properties.value else [])))
    case AddProperties(_, properties) =>
      if |d.slots| >= capacity then d else d.Noted(PropertiesItem(properties))
    case WithProperties(handle, properties) =>
      var node := d.slots[handle].node;
      d.WithNode(handle, node.(own := node.own + properties))
  }

  /** The record of a span: a span still open when the queue is collected ends at that time. */
  function NodeRecord(node: Node, traceId: TraceId, endTime: Instant, anchor: Anchor): SpanRecord {
    var begin := anchor(node.begin);
    var end := anchor(if node.end.Some? then node.end.value else endTime);
    SpanRecord(traceId, node.id, node.parentId, begin, SaturatingSub(end, begin), node.name,
               node.own + PropertiesIn(node.items), EventsIn(node.items))
  }

  function DirectRecords(slots: seq<Slot>, traceId: TraceId, endTime: Instant, anchor: Anchor): seq<SpanRecord> {
    if slots == [] then []
    else
      DirectRecords(Init(slots), traceId, endTime, anchor) +
      (if Last(slots).SpanSlot? then [NodeRecord(Last(slots).node, traceId, endTime, anchor)] else [])
  }

  // Refinement

  function RawItem(span: RawSpan, anchor: Anchor): DanglingItem {
    if span.kind.EventKind? then EventItem(EventRecord(span.name, anchor(span.begin), span.OwnProperties()))
    else PropertiesItem(span.OwnProperties())
  }

  /** The items that the queue recorded directly under span `id`, in order. */
  function Under(spans: seq<RawSpan>, id: SpanId, anchor: Anchor): seq<DanglingItem> {
    if spans == [] then []
    else
      Under(Init(spans), id, anchor) +
      (if !Last(spans).kind.SpanKind? && Last(spans).parentId == id then [RawItem(Last(spans), anchor)] else [])
  }

  lemma {:induction false} UnderIgnoresSpans(spans: seq<RawSpan>, k: nat, span: RawSpan, id: SpanId, anchor: Anchor)
    requires k < |spans| && spans[k].kind.SpanKind? && span.kind.SpanKind?
    ensures Under(spans[k := span], id, anchor) == Under(spans, id, anchor)
  {
    if k == |spans| - 1 {
      assert Init(spans[k := span]) == Init(spans);
    } else {
      assert Init(spans[k := span]) == Init(spans)[k := span];
      UnderIgnoresSpans(Init(spans), k, span, id, anchor);
    }
  }

  lemma {:induction false} UnderAppend(spans: seq<RawSpan>, span: RawSpan, id: SpanId, anchor: Anchor)
    ensures Under(spans + [span], id, anchor) == Under(spans, id, anchor) +
            if !span.kind.SpanKind? && span.parentId == id then [RawItem(span, anchor)] else []
  {
    assert Init(spans + [span]) == spans;
  }

  /** An id that no entry uses has nothing recorded under it. */
  lemma {:induction false} NothingUnder(q: QueueState, n: nat, id: SpanId, anchor: Anchor)
    requires n <= |q.spans| && id != NO_ID && id !in IdsIn(q.spans)
    requires forall i :: 0 <= i < |q.spans| ==> ParentEarlier(q.spans, i)
    ensures Under(q.spans[..n], id, anchor) == []
  {
    if n > 0 {
      assert Init(q.spans[..n]) == q.spans[..n - 1];
      assert ParentEarlier(q.spans, n - 1);
      NothingUnder(q, n - 1, id, anchor);
    }
  }

  /** Slot `i` agrees with raw span `i`, given the items recorded under it. */
  ghost predicate SlotMatches(spans: seq<RawSpan>, i: nat, slot: Slot, external: SpanId, anchor: Anchor)
    requires i < |spans|
  {
    var span := spans[i];
    && (slot.SpanSlot? <==> span.kind.SpanKind?)
    && (slot.SpanSlot? ==>
          && slot.node.id == span.id
          && slot.node.parentId == (if span.parentId == NO_ID then external else span.parentId)
          && slot.node.begin == span.begin
          && slot.node.end == (if span.end == ZERO then None else Some(span.end))
          && slot.node.name == span.name
          && slot.node.own == span.OwnProperties()
          && slot.node.items == Under(spans, span.id, anchor))
  }

  ghost predicate Matches(q: QueueState, d: Direct, external: SpanId, anchor: Anchor) {
    && |q.spans| == |d.slots|
    && forall i :: 0 <= i < |q.spans| ==> SlotMatches(q.spans, i, d.slots[i], external, anchor)
  }

  lemma {:induction false} MatchesValid(q: QueueState, d: Direct, external: SpanId, anchor: Anchor)
    requires Encodes(q, d.open) && Matches(q, d, external, anchor)
    ensures d.Valid()
  {
    forall j | 0 <= j < |d.open| ensures d.open[j] < |d.slots| && d.slots[d.open[j]].SpanSlot? {
      assert SlotMatches(q.spans, d.open[j], d.slots[d.open[j]], external, anchor);
    }
  }

  lemma {:induction false} ItemMatches(q: QueueState, d: Direct, external: SpanId, anchor: Anchor, span: RawSpan)
    requires Encodes(q, d.open) && Matches(q, d, external, anchor) && d.Valid()
    requires !span.kind.SpanKind? && span.parentId == q.ParentId()
    ensures Matches(q.(spans := q.spans + [span]), d.Noted(RawItem(span, anchor)), external, anchor)
  {
    var spans, d' := q.spans + [span], d.Noted(RawItem(span, anchor));
    forall i | 0 <= i < |spans| ensures SlotMatches(spans, i, d'.slots[i], external, anchor) {
      if i < |q.spans| {
        assert SlotMatches(q.spans, i, d.slots[i], external, anchor);
        UnderAppend(q.spans, span, spans[i].id, anchor);
        if d.open != [] {
          var top := Last(d.open);
          assert q.spans[top].id == span.parentId;
          if i < top { assert q.spans[i].id != q.spans[top].id; }
          if top < i { assert q.spans[top].id != q.spans[i].id; }
        }
      }
    }
  }

  lemma {:induction false} RewriteMatches(q: QueueState, d: Direct, external: SpanId, anchor: Anchor, k: nat,
                                          span: RawSpan, node: Node)
    requires Matches(q, d, external, anchor) && k < |q.spans| && q.spans[k].kind.SpanKind?
    requires span == q.spans[k].(end := span.end, properties := span.properties)
    requires d.slots[k].SpanSlot? && node == d.slots[k].node.(end := node.end, own := node.own)
    requires node.end == (if span.end == ZERO then None else Some(span.end)) && node.own == span.OwnProperties()
    ensures Matches(q.(spans := q.spans[k := span]), d.WithNode(k, node), external, anchor)
  {
    var spans, d' := q.spans[k := span], d.WithNode(k, node);
    forall i | 0 <= i < |spans| ensures SlotMatches(spans, i, d'.slots[i], external, anchor) {
      assert SlotMatches(q.spans, i, d.slots[i], external, anchor);
      UnderIgnoresSpans(q.spans, k, span, spans[i].id, anchor);
    }
  }

  lemma {:induction false} StartMatches(q: QueueState, d: Direct, external: SpanId, anchor: Anchor, id: SpanId,
                                        now: Instant, name: string,
                     next: Option<SpanId>, open: seq<nat>)
    requires Encodes(q, d.open) && Matches(q, d, external, anchor) && d.Valid()
    requires id != NO_ID && id !in IdsIn(q.spans)
    ensures var parentId := if d.open == [] then external else d.slots[Last(d.open)].node.id;
            var slot := SpanSlot(Node(id, parentId, now, None, name, [], []));
            var span := BeginWith(id, q.ParentId(), now, name, SpanKind);
            Matches(QueueState(q.spans + [span], next), Direct(d.slots + [slot], open), external, anchor)
  {
    var parentId := if d.open == [] then external else d.slots[Last(d.open)].node.id;
    var slot := SpanSlot(Node(id, parentId, now, None, name, [], []));
    var span := BeginWith(id, q.ParentId(), now, name, SpanKind);
    var spans, slots := q.spans + [span], d.slots + [slot];
    forall i | 0 <= i < |spans| ensures SlotMatches(spans, i, slots[i], external, anchor) {
      UnderAppend(q.spans, span, spans[i].id, anchor);
      if i < |q.spans| {
        assert SlotMatches(q.spans, i, d.slots[i], external, anchor);
      } else {
        assert q.spans[..|q.spans|] == q.spans;
        NothingUnder(q, |q.spans|, id, anchor);
        if d.open != [] {
          assert SlotMatches(q.spans, Last(d.open), d.slots[Last(d.open)], external, anchor);
        }
      }
    }
  }

  /** Calls a run may make: well-nested ones, with a clock that never shows the zero instant. */
  ghost predicate Allowed(q: QueueState, open: seq<nat>, op: Op) {
    WellNested(q, open, op) && (op.Finish? ==> op.now != ZERO)
  }

  lemma {:induction false} AllowedIsDefined(q: QueueState, d: Direct, external: SpanId, anchor: Anchor, op: Op)
    requires Encodes(q, d.open) && Matches(q, d, external, anchor) && Allowed(q, d.open, op)
    ensures d.Valid()
    ensures op.Finish? || op.WithProperties? ==>
              op.handle < |q.spans| == |d.slots| && d.slots[op.handle].SpanSlot? && q.spans[op.handle].kind.SpanKind?
  {
    MatchesValid(q, d, external, anchor);
    if op.Finish? || op.WithProperties? {
      assert SlotMatches(q.spans, op.handle, d.slots[op.handle], external, anchor);
    }
  }

  lemma {:induction false} StepMatches(q: QueueState, d: Direct, capacity: nat, external: SpanId, anchor: Anchor,
                                       op: Op)
    requires Encodes(q, d.open) && Matches(q, d, external, anchor) && Allowed(q, d.open, op)
    requires op.Finish? || op.WithProperties? ==> op.handle < |q.spans|
    requires d.Valid()
    requires op.Finish? || op.WithProperties? ==> op.handle < |d.slots| && d.slots[op.handle].SpanSlot?
    ensures Matches(AfterOp(q, capacity, op), DirectAfter(d, capacity, external, anchor, op), external, anchor)
    ensures DirectAfter(d, capacity, external, anchor, op).open == OpenAfter(q, capacity, d.open, op)
  {
    hide SlotMatches, Encodes, ParentEarlier, Under;
    AllowedIsDefined(q, d, external, anchor, op);
    match op
    case Start(id, now, name) =>
      StartMatches(q, d, external, anchor, id, now, name, Some(id), d.open + [|q.spans|]);
    case AddEvent(id, now, name, properties) =>
      var span := BeginWith(id, q.ParentId(), now, name, EventKind).(properties := properties);
      ItemMatches(q, d, external, anchor, span);
    case AddProperties(id, properties) =>
      var span := BeginWith(id, q.ParentId(), ZERO, "", PropertiesKind).Extended(properties);
      assert RawItem(span, anchor) == PropertiesItem([] + properties) == PropertiesItem(properties);
      ItemMatches(q, d, external, anchor, span);
    case Finish(handle, now) =>
      NodeOf(q, d, external, anchor, handle);
      var span := q.spans[handle].(end := now);
      RewriteMatches(q, d, external, anchor, handle, span, d.slots[handle].node.(end := Some(now)));
    case WithProperties(handle, properties) =>
      NodeOf(q, d, external, anchor, handle);
      var span, node := q.spans[handle].Extended(properties), d.slots[handle].node;
      RewriteMatches(q, d, external, anchor, handle, span, node.(own := node.own + properties));
  }

  lemma {:induction false} NodeOf(q: QueueState, d: Direct, external: SpanId, anchor: Anchor, k: nat)
    requires Matches(q, d, external, anchor) && k < |q.spans| && d.slots[k].SpanSlot?
    ensures q.spans[k].kind.SpanKind?
    ensures d.slots[k].node.own == q.spans[k].OwnProperties()
    ensures d.slots[k].node.end == if q.spans[k].end == ZERO then None else Some(q.spans[k].end)
  {
    assert SlotMatches(q.spans, k, d.slots[k], external, anchor);
  }

  // From matching states to equal records

  /** Only entries that name `id` as their parent wait for a local span `id` other than the external parent. */
  lemma {:induction false} ItemsAreUnder(local: LocalSpans, n: nat, parent: SpanContext, id: SpanId, anchor: Anchor)
    requires n <= |local.spans| && id != NO_ID && id != parent.spanId
    ensures ItemsFor(id, LocalEntries(local, parent.traceId, parent.spanId, anchor)[..n])
            == Under(local.spans[..n], id, anchor)
  {
    var entries := LocalEntries(local, parent.traceId, parent.spanId, anchor);
    if n > 0 {
      InitOfPrefix(entries, n);
      InitOfPrefix(local.spans, n);
      ItemsAreUnder(local, n - 1, parent, id, anchor);
    }
  }

  lemma {:induction false} RecordIdsAreLocal(local: LocalSpans, n: nat, parent: SpanContext, anchor: Anchor)
    requires n <= |local.spans|
    ensures forall r <- RecordsOf(LocalEntries(local, parent.traceId, parent.spanId, anchor)[..n]) ::
              r.spanId in IdsIn(local.spans[..n])
  {
    var entries := LocalEntries(local, parent.traceId, parent.spanId, anchor);
    if n > 0 {
      assert Init(entries[..n]) == entries[..n - 1];
      assert IdsIn(local.spans[..n - 1]) <= IdsIn(local.spans[..n]);
      assert local.spans[n - 1] in local.spans[..n];
      RecordIdsAreLocal(local, n - 1, parent, anchor);
    }
  }

  lemma {:induction false} MountAppend(records: seq<SpanRecord>, record: SpanRecord, danglings: Danglings)
    requires record.spanId !in IdsOf(records)
    ensures Mount(records + [record], danglings) ==
            Mount(records, danglings) + [Attach(record, Waiting(danglings, record.spanId))]
  {
    var all := records + [record];
    assert all[..|records|] == records;
    forall i | 0 <= i < |records| ensures Mount(all, danglings)[i] == Mount(records, danglings)[i] {
      assert all[..i] == records[..i];
    }
  }

  lemma {:induction false} EntryMatches(q: QueueState, d: Direct, i: nat, parent: SpanContext, endTime: Instant,
                                        anchor: Anchor)
    requires Matches(q, d, parent.spanId, anchor) && i < |q.spans|
    ensures var entry := LocalEntry(q.spans[i], endTime, parent.traceId, parent.spanId, anchor);
            && (entry.RecordEntry? <==> d.slots[i].SpanSlot?)
            && (entry.RecordEntry? ==>
                  && entry.record.spanId == q.spans[i].id
                  && Attach(entry.record, Under(q.spans, q.spans[i].id, anchor))
                     == NodeRecord(d.slots[i].node, parent.traceId, endTime, anchor))
  {
    assert SlotMatches(q.spans, i, d.slots[i], parent.spanId, anchor);
  }

  lemma {:induction false} FreshRecordId(local: LocalSpans, n: nat, parent: SpanContext, anchor: Anchor)
    requires DistinctIds(local.spans) && n < |local.spans|
    ensures local.spans[n].id !in IdsOf(RecordsOf(LocalEntries(local, parent.traceId, parent.spanId, anchor)[..n]))
  {
    RecordIdsAreLocal(local, n, parent, anchor);
  }

  lemma {:induction false} MatchingRecords(q: QueueState, d: Direct, parent: SpanContext, endTime: Instant,
                                           anchor: Anchor,
                                           danglings: Danglings, n: nat)
    requires DistinctIds(q.spans) && Matches(q, d, parent.spanId, anchor) && n <= |q.spans|
    requires parent.spanId !in IdsIn(q.spans)
    requires forall id :: id in IdsIn(q.spans) ==> Waiting(danglings, id) == Under(q.spans, id, anchor)
    ensures var entries := LocalEntries(LocalSpans(q.spans, endTime), parent.traceId, parent.spanId, anchor);
            Mount(RecordsOf(entries[..n]), danglings) == DirectRecords(d.slots[..n], parent.traceId, endTime, anchor)
  {
    hide SpanEntry, LocalEntry, Under, NodeRecord, Attach, DistinctIds, SlotMatches, MountedOn;
    var local := LocalSpans(q.spans, endTime);
    var entries := LocalEntries(local, parent.traceId, parent.spanId, anchor);
    if n > 0 {
      assert Init(entries[..n]) == entries[..n - 1] && Init(d.slots[..n]) == d.slots[..n - 1];
      assert Last(entries[..n]) == LocalEntry(q.spans[n - 1], endTime, parent.traceId, parent.spanId, anchor);
      EntryMatches(q, d, n - 1, parent, endTime, anchor);
      MatchingRecords(q, d, parent, endTime, anchor, danglings, n - 1);
      assert Last(d.slots[..n]) == d.slots[n - 1] && Last(entries[..n]) == entries[n - 1];
      if entries[n - 1].RecordEntry? {
        assert q.spans[n - 1].id in IdsIn(q.spans);
        FreshRecordId(local, n - 1, parent, anchor);
        MountAppend(RecordsOf(entries[..n - 1]), entries[n - 1].record, danglings);
      } else {
        assert RecordsOf(entries[..n]) == RecordsOf(entries[..n - 1]);
        assert DirectRecords(d.slots[..n], parent.traceId, endTime, anchor)
            == DirectRecords(d.slots[..n - 1], parent.traceId, endTime, anchor);
      }
    }
  }

  lemma {:induction false} MatchingToRecords(q: QueueState, d: Direct, parent: SpanContext, endTime: Instant,
                                             anchor: Anchor)
    requires DistinctIds(q.spans) && Matches(q, d, parent.spanId, anchor) && parent.spanId !in IdsIn(q.spans)
    ensures ToRecords(LocalSpans(q.spans, endTime), parent, anchor)
            == DirectRecords(d.slots, parent.traceId, endTime, anchor)
  {
    var local := LocalSpans(q.spans, endTime);
    var entries := LocalEntries(local, parent.traceId, parent.spanId, anchor);
    forall id | id in IdsIn(q.spans) ensures Waiting(Absorb(map[], entries), id) == Under(q.spans, id, anchor) {
      WaitingAfterAbsorb(map[], entries, id);
      assert entries[..|q.spans|] == entries && q.spans[..|q.spans|] == q.spans;
      ItemsAreUnder(local, |q.spans|, parent, id, anchor);
    }
    MatchingRecords(q, d, parent, endTime, anchor, Absorb(map[], entries), |q.spans|);
    assert entries[..|q.spans|] == entries && d.slots[..|q.spans|] == d.slots;
  }

  // Whole runs

  /** The queue state and the direct state after a run of allowed calls on an empty queue. */
  ghost predicate Runs(capacity: nat, external: SpanId, anchor: Anchor, ops: seq<Op>, q: QueueState, d: Direct)
    decreases |ops|
  {
    if ops == [] then q == QueueState([], None) && d == Direct([], [])
    else exists q0, d0 :: Runs(capacity, external, anchor, Init(ops), q0, d0)
                          && RunStep(capacity, external, anchor, Last(ops), q0, d0, q, d)
  }

  ghost predicate RunStep(capacity: nat, external: SpanId, anchor: Anchor, op: Op,
                          q0: QueueState, d0: Direct, q: QueueState, d: Direct) {
    && Allowed(q0, d0.open, op)
    && d0.Valid()
    && (op.Finish? || op.WithProperties? ==>
          op.handle < |q0.spans| && op.handle < |d0.slots| && d0.slots[op.handle].SpanSlot?)
    && q == AfterOp(q0, capacity, op)
    && d == DirectAfter(d0, capacity, external, anchor, op)
  }

  lemma {:induction false} RunsMatch(capacity: nat, external: SpanId, anchor: Anchor, ops: seq<Op>, q: QueueState,
                                     d: Direct)
    requires Runs(capacity, external, anchor, ops, q, d)
    ensures Encodes(q, d.open) && Matches(q, d, external, anchor)
    decreases |ops|
  {
    hide Encodes, Matches, AfterOp, DirectAfter, OpenAfter;
    if ops == [] {
      EmptyEncodes();
      EmptyMatches(external, anchor);
    } else {
      var q0, d0 :| Runs(capacity, external, anchor, Init(ops), q0, d0)
                    && RunStep(capacity, external, anchor, Last(ops), q0, d0, q, d);
      RunsMatch(capacity, external, anchor, Init(ops), q0, d0);
      StepEncodes(q0, capacity, d0.open, Last(ops));
      StepMatches(q0, d0, capacity, external, anchor, Last(ops));
    }
  }

  lemma {:induction false} EmptyMatches(external: SpanId, anchor: Anchor)
    ensures Matches(QueueState([], None), Direct([], []), external, anchor)
  {
  }

  /** No allowed call is ever stuck: a run can always be extended by any allowed call. */
  lemma {:induction false} RunsExtend(capacity: nat, external: SpanId, anchor: Anchor, ops: seq<Op>, q: QueueState,
                                      d: Direct, op: Op)
    requires Runs(capacity, external, anchor, ops, q, d) && Allowed(q, d.open, op)
    ensures exists q', d' :: Runs(capacity, external, anchor, ops + [op], q', d')
  {
    hide Encodes, Matches, Allowed, AfterOp, DirectAfter;
    RunsMatch(capacity, external, anchor, ops, q, d);
    AllowedIsDefined(q, d, external, anchor, op);
    var q', d' := StepOf(capacity, external, anchor, q, d, op);
    assert Init(ops + [op]) == ops && Last(ops + [op]) == op;
    assert Runs(capacity, external, anchor, ops + [op], q', d');
  }

  lemma {:induction false} StepOf(capacity: nat, external: SpanId, anchor: Anchor, q: QueueState, d: Direct, op: Op)
    returns (q': QueueState, d': Direct)
    requires Allowed(q, d.open, op) && d.Valid()
    requires op.Finish? || op.WithProperties? ==>
               op.handle < |q.spans| && op.handle < |d.slots| && d.slots[op.handle].SpanSlot?
    ensures RunStep(capacity, external, anchor, op, q, d, q', d')
  {
    q', d' := AfterOp(q, capacity, op), DirectAfter(d, capacity, external, anchor, op);
  }

  /** For every run, converting the flat queue gives exactly the records of the direct semantics. */
  lemma {:induction false} ToRecordsIsDirect(capacity: nat, parent: SpanContext, endTime: Instant, anchor: Anchor,
                          ops: seq<Op>, q: QueueState, d: Direct)
    requires Runs(capacity, parent.spanId, anchor, ops, q, d)
    requires parent.spanId !in IdsIn(q.spans)
    ensures ToRecords(LocalSpans(q.spans, endTime), parent, anchor)
            == DirectRecords(d.slots, parent.traceId, endTime, anchor)
  {
    RunsMatch(capacity, parent.spanId, anchor, ops, q, d);
    MatchingToRecords(q, d, parent, endTime, anchor);
  }
}

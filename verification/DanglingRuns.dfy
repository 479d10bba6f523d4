/** Events and properties reach the collector apart from the record of their span, possibly batches earlier.
    Each one is mounted once, on the first record that carries its span id, or still waits. */
module DanglingRuns {
  import opened Records
  import opened Postprocess
  import opened GlobalCollectors
  import opened CollectorRuns

  /** Everything that the first `n` records receive for span id `x`. */
  function MountedFor(records: seq<SpanRecord>, danglings: Danglings, x: SpanId, n: nat): seq<DanglingItem>
    requires n <= |records|
  {
    if n == 0 then []
    else
      MountedFor(records, danglings, x, n - 1) +
      if records[n - 1].spanId == x then MountedOn(records, danglings, n - 1) else []
  }

  lemma {:induction false} MountedOnce(records: seq<SpanRecord>, danglings: Danglings, x: SpanId, n: nat)
    requires n <= |records|
    ensures MountedFor(records, danglings, x, n) == if x in IdsOf(records[..n]) then Waiting(danglings, x) else []
  {
    hide IdsOf, Waiting;
    IdsOfPrefix(records, n);
    if n > 0 {
      MountedOnce(records, danglings, x, n - 1);
      var id, seen := records[n - 1].spanId, IdsOf(records[..n - 1]);
      assert MountedOn(records, danglings, n - 1) == if id in seen then [] else Waiting(danglings, id);
      assert x in IdsOf(records[..n]) <==> x in seen || x == id;
    }
  }

  lemma {:induction false} IdsOfPrefix(records: seq<SpanRecord>, n: nat)
    requires n <= |records|
    ensures IdsOf(records[..n]) == if n == 0 then {} else IdsOf(records[..n - 1]) + {records[n - 1].spanId}
  {
    if n > 0 {
      assert records[..n] == records[..n - 1] + [records[n - 1]];
    }
  }

  /** One post-processing call: what waited and what arrived is what was mounted and what waits, in arrival order. */
  lemma {:induction false} CallConserves(cs: seq<SpanCollection>, danglings: Danglings, anchor: Anchor, x: SpanId)
    ensures var entries := ExpandAll(cs, anchor);
            var records := RecordsOf(entries);
            MountedFor(records, Absorb(danglings, entries), x, |records|) + Waiting(Leftover(cs, danglings, anchor), x)
            == Waiting(danglings, x) + ItemsFor(x, entries)
  {
    var entries := ExpandAll(cs, anchor);
    var records := RecordsOf(entries);
    MountedOnce(records, Absorb(danglings, entries), x, |records|);
    WaitingAfterAbsorb(danglings, entries, x);
    assert records[..|records|] == records;
  }

  /** Mounting leaves ids, times and names alone and only appends to events and properties. */
  lemma {:induction false} MountOnlyAppends(records: seq<SpanRecord>, danglings: Danglings, i: nat)
    requires i < |records|
    ensures var r, m := records[i], Mount(records, danglings)[i];
            && m == r.(properties := m.properties, events := m.events)
            && r.properties <= m.properties && r.events <= m.events
  {
  }

  /** A record receives all items aimed at its id, those that have waited and those of this call, exactly when it is the
      first record with that id in the call, or there are none. */
  lemma {:induction false} OwnItemsExactly(cs: seq<SpanCollection>, danglings: Danglings, anchor: Anchor, i: nat)
    requires i < |RecordsOf(ExpandAll(cs, anchor))|
    ensures var entries := ExpandAll(cs, anchor);
            var records := RecordsOf(entries);
            var own := Waiting(danglings, records[i].spanId) + ItemsFor(records[i].spanId, entries);
            MountedOn(records, Absorb(danglings, entries), i) == own
            <==> (records[i].spanId !in IdsOf(records[..i]) || own == [])
  {
    hide ExpandAll, RecordsOf, Absorb, ItemsFor;
    var entries := ExpandAll(cs, anchor);
    WaitingAfterAbsorb(danglings, entries, RecordsOf(entries)[i].spanId);
  }

  /** When all ids in a call are distinct, every record ends up with exactly its own items, whenever they arrived. */
  lemma {:induction false} DistinctIdsOwnItems(cs: seq<SpanCollection>, danglings: Danglings, anchor: Anchor, i: nat)
    requires var records := RecordsOf(ExpandAll(cs, anchor));
             && i < |records|
             && forall j, k :: 0 <= j < k < |records| ==> records[j].spanId != records[k].spanId
    ensures var entries := ExpandAll(cs, anchor);
            var record := RecordsOf(entries)[i];
            Postprocessed(cs, danglings, anchor)[i]
            == Attach(record, Waiting(danglings, record.spanId) + ItemsFor(record.spanId, entries))
  {
    hide ExpandAll, RecordsOf, Absorb, ItemsFor, Attach;
    OwnItemsExactly(cs, danglings, anchor, i);
  }

  /** Without distinct ids the claim fails. A span below two parents of one collect passes on a token with two equal
      items, so that a local set under it is expanded twice: the first record gets both copies of an event, the second
      none. */
  lemma {:induction false} SharedTwiceDoubles(c: CollectId, anchor: Anchor)
    ensures var span := BeginWith(1, NO_ID, 5, "span", SpanKind);
            var event := BeginWith(2, 1, 6, "event", EventKind);
            var item := TokenItem(3, 10, c, false, true);
            var collections := RoutedItems(Local(LocalSpans([span, event], 9)), false, [item, item], c);
            var records := Postprocessed(collections, map[], anchor);
            |records| == 2 && |records[0].events| == 2 && records[1].events == []
  {
    var span := BeginWith(1, NO_ID, 5, "span", SpanKind);
    var event := BeginWith(2, 1, 6, "event", EventKind);
    var item := TokenItem(3, 10, c, false, true);
    var spanSet := Local(LocalSpans([span, event], 9));
    var a := Shared(spanSet, 3, 10);
    RoutedTwice(spanSet, item, c);
    var r, e := LocalEntry(span, 9, 3, 10, anchor), LocalEntry(event, 9, 3, 10, anchor);
    assert Expand(a, anchor) == [r, e];
    ExpandAllTwo(a, a, anchor);
    assert [r, e] + [r, e] == [r, e, r, e];
    FirstTakesAll(r, r, e);
    EventsInTwo(e.item, e.item);
  }

  lemma {:induction false} RoutedTwice(spans: SpanSet, item: TokenItem, c: CollectId)
    requires item.collectId == c
    ensures RoutedItems(spans, false, [item, item], c)
            == [Shared(spans, item.traceId, item.parentId), Shared(spans, item.traceId, item.parentId)]
  {
    assert Init([item, item]) == [item] && Init([item]) == [];
    assert RoutedItems(spans, false, [item], c) == [Shared(spans, item.traceId, item.parentId)];
  }

  lemma {:induction false} FirstTakesAll(r0: Entry, r1: Entry, e: Entry)
    requires r0.RecordEntry? && r1.RecordEntry? && e.ItemEntry?
    requires r0.record.spanId == r1.record.spanId == e.target
    ensures var entries := [r0, e, r1, e];
            Mount(RecordsOf(entries), Absorb(map[], entries))
            == [Attach(r0.record, [e.item, e.item]), Attach(r1.record, [])]
  {
    hide Attach, Absorb, RecordsOf;
    var entries, records := [r0, e, r1, e], [r0.record, r1.record];
    FourEntries(r0, e, r1, e);
    assert records[..0] == [] && records[..1] == [r0.record];
    WaitingAfterAbsorb(map[], entries, e.target);
    assert [] + [e.item, e.item] == [e.item, e.item];
    assert MountedOn(records, Absorb(map[], entries), 0) == [e.item, e.item];
    assert r0.record in records[..1];
    assert MountedOn(records, Absorb(map[], entries), 1) == [];
  }

  lemma {:induction false} ExpandAllTwo(a: SpanCollection, b: SpanCollection, anchor: Anchor)
    ensures ExpandAll([a, b], anchor) == Expand(a, anchor) + Expand(b, anchor)
  {
    hide Expand;
    assert Init([a, b]) == [a] && Init([a]) == [];
    assert ExpandAll([a], anchor) == [] + Expand(a, anchor) == Expand(a, anchor);
  }

  lemma {:induction false} FourEntries(r0: Entry, e0: Entry, r1: Entry, e1: Entry)
    requires r0.RecordEntry? && r1.RecordEntry? && e0.ItemEntry? && e1.ItemEntry?
    ensures RecordsOf([r0, e0, r1, e1]) == [r0.record, r1.record]
    ensures e0.target == e1.target ==> ItemsFor(e0.target, [r0, e0, r1, e1]) == [e0.item, e1.item]
  {
    assert [r0, e0, r1, e1] == [r0, e0] + [r1, e1];
    TwoEntries(r0, e0, e0.target);
    TwoEntries(r1, e1, e0.target);
    RecordsOfConcat([r0, e0], [r1, e1]);
    ItemsForConcat(e0.target, [r0, e0], [r1, e1]);
  }

  lemma {:induction false} TwoEntries(r: Entry, e: Entry, x: SpanId)
    requires r.RecordEntry? && e.ItemEntry?
    ensures RecordsOf([r, e]) == [r.record]
    ensures ItemsFor(x, [r, e]) == if e.target == x then [e.item] else []
  {
    assert Init([r, e]) == [r] && Init([r]) == [];
    assert RecordsOf([r]) == [r.record] && ItemsFor(x, [r]) == [];
  }

  lemma {:induction false} EventsInTwo(a: DanglingItem, b: DanglingItem)
    requires a.EventItem? && b.EventItem?
    ensures EventsIn([a, b]) == [a.event, b.event]
  {
    assert Init([a, b]) == [a] && Init([a]) == [];
    assert EventsIn([a]) == [a.event];
  }

  // What a reader of the reports sees

  /** The events on the records of span `x`, in report order. */
  function EventsOn(records: seq<SpanRecord>, x: SpanId): seq<EventRecord> {
    if records == [] then []
    else EventsOn(Init(records), x) + if Last(records).spanId == x then Last(records).events else []
  }

  lemma {:induction false} NewRecordsHaveNoEvents(entries: seq<Entry>)
    requires forall e <- entries :: e.RecordEntry? ==> e.record.events == []
    ensures forall r <- RecordsOf(entries) :: r.events == []
  {
    if entries != [] {
      assert entries == Init(entries) + [Last(entries)];
      NewRecordsHaveNoEvents(Init(entries));
    }
  }

  lemma {:induction false} ExpansionHasNoEvents(cs: seq<SpanCollection>, anchor: Anchor)
    ensures forall e <- ExpandAll(cs, anchor) :: e.RecordEntry? ==> e.record.events == []
  {
    if cs != [] {
      ExpansionHasNoEvents(Init(cs), anchor);
      assert forall e <- Expand(Last(cs), anchor) :: e.RecordEntry? ==> e.record.events == [];
    }
  }

  lemma {:induction false} SameLength(records: seq<SpanRecord>, danglings: Danglings)
    ensures |Mount(records, danglings)| == |records|
  {
  }

  lemma {:induction false} MountedRecord(records: seq<SpanRecord>, danglings: Danglings, i: nat)
    requires i < |records| && records[i].events == []
    ensures var mounted := Mount(records, danglings)[i];
            mounted.spanId == records[i].spanId && mounted.events == EventsIn(MountedOn(records, danglings, i))
  {
    assert [] + EventsIn(MountedOn(records, danglings, i)) == EventsIn(MountedOn(records, danglings, i));
  }

  lemma {:induction false} MountedEvents(records: seq<SpanRecord>, danglings: Danglings, x: SpanId, n: nat)
    requires n <= |records| && forall r <- records :: r.events == []
    ensures EventsOn(Mount(records, danglings)[..n], x) == EventsIn(MountedFor(records, danglings, x, n))
  {
    hide MountedOn, EventsIn, Mount;
    SameLength(records, danglings);
    if n == 0 {
      NoEvents();
    } else {
      MountedEvents(records, danglings, x, n - 1);
      var mounted := Mount(records, danglings);
      assert Init(mounted[..n]) == mounted[..n - 1];
      MountedRecord(records, danglings, n - 1);
      if records[n - 1].spanId == x {
        EventsInConcat(MountedFor(records, danglings, x, n - 1), MountedOn(records, danglings, n - 1));
      } else {
        assert EventsOn(mounted[..n], x) == EventsOn(mounted[..n - 1], x);
        assert MountedFor(records, danglings, x, n) == MountedFor(records, danglings, x, n - 1);
      }
    }
  }

  /** In one call, the events seen on the records of `x` followed by those still waiting are the events that had waited
      followed by those that arrived. */
  lemma {:induction false} CallConservesEvents(cs: seq<SpanCollection>, danglings: Danglings, anchor: Anchor, x: SpanId)
    ensures EventsOn(Postprocessed(cs, danglings, anchor), x) + EventsIn(Waiting(Leftover(cs, danglings, anchor), x))
            == EventsIn(Waiting(danglings, x)) + EventsIn(ItemsFor(x, ExpandAll(cs, anchor)))
  {
    hide MountedFor, EventsIn, ExpandAll, RecordsOf, Absorb, Waiting, Unmounted;
    var entries := ExpandAll(cs, anchor);
    var records, absorbed := RecordsOf(entries), Absorb(danglings, entries);
    ExpansionHasNoEvents(cs, anchor);
    NewRecordsHaveNoEvents(entries);
    MountedEvents(records, absorbed, x, |records|);
    assert Mount(records, absorbed)[..|records|] == Mount(records, absorbed);
    CallConserves(cs, danglings, anchor, x);
    EventsInConcat(MountedFor(records, absorbed, x, |records|), Waiting(Leftover(cs, danglings, anchor), x));
    EventsInConcat(Waiting(danglings, x), ItemsFor(x, entries));
  }

  /** What `reported` records of span `x` carry beyond their `plain` counterparts' own properties, in report order. */
  function AddedProperties(plain: seq<SpanRecord>, reported: seq<SpanRecord>, x: SpanId): Properties {
    if plain == [] || reported == [] then []
    else
      var own, all := Last(plain).properties, Last(reported).properties;
      AddedProperties(Init(plain), Init(reported), x) +
      if Last(reported).spanId == x && |own| <= |all| then all[|own|..] else []
  }

  /** A reported record has its own properties first and then those mounted on it. */
  lemma {:induction false} OwnThenMounted(cs: seq<SpanCollection>, danglings: Danglings, anchor: Anchor, i: nat)
    requires i < |RecordsOf(ExpandAll(cs, anchor))|
    ensures var entries := ExpandAll(cs, anchor);
            var records := RecordsOf(entries);
            |Postprocessed(cs, danglings, anchor)| == |records| &&
            Postprocessed(cs, danglings, anchor)[i].properties
            == records[i].properties + PropertiesIn(MountedOn(records, Absorb(danglings, entries), i))
  {
    hide ExpandAll, RecordsOf, Absorb, MountedOn, PropertiesIn;
  }

  lemma {:induction false} MountedProperties(records: seq<SpanRecord>, danglings: Danglings, x: SpanId, n: nat)
    requires n <= |records|
    ensures |Mount(records, danglings)| == |records|
    ensures AddedProperties(records[..n], Mount(records, danglings)[..n], x)
            == PropertiesIn(MountedFor(records, danglings, x, n))
  {
    hide MountedOn, PropertiesIn;
    var mounted := Mount(records, danglings);
    if n == 0 {
      NoEvents();
    } else {
      MountedProperties(records, danglings, x, n - 1);
      InitOfPrefix(records, n);
      InitOfPrefix(mounted, n);
      var more := MountedOn(records, danglings, n - 1);
      assert mounted[n - 1].properties == records[n - 1].properties + PropertiesIn(more);
      if records[n - 1].spanId == x {
        PropertiesInConcat(MountedFor(records, danglings, x, n - 1), more);
      } else {
        assert MountedFor(records, danglings, x, n) == MountedFor(records, danglings, x, n - 1);
      }
    }
  }

  /** The properties that a call adds to the records of `x`. */
  function AddedByCall(cs: seq<SpanCollection>, danglings: Danglings, anchor: Anchor, x: SpanId): Properties {
    AddedProperties(RecordsOf(ExpandAll(cs, anchor)), Postprocessed(cs, danglings, anchor), x)
  }

  /** In one call, the properties added to the records of `x`, followed by those still waiting, are the properties that
      had waited followed by those that arrived. */
  lemma {:induction false} CallConservesProperties(cs: seq<SpanCollection>, danglings: Danglings, anchor: Anchor,
                                                   x: SpanId)
    ensures AddedByCall(cs, danglings, anchor, x) + PropertiesIn(Waiting(Leftover(cs, danglings, anchor), x))
            == PropertiesIn(Waiting(danglings, x)) + PropertiesIn(ItemsFor(x, ExpandAll(cs, anchor)))
  {
    hide MountedFor, PropertiesIn, ExpandAll, RecordsOf, Absorb, Waiting, Unmounted;
    var entries := ExpandAll(cs, anchor);
    var records, absorbed := RecordsOf(entries), Absorb(danglings, entries);
    MountedProperties(records, absorbed, x, |records|);
    assert Mount(records, absorbed)[..|records|] == Mount(records, absorbed) && records[..|records|] == records;
    CallConserves(cs, danglings, anchor, x);
    PropertiesInConcat(MountedFor(records, absorbed, x, |records|), Waiting(Leftover(cs, danglings, anchor), x));
    PropertiesInConcat(Waiting(danglings, x), ItemsFor(x, entries));
  }

  // Across batches

  /** Collect id `c` is started by the first of these batches and stays active through all of them. */
  ghost predicate Live(batches: seq<Batch>, c: CollectId) {
    && batches != [] && c in StartIds(batches[0].commands)
    && (forall k :: 0 < k < |batches| ==> c !in StartIds(batches[k].commands))
    && (forall k :: 0 <= k < |batches| ==> c !in DropIds(batches[k].commands) && c !in CommitIds(batches[k].commands))
  }

  function Arrived(batch: Batch, c: CollectId): seq<Entry> {
    ExpandAll(Routed(batch.commands, c), batch.anchor)
  }

  function ReceivedEvents(batches: seq<Batch>, c: CollectId, x: SpanId): seq<EventRecord> {
    if batches == [] then []
    else ReceivedEvents(Init(batches), c, x) + EventsIn(ItemsFor(x, Arrived(Last(batches), c)))
  }

  /** The events on all records of `x` reported for `c` during the last `n` batches. */
  function ReportedEvents(batches: seq<Batch>, n: nat, c: CollectId, x: SpanId): seq<EventRecord>
    requires n <= |batches|
    decreases n
  {
    if n == 0 then []
    else ReportedEvents(Init(batches), n - 1, c, x) + EventsOn(Flatten(ReportedLast(false, batches, c)), x)
  }

  lemma {:induction false} LiveStep(batches: seq<Batch>, c: CollectId, before: ActiveCollector)
    requires batches != [] && before.spanCollections == []
    requires c !in DropIds(Last(batches).commands) && c !in CommitIds(Last(batches).commands)
    requires if c in StartIds(Last(batches).commands) then before == FRESH_COLLECTOR
             else StateAfter(false, Init(batches), c) == Some(before)
    ensures var routed := Routed(Last(batches).commands, c);
            && StateAfter(false, batches, c)
               == Some(ActiveCollector([], Leftover(routed, before.danglings, Last(batches).anchor)))
            && Flatten(ReportedLast(false, batches, c)) == Postprocessed(routed, before.danglings, Last(batches).anchor)
  {
    hide Postprocessed, Leftover, Routed, StartIds, DropIds, CommitIds, Flatten;
    var routed := Routed(Last(batches).commands, c);
    assert [] + routed == routed;
    FlatOne(Postprocessed(routed, before.danglings, Last(batches).anchor));
  }

  /** What one call mounts for span id `x`. */
  function MountedByCall(cs: seq<SpanCollection>, danglings: Danglings, anchor: Anchor, x: SpanId): seq<DanglingItem> {
    var entries := ExpandAll(cs, anchor);
    MountedFor(RecordsOf(entries), Absorb(danglings, entries), x, |RecordsOf(entries)|)
  }

  /** What the last batch mounts on the records of `x` that it reports for an active `c`. */
  function MountedLast(batches: seq<Batch>, c: CollectId, x: SpanId): seq<DanglingItem>
    requires batches != []
  {
    var routed := Routed(Last(batches).commands, c);
    match Filled(Opened(StateAfter(false, Init(batches), c), Last(batches).commands, c), routed)
    case None => []
    case Some(a) => MountedByCall(a.spanCollections, a.danglings, Last(batches).anchor, x)
  }

  function MountedItems(batches: seq<Batch>, n: nat, c: CollectId, x: SpanId): seq<DanglingItem>
    requires n <= |batches|
    decreases n
  {
    if n == 0 then [] else MountedItems(Init(batches), n - 1, c, x) + MountedLast(batches, c, x)
  }

  function ReceivedItems(batches: seq<Batch>, c: CollectId, x: SpanId): seq<DanglingItem> {
    if batches == [] then [] else ReceivedItems(Init(batches), c, x) + ItemsFor(x, Arrived(Last(batches), c))
  }

  lemma {:induction false} LiveMounts(batches: seq<Batch>, c: CollectId, before: ActiveCollector, x: SpanId)
    requires batches != [] && before.spanCollections == []
    requires c !in DropIds(Last(batches).commands)
    requires if c in StartIds(Last(batches).commands) then before == FRESH_COLLECTOR
             else StateAfter(false, Init(batches), c) == Some(before)
    ensures MountedLast(batches, c, x)
            == MountedByCall(Routed(Last(batches).commands, c), before.danglings, Last(batches).anchor, x)
  {
    hide MountedByCall, Routed, StateAfter, DropIds, StartIds;
    var routed := Routed(Last(batches).commands, c);
    assert [] + routed == routed;
  }

  /** While a collector is active, whatever ran before, every event and property item it receives for a span is mounted
      exactly once on a record of that span or still waits, all in arrival order, even batches later. */
  lemma {:induction false} ItemsConserved(earlier: seq<Batch>, live: seq<Batch>, c: CollectId, x: SpanId)
    requires Live(live, c)
    ensures StateAfter(false, earlier + live, c).Some?
    ensures StateAfter(false, earlier + live, c).value.spanCollections == []
    ensures MountedItems(earlier + live, |live|, c, x)
            + Waiting(StateAfter(false, earlier + live, c).value.danglings, x)
            == ReceivedItems(live, c, x)
    decreases |live|
  {
    hide Postprocessed, Leftover, Routed, StateAfter, ReportedLast, MountedLast, StartIds, DropIds, CommitIds, Flatten,
         ExpandAll, Waiting, ItemsFor;
    var batches := earlier + live;
    assert Init(batches) == earlier + Init(live) && Last(batches) == Last(live);
    var routed := Routed(Last(live).commands, c);
    NothingWaits(x);
    if |live| == 1 {
      assert Init(live) == [];
      LiveStep(batches, c, FRESH_COLLECTOR);
      LiveMounts(batches, c, FRESH_COLLECTOR, x);
      CallConserves(routed, map[], Last(live).anchor, x);
      assert ReceivedItems(live, c, x) == ItemsFor(x, Arrived(Last(live), c));
      assert MountedItems(batches, 1, c, x) == MountedLast(batches, c, x);
    } else {
      assert Live(Init(live), c);
      ItemsConserved(earlier, Init(live), c, x);
      var before := StateAfter(false, earlier + Init(live), c).value;
      LiveStep(batches, c, before);
      LiveMounts(batches, c, before, x);
      CallConserves(routed, before.danglings, Last(live).anchor, x);
      Rearrange(MountedItems(Init(batches), |live| - 1, c, x), Waiting(before.danglings, x),
                ReceivedItems(Init(live), c, x),
                MountedLast(batches, c, x), Waiting(StateAfter(false, batches, c).value.danglings, x),
                ItemsFor(x, Arrived(Last(live), c)));
    }
  }

  /** The same, as a reader of the reports sees it: the events on the reported records of `x`, followed by those still
      waiting, are the events received for `x`. */
  lemma {:induction false} EventsConserved(earlier: seq<Batch>, live: seq<Batch>, c: CollectId, x: SpanId)
    requires Live(live, c)
    ensures StateAfter(false, earlier + live, c).Some?
    ensures StateAfter(false, earlier + live, c).value.spanCollections == []
    ensures ReportedEvents(earlier + live, |live|, c, x)
            + EventsIn(Waiting(StateAfter(false, earlier + live, c).value.danglings, x))
            == ReceivedEvents(live, c, x)
    decreases |live|
  {
    hide Postprocessed, Leftover, Routed, StateAfter, ReportedLast, EventsIn, EventsOn, StartIds, DropIds, CommitIds,
         Flatten, ExpandAll, Waiting, ItemsFor;
    var batches := earlier + live;
    assert Init(batches) == earlier + Init(live) && Last(batches) == Last(live);
    var routed := Routed(Last(live).commands, c);
    if |live| == 1 {
      assert Init(live) == [];
      LiveStep(batches, c, FRESH_COLLECTOR);
      CallConservesEvents(routed, map[], Last(live).anchor, x);
      NothingWaits(x);
      assert ReceivedEvents(live, c, x) == EventsIn(ItemsFor(x, Arrived(Last(live), c)));
      assert ReportedEvents(batches, 1, c, x) == EventsOn(Flatten(ReportedLast(false, batches, c)), x);
    } else {
      assert Live(Init(live), c);
      EventsConserved(earlier, Init(live), c, x);
      var before := StateAfter(false, earlier + Init(live), c).value;
      LiveStep(batches, c, before);
      var after := StateAfter(false, batches, c).value;
      CallConservesEvents(routed, before.danglings, Last(live).anchor, x);
      Rearrange(ReportedEvents(Init(batches), |live| - 1, c, x), EventsIn(Waiting(before.danglings, x)),
                ReceivedEvents(Init(live), c, x),
                EventsOn(Flatten(ReportedLast(false, batches, c)), x), EventsIn(Waiting(after.danglings, x)),
                EventsIn(ItemsFor(x, Arrived(Last(live), c))));
    }
  }

  /** The properties that reports of `c` during the last `n` batches add to the records of `x`. */
  function ReportedProperties(batches: seq<Batch>, n: nat, c: CollectId, x: SpanId): Properties
    requires n <= |batches|
    decreases n
  {
    if n == 0 then []
    else
      ReportedProperties(Init(batches), n - 1, c, x) +
      AddedProperties(RecordsOf(Arrived(Last(batches), c)), Flatten(ReportedLast(false, batches, c)), x)
  }

  function ReceivedProperties(batches: seq<Batch>, c: CollectId, x: SpanId): Properties {
    if batches == [] then []
    else ReceivedProperties(Init(batches), c, x) + PropertiesIn(ItemsFor(x, Arrived(Last(batches), c)))
  }

  /** And for properties: those that reported records of `x` carry beyond the span's own, followed by those still
      waiting, are the properties received for `x`. */
  lemma {:induction false} PropertiesConserved(earlier: seq<Batch>, live: seq<Batch>, c: CollectId, x: SpanId)
    requires Live(live, c)
    ensures StateAfter(false, earlier + live, c).Some?
    ensures StateAfter(false, earlier + live, c).value.spanCollections == []
    ensures ReportedProperties(earlier + live, |live|, c, x)
            + PropertiesIn(Waiting(StateAfter(false, earlier + live, c).value.danglings, x))
            == ReceivedProperties(live, c, x)
    decreases |live|
  {
    hide Postprocessed, Leftover, Routed, StateAfter, ReportedLast, PropertiesIn, AddedProperties, StartIds, DropIds,
         CommitIds, Flatten, ExpandAll, Waiting, ItemsFor, RecordsOf;
    var batches := earlier + live;
    assert Init(batches) == earlier + Init(live) && Last(batches) == Last(live);
    var routed := Routed(Last(live).commands, c);
    if |live| == 1 {
      assert Init(live) == [];
      LiveStep(batches, c, FRESH_COLLECTOR);
      CallConservesProperties(routed, map[], Last(live).anchor, x);
      NothingWaits(x);
      assert ReceivedProperties(live, c, x) == PropertiesIn(ItemsFor(x, Arrived(Last(live), c)));
      assert ReportedProperties(batches, 1, c, x) == AddedByCall(routed, map[], Last(live).anchor, x);
    } else {
      assert Live(Init(live), c);
      PropertiesConserved(earlier, Init(live), c, x);
      var before := StateAfter(false, earlier + Init(live), c).value;
      LiveStep(batches, c, before);
      var after := StateAfter(false, batches, c).value;
      CallConservesProperties(routed, before.danglings, Last(live).anchor, x);
      Rearrange(ReportedProperties(Init(batches), |live| - 1, c, x), PropertiesIn(Waiting(before.danglings, x)),
                ReceivedProperties(Init(live), c, x), AddedByCall(routed, before.danglings, Last(live).anchor, x),
                PropertiesIn(Waiting(after.danglings, x)), PropertiesIn(ItemsFor(x, Arrived(Last(live), c))));
    }
  }

  lemma {:induction false} NothingWaits(x: SpanId)
    ensures Waiting(map[], x) == [] && EventsIn([]) == [] && PropertiesIn([]) == []
  {
  }

  lemma {:induction false} Rearrange<T>(reported: seq<T>, waiting: seq<T>, received: seq<T>, more: seq<T>, left: seq<T>,
                                        arrived: seq<T>)
    requires reported + waiting == received && more + left == waiting + arrived
    ensures (reported + more) + left == received + arrived
  {
    assert (reported + more) + left == reported + (more + left);
  }

  lemma {:induction false} NoEvents()
    ensures EventsIn([]) == [] && PropertiesIn([]) == []
  {
  }
}

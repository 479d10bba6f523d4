/** When the records of a span carry what was recorded on it exactly once (fastrace/src/collector/global_collector.rs).
    The collector expands a span set once for each token item that names a collect id, its events and properties
    included, and gives everything to the first record of a span. What this comes to is stated for any submits, any
    items that have waited before, and any span. */
module RecordedOnce {
  import opened Records
  import opened Postprocess
  import opened GlobalCollectors
  import opened CollectorRuns
  import Lineage
  import LocalRecords
  import SpanQueues

  /** How many items of a token name collect id `c`. */
  function Names(items: seq<TokenItem>, c: CollectId): nat {
    if items == [] then 0 else Names(Init(items), c) + if Last(items).collectId == c then 1 else 0
  }

  /** The events and properties of a span set that are aimed at span `x`, in a single expansion. */
  function Aimed(spans: SpanSet, parentId: SpanId, x: SpanId, anchor: Anchor): seq<DanglingItem> {
    ItemsFor(x, Expand(Owned(spans, 0, parentId), anchor))
  }

  /** What a submit holds for span `x` and collect id `c`, once. */
  function Held(spans: SpanSet, items: seq<TokenItem>, c: CollectId, x: SpanId, anchor: Anchor): seq<DanglingItem> {
    if items == [] then []
    else if Last(items).collectId == c then Aimed(spans, Last(items).parentId, x, anchor)
    else Held(spans, Init(items), c, x, anchor)
  }

  /** What was recorded on span `x` for collect id `c`, once and in order. */
  function Once(commands: seq<Command>, c: CollectId, x: SpanId, anchor: Anchor): seq<DanglingItem> {
    if commands == [] then []
    else
      Once(Init(commands), c, x, anchor) +
      match Last(commands)
      case SubmitSpans(spans, token) => Held(spans, token, c, x, anchor)
      case _ => []
  }

  /** No submit with something for `x` names `c` more than once. */
  ghost predicate NotDoubled(commands: seq<Command>, c: CollectId, x: SpanId, anchor: Anchor) {
    forall k :: 0 <= k < |commands| ==> NamedOnce(commands[k], c, x, anchor)
  }

  ghost predicate NamedOnce(command: Command, c: CollectId, x: SpanId, anchor: Anchor) {
    command.SubmitSpans? ==> Names(command.token, c) <= 1 || Held(command.spans, command.token, c, x, anchor) == []
  }

  /** The tokens that spans issue: all items name the same parent. Only a span that is submitted by itself may hang
      below several ones. */
  ghost predicate Issued(command: Command) {
    command.SubmitSpans? ==>
      || (command.spans.Single? && command.spans.span.kind.SpanKind?)
      || forall i, j :: 0 <= i < |command.token| && 0 <= j < |command.token| ==>
           command.token[i].parentId == command.token[j].parentId
  }

  ghost predicate AllIssued(commands: seq<Command>) {
    forall k :: 0 <= k < |commands| ==> Issued(commands[k])
  }

  // One submit

  function Repeat(s: seq<DanglingItem>, n: nat): seq<DanglingItem> {
    if n == 0 then [] else Repeat(s, n - 1) + s
  }

  lemma {:induction false} RepeatLength(s: seq<DanglingItem>, n: nat)
    ensures |Repeat(s, n)| == n * |s|
  {
    if n > 0 {
      RepeatLength(s, n - 1);
      assert (n - 1) * |s| + |s| == n * |s|;
    }
  }

  lemma {:induction false} LocalAimAnyTrace(local: LocalSpans, n: nat, t: TraceId, u: TraceId, parentId: SpanId,
                                            x: SpanId, anchor: Anchor)
    requires n <= |local.spans|
    ensures ItemsFor(x, LocalEntries(local, t, parentId, anchor)[..n])
            == ItemsFor(x, LocalEntries(local, u, parentId, anchor)[..n])
  {
    if n > 0 {
      InitOfPrefix(LocalEntries(local, t, parentId, anchor), n);
      InitOfPrefix(LocalEntries(local, u, parentId, anchor), n);
      LocalAimAnyTrace(local, n - 1, t, u, parentId, x, anchor);
    }
  }

  lemma {:induction false} WholePrefix<T>(s: seq<T>)
    ensures s[..|s|] == s
  {
  }

  /** Trace ids play no role for events and properties. */
  lemma {:induction false} AimAnyTrace(collection: SpanCollection, x: SpanId, anchor: Anchor)
    ensures ItemsFor(x, Expand(collection, anchor)) == Aimed(collection.spans, collection.parentId, x, anchor)
  {
    match collection.spans
    case Single(span) =>
      assert Init(Expand(collection, anchor)) == [];
      assert Init(Expand(Owned(collection.spans, 0, collection.parentId), anchor)) == [];
    case Local(local) => LocalWholeAim(local, collection.traceId, collection.parentId, x, anchor);
    case SharedLocal(local) => LocalWholeAim(local, collection.traceId, collection.parentId, x, anchor);
  }

  lemma {:induction false} LocalWholeAim(local: LocalSpans, t: TraceId, parentId: SpanId, x: SpanId, anchor: Anchor)
    ensures ItemsFor(x, LocalEntries(local, t, parentId, anchor))
            == ItemsFor(x, LocalEntries(local, 0, parentId, anchor))
  {
    LocalAimAnyTrace(local, |local.spans|, t, 0, parentId, x, anchor);
    WholePrefix(LocalEntries(local, t, parentId, anchor));
    WholePrefix(LocalEntries(local, 0, parentId, anchor));
  }

  lemma {:induction false} SpanAimsNothing(span: RawSpan, parentId: SpanId, x: SpanId, anchor: Anchor)
    requires span.kind.SpanKind?
    ensures Aimed(Single(span), parentId, x, anchor) == []
  {
    var entries := Expand(Owned(Single(span), 0, parentId), anchor);
    assert Init(entries) == [] && Last(entries).RecordEntry?;
    assert ItemsFor(x, []) == [];
  }

  /** All items of an issued token aim the same at `x`. */
  lemma {:induction false} OneAim(command: Command, i: nat, j: nat, x: SpanId, anchor: Anchor)
    requires command.SubmitSpans? && Issued(command) && i < |command.token| && j < |command.token|
    ensures Aimed(command.spans, command.token[i].parentId, x, anchor)
            == Aimed(command.spans, command.token[j].parentId, x, anchor)
  {
    hide Aimed;
    if command.spans.Single? && command.spans.span.kind.SpanKind? {
      SpanAimsNothing(command.spans.span, command.token[i].parentId, x, anchor);
      SpanAimsNothing(command.spans.span, command.token[j].parentId, x, anchor);
    }
  }

  lemma {:induction false} HeldByAny(command: Command, n: nat, c: CollectId, x: SpanId, anchor: Anchor, i: nat)
    requires command.SubmitSpans? && Issued(command) && i < n <= |command.token| && command.token[i].collectId == c
    ensures Held(command.spans, command.token[..n], c, x, anchor)
            == Aimed(command.spans, command.token[i].parentId, x, anchor)
  {
    hide Aimed, Issued;
    InitOfPrefix(command.token, n);
    OneAim(command, i, n - 1, x, anchor);
    if command.token[n - 1].collectId != c {
      HeldByAny(command, n - 1, c, x, anchor, i);
    }
  }

  lemma {:induction false} NamedBySome(items: seq<TokenItem>, c: CollectId) returns (i: nat)
    requires Names(items, c) > 0
    ensures i < |items| && items[i].collectId == c
  {
    if Last(items).collectId == c {
      i := |items| - 1;
    } else {
      i := NamedBySome(Init(items), c);
    }
  }

  lemma {:induction false} HeldByNone(spans: SpanSet, items: seq<TokenItem>, c: CollectId, x: SpanId, anchor: Anchor)
    requires Names(items, c) == 0
    ensures Held(spans, items, c, x, anchor) == []
  {
    hide Aimed;
    if items != [] {
      HeldByNone(spans, Init(items), c, x, anchor);
    }
  }

  lemma {:induction false} ExpandOneMore(cs: seq<SpanCollection>, collection: SpanCollection, x: SpanId, anchor: Anchor)
    ensures ItemsFor(x, ExpandAll(cs + [collection], anchor))
            == ItemsFor(x, ExpandAll(cs, anchor)) + Aimed(collection.spans, collection.parentId, x, anchor)
  {
    hide Expand, ItemsFor, Aimed;
    assert Init(cs + [collection]) == cs;
    ItemsForConcat(x, ExpandAll(cs, anchor), Expand(collection, anchor));
    AimAnyTrace(collection, x, anchor);
  }

  /** A submit yields what it holds for `x` once for each token item that names the collect id. */
  lemma {:induction false} SubmitRepeats(command: Command, single: bool, n: nat, c: CollectId, x: SpanId,
                                         anchor: Anchor)
    requires command.SubmitSpans? && Issued(command) && n <= |command.token|
    ensures ItemsFor(x, ExpandAll(RoutedItems(command.spans, single, command.token[..n], c), anchor))
            == Repeat(Held(command.spans, command.token[..n], c, x, anchor), Names(command.token[..n], c))
  {
    hide Aimed, Issued, ItemsFor, ExpandAll;
    if n == 0 {
      NothingRoutes(x, anchor);
    } else {
      var items, last := command.token[..n - 1], command.token[n - 1];
      InitOfPrefix(command.token, n);
      SubmitRepeats(command, single, n - 1, c, x, anchor);
      var routed := RoutedItems(command.spans, single, items, c);
      if last.collectId == c {
        ExpandOneMore(routed, CollectionFor(command.spans, single, last), x, anchor);
        if Names(items, c) > 0 {
          var i := NamedBySome(items, c);
          HeldByAny(command, n - 1, c, x, anchor, i);
          OneAim(command, i, n - 1, x, anchor);
        }
      } else {
        assert routed + [] == routed;
      }
    }
  }

  lemma {:induction false} NothingRoutes(x: SpanId, anchor: Anchor)
    ensures ItemsFor(x, ExpandAll([], anchor)) == []
  {
  }

  // All submits of a collect id

  /** What one command yields for `x`. */
  function Arrival(command: Command, c: CollectId, x: SpanId, anchor: Anchor): seq<DanglingItem> {
    match command
    case SubmitSpans(spans, token) => Repeat(Held(spans, token, c, x, anchor), Names(token, c))
    case _ => []
  }

  lemma {:induction false} ItemsOneMore(commands: seq<Command>, c: CollectId, x: SpanId, anchor: Anchor)
    requires commands != [] && Issued(Last(commands))
    ensures ItemsFor(x, ExpandAll(Routed(commands, c), anchor))
            == ItemsFor(x, ExpandAll(Routed(Init(commands), c), anchor))
               + Arrival(Last(commands), c, x, anchor)
  {
    hide Issued, ItemsFor, ExpandAll, Held, Names, RoutedItems, Repeat;
    var before := Routed(Init(commands), c);
    match Last(commands)
    case SubmitSpans(spans, token) =>
      var more := RoutedItems(spans, |token| == 1, token, c);
      ExpandAllConcat(before, more, anchor);
      ItemsForConcat(x, ExpandAll(before, anchor), ExpandAll(more, anchor));
      SubmitRepeats(Last(commands), |token| == 1, |token|, c, x, anchor);
      WholePrefix(token);
    case _ =>
      assert before + [] == before;
  }

  lemma {:induction false} RepeatOnce(s: seq<DanglingItem>, n: nat)
    ensures n == 1 || s == [] ==> Repeat(s, n) == s
    ensures n == 0 ==> Repeat(s, n) == []
  {
    if n == 1 {
      assert Repeat(s, 0) + s == s;
    } else if n > 1 && s == [] {
      RepeatOnce(s, n - 1);
    }
  }

  /** Nothing is missing, and something arrives more than once exactly when a submit that holds it names the collect id
      more than once. */
  lemma {:induction false} ArrivesOnceExactly(commands: seq<Command>, c: CollectId, x: SpanId, anchor: Anchor)
    requires AllIssued(commands)
    ensures var arrived := ItemsFor(x, ExpandAll(Routed(commands, c), anchor));
            && (arrived == Once(commands, c, x, anchor) <==> NotDoubled(commands, c, x, anchor))
            && |Once(commands, c, x, anchor)| <= |arrived|
            && (|Once(commands, c, x, anchor)| == |arrived| ==> NotDoubled(commands, c, x, anchor))
            && (Once(commands, c, x, anchor) == [] ==> arrived == [])
  {
    hide Issued, ItemsFor, ExpandAll, Routed, Held, Names, Repeat;
    if commands == [] {
      NothingRouted(c, x, anchor);
    } else {
      var last := Last(commands);
      assert last == commands[|commands| - 1];
      ArrivesOnceExactly(Init(commands), c, x, anchor);
      ItemsOneMore(commands, c, x, anchor);
      NotDoubledSplits(commands, c, x, anchor);
      if last.SubmitSpans? {
        SubmitOnceExactly(last, c, x, anchor);
      }
    }
  }

  lemma {:induction false} NothingRouted(c: CollectId, x: SpanId, anchor: Anchor)
    ensures ItemsFor(x, ExpandAll(Routed([], c), anchor)) == []
  {
  }

  lemma {:induction false} NotDoubledSplits(commands: seq<Command>, c: CollectId, x: SpanId, anchor: Anchor)
    requires commands != []
    ensures NotDoubled(commands, c, x, anchor)
            <==> NotDoubled(Init(commands), c, x, anchor) && NamedOnce(Last(commands), c, x, anchor)
  {
    hide NamedOnce;
    if NotDoubled(commands, c, x, anchor) {
      forall k | 0 <= k < |Init(commands)| ensures NamedOnce(Init(commands)[k], c, x, anchor) {
        assert NamedOnce(commands[k], c, x, anchor);
      }
      assert NamedOnce(commands[|commands| - 1], c, x, anchor);
    } else {
      var k :| 0 <= k < |commands| && !NamedOnce(commands[k], c, x, anchor);
      assert k < |commands| - 1 ==> !NamedOnce(Init(commands)[k], c, x, anchor);
    }
  }

  lemma {:induction false} SubmitOnceExactly(command: Command, c: CollectId, x: SpanId, anchor: Anchor)
    requires command.SubmitSpans?
    ensures var held, n := Held(command.spans, command.token, c, x, anchor), Names(command.token, c);
            && |held| <= |Repeat(held, n)|
            && (|held| == |Repeat(held, n)| <==> NamedOnce(command, c, x, anchor))
            && (NamedOnce(command, c, x, anchor) ==> Repeat(held, n) == held)
            && (held == [] ==> Repeat(held, n) == [])
  {
    hide Held, Names;
    var held, n := Held(command.spans, command.token, c, x, anchor), Names(command.token, c);
    RepeatLength(held, n);
    RepeatOnce(held, n);
    if n == 0 {
      HeldByNone(command.spans, command.token, c, x, anchor);
    } else {
      Grows(n, |held|);
    }
  }

  lemma {:induction false} Grows(n: nat, size: nat)
    requires n >= 1
    ensures size <= n * size && (size == n * size <==> n == 1 || size == 0)
  {
    if n > 1 && size > 0 {
      assert n * size == size + (n - 1) * size && (n - 1) * size > 0;
    }
  }

  // The records of a span

  function CountId(keys: seq<Key>, x: SpanId): nat {
    if keys == [] then 0 else CountId(Init(keys), x) + if Last(keys).spanId == x then 1 else 0
  }

  /** How many records of `x` the submits make for `c`, read off the raw spans and the tokens. */
  function RecordCount(commands: seq<Command>, c: CollectId, x: SpanId): nat {
    CountId(SubmittedKeys(commands, c), x)
  }

  lemma {:induction false} CountedRecords(records: seq<SpanRecord>, n: nat, x: SpanId)
    requires n <= |records|
    ensures CountId(Keys(records)[..n], x) == 0 <==> x !in IdsOf(records[..n])
    ensures CountId(Keys(records)[..n], x) <= 1 <==>
              forall i :: 0 <= i < n && records[i].spanId == x ==> x !in IdsOf(records[..i])
  {
    hide IdsOf;
    if n == 0 {
      NoIds(records);
    } else {
      InitOfPrefix(Keys(records), n);
      CountedRecords(records, n - 1, x);
      IdsOneMore(records, n);
      if CountId(Keys(records)[..n - 1], x) > 0 && records[n - 1].spanId == x {
        assert x in IdsOf(records[..n - 1]);
      }
    }
  }

  lemma {:induction false} NoIds(records: seq<SpanRecord>)
    ensures IdsOf(records[..0]) == {}
  {
  }

  lemma {:induction false} IdsOneMore(records: seq<SpanRecord>, n: nat)
    requires 0 < n <= |records|
    ensures IdsOf(records[..n]) == IdsOf(records[..n - 1]) + {records[n - 1].spanId}
  {
    assert records[..n] == records[..n - 1] + [records[n - 1]];
  }

  /** The records that a call makes of the submits of `c`. */
  function RecordsFor(commands: seq<Command>, c: CollectId, anchor: Anchor): seq<SpanRecord> {
    RecordsOf(ExpandAll(Routed(commands, c), anchor))
  }

  /** What record `i` receives in that call, with `danglings` waiting before it. */
  function Received(commands: seq<Command>, danglings: Danglings, c: CollectId, anchor: Anchor,
                    i: nat): seq<DanglingItem>
    requires i < |RecordsFor(commands, c, anchor)|
  {
    MountedOn(RecordsFor(commands, c, anchor), Absorb(danglings, ExpandAll(Routed(commands, c), anchor)), i)
  }

  lemma {:induction false} ReceivedIs(commands: seq<Command>, danglings: Danglings, c: CollectId, anchor: Anchor,
                                      i: nat)
    requires i < |RecordsFor(commands, c, anchor)|
    ensures var records := RecordsFor(commands, c, anchor);
            var x := records[i].spanId;
            Received(commands, danglings, c, anchor, i)
            == if x in IdsOf(records[..i]) then []
               else Waiting(danglings, x) + ItemsFor(x, ExpandAll(Routed(commands, c), anchor))
  {
    hide ExpandAll, Routed, ItemsFor, IdsOf, Absorb, RecordsOf;
    WaitingAfterAbsorb(danglings, ExpandAll(Routed(commands, c), anchor), RecordsFor(commands, c, anchor)[i].spanId);
  }

  lemma {:induction false} RecordsCounted(commands: seq<Command>, c: CollectId, x: SpanId, anchor: Anchor)
    ensures var records := RecordsFor(commands, c, anchor);
            && (RecordCount(commands, c, x) == 0 <==> x !in IdsOf(records))
            && (RecordCount(commands, c, x) <= 1 <==>
                  forall i :: 0 <= i < |records| && records[i].spanId == x ==> x !in IdsOf(records[..i]))
  {
    hide IdsOf, ExpandAll, Routed, SubmittedKeys, CountId;
    var records := RecordsFor(commands, c, anchor);
    ExpandAllKeys(Routed(commands, c), anchor);
    RoutedKeys(commands, c);
    CountedRecords(records, |records|, x);
    assert records[..|records|] == records && Keys(records)[..|records|] == Keys(records);
  }

  /** Every record of span `x` receives exactly `items`. */
  ghost predicate EachReceives(commands: seq<Command>, danglings: Danglings, c: CollectId, x: SpanId, anchor: Anchor,
                               items: seq<DanglingItem>)
  {
    forall i :: 0 <= i < |RecordsFor(commands, c, anchor)| && RecordsFor(commands, c, anchor)[i].spanId == x ==>
      Received(commands, danglings, c, anchor, i) == items
  }

  /** For every call, every id and whatever has waited: the records of a span carry what was recorded on it exactly once
      if and only if there is no such record, or nothing to carry, or there is one record and no submit that holds
      something for it names the collect id twice. */
  lemma {:induction false} CarriedOnceExactly(commands: seq<Command>, danglings: Danglings, c: CollectId, x: SpanId,
                                              anchor: Anchor)
    requires AllIssued(commands)
    ensures EachReceives(commands, danglings, c, x, anchor, Waiting(danglings, x) + Once(commands, c, x, anchor))
            <==> (RecordCount(commands, c, x) == 0
                  || Waiting(danglings, x) + Once(commands, c, x, anchor) == []
                  || (RecordCount(commands, c, x) == 1 && NotDoubled(commands, c, x, anchor)))
  {
    hide IdsOf, Routed, ExpandAll, ItemsFor, Once, NotDoubled, RecordCount, RecordsFor, Received, AllIssued, Waiting;
    var records, n := RecordsFor(commands, c, anchor), RecordCount(commands, c, x);
    var own, arrived := Once(commands, c, x, anchor), ItemsFor(x, ExpandAll(Routed(commands, c), anchor));
    var waited := Waiting(danglings, x);
    RecordsCounted(commands, c, x, anchor);
    ArrivesOnceExactly(commands, c, x, anchor);
    assert waited + arrived == waited + own <==> arrived == own by { SameRest(waited, arrived, own); }
    forall i | 0 <= i < |records| && records[i].spanId == x
      ensures Received(commands, danglings, c, anchor, i)
              == if x in IdsOf(records[..i]) then [] else waited + arrived
    {
      ReceivedIs(commands, danglings, c, anchor, i);
    }
    if n > 0 {
      var first := FirstRecord(records, x);
      if n > 1 {
        var i :| 0 <= i < |records| && records[i].spanId == x && x in IdsOf(records[..i]);
      }
    }
    if n == 0 {
      NotAmong(records, x);
    }
  }

  lemma {:induction false} SameRest<T>(a: seq<T>, b: seq<T>, c: seq<T>)
    ensures a + b == a + c <==> b == c
  {
    if a + b == a + c {
      assert b == (a + b)[|a|..] == (a + c)[|a|..] == c;
    }
  }

  lemma {:induction false} NotAmong(records: seq<SpanRecord>, x: SpanId)
    requires x !in IdsOf(records)
    ensures forall i :: 0 <= i < |records| ==> records[i].spanId != x
  {
    forall i | 0 <= i < |records| ensures records[i].spanId != x {
      assert records[i] in records;
    }
  }

  lemma {:induction false} FirstRecord(records: seq<SpanRecord>, x: SpanId) returns (i: nat)
    requires x in IdsOf(records)
    ensures i < |records| && records[i].spanId == x && x !in IdsOf(records[..i])
  {
    var before := Init(records);
    if x in IdsOf(before) {
      i := FirstRecord(before, x);
      assert before[..i] == records[..i];
    } else {
      i := |records| - 1;
      assert records == before + [Last(records)];
    }
  }

  // A local span set

  lemma {:induction false} LocalHeld(local: LocalSpans, items: seq<TokenItem>, c: CollectId, x: SpanId, anchor: Anchor)
    requires x != NO_ID && forall t <- items :: t.parentId != x
    ensures Held(Local(local), items, c, x, anchor)
            == if Names(items, c) == 0 then [] else LocalRecords.Under(local.spans, x, anchor)
  {
    hide LocalRecords.Under;
    if items != [] {
      LocalHeld(local, Init(items), c, x, anchor);
      var parent := SpanContext(0, Last(items).parentId, true);
      LocalRecords.ItemsAreUnder(local, |local.spans|, parent, x, anchor);
      WholePrefix(LocalEntries(local, 0, Last(items).parentId, anchor));
      WholePrefix(local.spans);
    }
  }

  lemma {:induction false} CountConcat(a: seq<Key>, b: seq<Key>, x: SpanId)
    ensures CountId(a + b, x) == CountId(a, x) + CountId(b, x)
  {
    if b == [] {
      assert a + b == a;
    } else {
      InitOfConcat(a, b);
      CountConcat(a, Init(b), x);
    }
  }

  lemma {:induction false} LocalCount(spans: seq<RawSpan>, n: nat, traceId: TraceId, parentId: SpanId, k: nat)
    requires SpanQueues.DistinctIds(spans) && k < |spans| && spans[k].kind.SpanKind? && n <= |spans|
    ensures CountId(LocalKeys(spans[..n], traceId, parentId), spans[k].id) == if k < n then 1 else 0
  {
    hide CountId, SpanQueues.DistinctIds;
    if n == 0 {
      NothingCounted(spans[k].id);
    } else {
      InitOfPrefix(spans, n);
      LocalCount(spans, n - 1, traceId, parentId, k);
      var before, last := LocalKeys(spans[..n - 1], traceId, parentId), spans[n - 1];
      OtherId(spans, k, n - 1);
      if last.kind.SpanKind? {
        var key := Key(traceId, last.id, if last.parentId == NO_ID then parentId else last.parentId);
        assert LocalKeys(spans[..n], traceId, parentId) == before + [key];
        CountOneMore(before, key, spans[k].id);
      } else {
        assert LocalKeys(spans[..n], traceId, parentId) == before;
      }
    }
  }

  lemma {:induction false} CountOneMore(keys: seq<Key>, key: Key, x: SpanId)
    ensures CountId(keys + [key], x) == CountId(keys, x) + if key.spanId == x then 1 else 0
  {
    assert Init(keys + [key]) == keys;
  }

  lemma {:induction false} OtherId(spans: seq<RawSpan>, j: nat, k: nat)
    requires SpanQueues.DistinctIds(spans) && j < |spans| && k < |spans|
    ensures spans[j].id == spans[k].id <==> j == k
  {
  }

  lemma {:induction false} LocalRecordCount(local: LocalSpans, items: seq<TokenItem>, c: CollectId, k: nat)
    requires SpanQueues.DistinctIds(local.spans) && k < |local.spans| && local.spans[k].kind.SpanKind?
    ensures CountId(ItemKeys(Local(local), items, c), local.spans[k].id) == Names(items, c)
  {
    hide LocalKeys, CountId;
    if items == [] {
      assert CountId([], local.spans[k].id) == 0 by { NothingCounted(local.spans[k].id); }
    } else {
      var before, last := ItemKeys(Local(local), Init(items), c), Last(items);
      LocalRecordCount(local, Init(items), c, k);
      if last.collectId == c {
        CountConcat(before, LocalKeys(local.spans, last.traceId, last.parentId), local.spans[k].id);
        LocalCount(local.spans, |local.spans|, last.traceId, last.parentId, k);
        WholePrefix(local.spans);
      } else {
        assert before + [] == before;
      }
    }
  }

  lemma {:induction false} NothingCounted(x: SpanId)
    ensures CountId([], x) == 0
  {
  }

  lemma {:induction false} OneCommand(command: Command, c: CollectId, x: SpanId, anchor: Anchor)
    requires command.SubmitSpans?
    ensures Once([command], c, x, anchor) == Held(command.spans, command.token, c, x, anchor)
    ensures SubmittedKeys([command], c) == ItemKeys(command.spans, command.token, c)
    ensures NotDoubled([command], c, x, anchor) <==> NamedOnce(command, c, x, anchor)
    ensures AllIssued([command]) <==> Issued(command)
  {
    hide Held, ItemKeys, NamedOnce, Issued;
    assert Init([command]) == [];
    assert [command][0] == command;
    assert SubmittedKeys([], c) == [] && Once([], c, x, anchor) == [];
  }

  /** A local set below one parent: each record of one of its spans carries what the thread recorded on the span exactly
      once if and only if the token names the collect id at most once or nothing was recorded. */
  lemma {:induction false} LocalSetOnceExactly(local: LocalSpans, items: seq<TokenItem>, c: CollectId, k: nat,
                                               danglings: Danglings, anchor: Anchor)
    requires SpanQueues.DistinctIds(local.spans) && k < |local.spans| && local.spans[k].kind.SpanKind?
    requires Issued(SubmitSpans(Local(local), items))
    requires Waiting(danglings, local.spans[k].id) == [] && forall t <- items :: t.parentId != local.spans[k].id
    ensures var commands, x := [SubmitSpans(Local(local), items)], local.spans[k].id;
            var recorded := LocalRecords.Under(local.spans, x, anchor);
            && RecordCount(commands, c, x) == Names(items, c)
            && (EachReceives(commands, danglings, c, x, anchor, recorded) <==> Names(items, c) <= 1 || recorded == [])
  {
    hide RecordsFor, Received, LocalRecords.Under, Held, Names, SubmittedKeys, Issued, Waiting, SpanQueues.DistinctIds,
         CountId;
    var command, x := SubmitSpans(Local(local), items), local.spans[k].id;
    var commands, recorded := [command], LocalRecords.Under(local.spans, x, anchor);
    IdNotZero(local.spans, k);
    LocalHeld(local, items, c, x, anchor);
    LocalRecordCount(local, items, c, k);
    OneCommand(command, c, x, anchor);
    CarriedOnceExactly(commands, danglings, c, x, anchor);
    assert [] + Once(commands, c, x, anchor) == Once(commands, c, x, anchor);
    if Names(items, c) == 0 {
      NoRecordsMade(commands, c, x, anchor);
    }
  }

  lemma {:induction false} NoRecordsMade(commands: seq<Command>, c: CollectId, x: SpanId, anchor: Anchor)
    requires RecordCount(commands, c, x) == 0
    ensures forall i :: 0 <= i < |RecordsFor(commands, c, anchor)| ==> RecordsFor(commands, c, anchor)[i].spanId != x
  {
    hide IdsOf, RecordsFor, RecordCount;
    RecordsCounted(commands, c, x, anchor);
    NotAmong(RecordsFor(commands, c, anchor), x);
  }

  lemma {:induction false} IdNotZero(spans: seq<RawSpan>, k: nat)
    requires SpanQueues.DistinctIds(spans) && k < |spans|
    ensures spans[k].id != NO_ID
  {
  }

  /** What a cancelable collector has gathered over batches is what one batch of all their commands would give, so
      that the results above hold of both modes. */
  lemma {:induction false} RoutedOverIsRouted(batches: seq<Batch>, c: CollectId)
    ensures RoutedOver(batches, c) == Routed(Concat(batches), c)
  {
    hide RoutedItems;
    if batches != [] {
      RoutedOverIsRouted(Init(batches), c);
      RoutedConcat(Concat(Init(batches)), Last(batches).commands, c);
    }
  }

  lemma {:induction false} RoutedConcat(a: seq<Command>, b: seq<Command>, c: CollectId)
    ensures Routed(a + b, c) == Routed(a, c) + Routed(b, c)
  {
    hide RoutedItems;
    if b == [] {
      assert a + b == a;
    } else {
      InitOfConcat(a, b);
      RoutedConcat(a, Init(b), c);
    }
  }

  // The tokens that are issued

  ghost predicate OneParent(token: Lineage.TracedToken) {
    forall i, j :: 0 <= i < |token| && 0 <= j < |token| ==> token[i].item.parentId == token[j].item.parentId
  }

  ghost predicate Uniform(w: Lineage.World) {
    && (forall thread <- w.stacks :: forall i :: 0 <= i < |w.stacks[thread]| ==> OneParent(w.stacks[thread][i].token))
    && (forall id <- w.live :: w.live[id].raw.kind.SpanKind?)
    && (forall i :: 0 <= i < |w.sent| ==> Issued(Lineage.ToCommand(w.sent[i])))
  }

  lemma {:induction false} SampledOneParent(token: Lineage.TracedToken)
    requires OneParent(token)
    ensures OneParent(Lineage.Sampled(token))
  {
    Lineage.SampledShape(token);
    forall i, j | 0 <= i < |Lineage.Sampled(token)| && 0 <= j < |Lineage.Sampled(token)|
      ensures Lineage.Sampled(token)[i].item.parentId == Lineage.Sampled(token)[j].item.parentId
    {
      assert Lineage.Sampled(token)[i] in token && Lineage.Sampled(token)[j] in token;
    }
  }

  lemma {:induction false} SubmitUniform(w: Lineage.World, thread: nat, spans: SpanSet, token: Lineage.TracedToken)
    requires Uniform(w)
    requires (spans.Single? && spans.span.kind.SpanKind?) || OneParent(token)
    ensures Uniform(Lineage.Submit(w, thread, spans, token))
  {
    if OneParent(token) {
      SampledOneParent(token);
    }
  }

  lemma {:induction false} NotedUniform(w: Lineage.World, id: SpanId, token: Lineage.TracedToken, raw: RawSpan)
    requires Uniform(w)
    ensures Uniform(Lineage.Noted(w, id, token, raw))
  {
  }

  lemma {:induction false} IssueOneParent(span: Lineage.Span)
    ensures OneParent(Lineage.Issue(span))
  {
  }

  lemma {:induction false} ControlUniform(w: Lineage.World, thread: nat, command: Command)
    requires Uniform(w) && !command.SubmitSpans?
    ensures Uniform(Lineage.Control(w, thread, command))
  {
    hide OneParent;
  }

  lemma {:induction false} SpanUniform(w: Lineage.World, id: SpanId, name: string, token: Lineage.TracedToken,
                                       collectId: Option<CollectId>)
    requires Uniform(w)
    ensures Uniform(Lineage.WithSpan(w, id, name, token, collectId))
  {
    hide OneParent, Issued, Lineage.RootsOf;
  }

  lemma {:induction false} StackUniform(w: Lineage.World, thread: nat, lines: seq<Lineage.Line>)
    requires Uniform(w) && forall i :: 0 <= i < |lines| ==> OneParent(lines[i].token)
    ensures Uniform(w.(stacks := w.stacks[thread := lines]))
  {
    hide OneParent, Issued;
  }

  lemma {:induction false} LinesUniform(w: Lineage.World, thread: nat)
    requires Uniform(w)
    ensures var lines := Lineage.Stack(w, thread); forall i :: 0 <= i < |lines| ==> OneParent(lines[i].token)
    ensures forall id <- w.live :: w.live[id].raw.kind.SpanKind?
  {
    hide OneParent, Issued;
  }

  lemma {:induction false} NewRootUniform(w: Lineage.World, thread: nat, id: SpanId, context: SpanContext, name: string,
                                          capacity: nat)
    requires Uniform(w)
    ensures Uniform(Lineage.Next(w, Lineage.NewRoot(thread, id, context, name), capacity))
  {
    hide Uniform, Lineage.WithSpan;
    ControlUniform(w, thread, StartCollect(w.nextCollectId));
    var controlled := Lineage.Control(w, thread, StartCollect(w.nextCollectId));
    var started := if context.sampled then controlled.(nextCollectId := w.nextCollectId + 1) else w;
    var collectId := if context.sampled then w.nextCollectId else Lineage.NOT_SAMPLED_COLLECT_ID;
    var rooted := started.(roots := w.roots + [Lineage.Root(context, collectId, id)]);
    SameSending(if context.sampled then controlled else w, rooted);
    var item := TokenItem(context.traceId, context.spanId, collectId, true, context.sampled);
    SpanUniform(rooted, id, name, [Lineage.TracedItem(item, |w.roots|)], Some(collectId));
  }

  lemma {:induction false} SameSending(w: Lineage.World, w': Lineage.World)
    requires Uniform(w) && w'.stacks == w.stacks && w'.live == w.live && w'.sent == w.sent
    ensures Uniform(w')
  {
    hide OneParent, Issued;
  }

  lemma {:induction false} LocalCallUniform(w: Lineage.World, thread: nat, op: SpanQueues.Op, capacity: nat)
    requires Uniform(w) && Lineage.Enabled(w, Lineage.LocalCall(thread, op))
    ensures Uniform(Lineage.Next(w, Lineage.LocalCall(thread, op), capacity))
  {
    hide Uniform, OneParent, SpanQueues.AfterOp, Lineage.RootsOf;
    var lines := Lineage.Stack(w, thread);
    var line := Last(lines);
    LinesUniform(w, thread);
    var called := Init(lines) + [line.(queue := SpanQueues.AfterOp(line.queue, capacity, op))];
    StackUniform(w, thread, called);
    SameSending(w.(stacks := w.stacks[thread := called]), Lineage.Next(w, Lineage.LocalCall(thread, op), capacity));
  }

  lemma {:induction false} DropUniform(w: Lineage.World, thread: nat, span: SpanId, now: Instant, capacity: nat)
    requires Uniform(w) && span in w.live
    ensures Uniform(Lineage.Next(w, Lineage.DropSpan(thread, span, now), capacity))
  {
    hide OneParent, Lineage.Submit, Lineage.Control, Issued;
    var s, dropped := w.live[span], w.(live := w.live - {span});
    assert Uniform(dropped);
    SubmitUniform(dropped, thread, Single(s.raw.(end := now)), s.token);
    if s.collectId.Some? {
      ControlUniform(Lineage.Submit(dropped, thread, Single(s.raw.(end := now)), s.token), thread,
                     CommitCollect(s.collectId.value));
    }
  }

  lemma {:induction false} StepUniform(w: Lineage.World, step: Lineage.Step, capacity: nat)
    requires Uniform(w) && Lineage.Enabled(w, step)
    ensures Uniform(Lineage.Next(w, step, capacity))
  {
    hide Uniform, OneParent, Lineage.Fresh, Lineage.Issue, Lineage.IssueAll, Lineage.CurrentToken, Lineage.Submit,
         Lineage.Control, Lineage.WithSpan;
    LinesUniform(w, step.thread);
    match step
    case NewRoot(thread, id, context, name) => NewRootUniform(w, thread, id, context, name, capacity);
    case EnterWithParents(_, id, parents, name) =>
      SpanUniform(w, id, name, Lineage.IssueAll(w.live, parents), None);
    case EnterWithLocalParent(thread, id, name) =>
      SpanUniform(w, id, name, Lineage.CurrentToken(Last(Lineage.Stack(w, thread))), None);
    case SetLocalParent(thread, span) =>
      IssueOneParent(w.live[span]);
      var line := Lineage.Line(Lineage.Issue(w.live[span]), SpanQueues.QueueState([], None));
      StackUniform(w, thread, Lineage.Stack(w, thread) + [line]);
    case DropLocalParent(thread, now) =>
      var line := Last(Lineage.Stack(w, thread));
      StackUniform(w, thread, Init(Lineage.Stack(w, thread)));
      var popped := w.(stacks := w.stacks[thread := Init(Lineage.Stack(w, thread))]);
      SubmitUniform(popped, thread, Local(LocalSpans(line.queue.spans, now)), line.token);
    case LocalCall(thread, op) => LocalCallUniform(w, thread, op, capacity);
    case AddToSpan(thread, id, span, kind, name, properties) =>
      IssueOneParent(w.live[span]);
      var raw := BeginWith(id, NO_ID, w.clock, name, kind).(properties := properties);
      var noted := Lineage.Noted(w, id, Lineage.Issue(w.live[span]), raw);
      NotedUniform(w, id, Lineage.Issue(w.live[span]), raw);
      SubmitUniform(noted, thread, Single(raw), Lineage.Issue(w.live[span]));
    case Cancel(thread, span) =>
      if w.live[span].collectId.Some? {
        ControlUniform(w, thread, DropCollect(w.live[span].collectId.value));
      }
    case DropSpan(thread, span, now) => DropUniform(w, thread, span, now, capacity);
  }

  /** Every token that any thread ever sends is issued in that sense. */
  lemma {:induction false} ReachableUniform(capacity: nat, steps: seq<Lineage.Step>, w: Lineage.World)
    requires Lineage.Reaches(capacity, steps, w)
    ensures Uniform(w) && AllIssued(Lineage.SentCommands(w))
    decreases |steps|
  {
    hide Issued, Lineage.Next, Lineage.Permitted, Lineage.Fresh, Uniform;
    if steps == [] {
      EmptyUniform();
    } else {
      var w0 :| Lineage.Reaches(capacity, Init(steps), w0) && Lineage.Enabled(w0, Last(steps))
                && w == Lineage.Next(w0, Last(steps), capacity);
      ReachableUniform(capacity, Init(steps), w0);
      StepUniform(w0, Last(steps), capacity);
    }
    UniformSent(w);
  }

  lemma {:induction false} UniformSent(w: Lineage.World)
    requires Uniform(w)
    ensures AllIssued(Lineage.SentCommands(w))
  {
  }

  lemma {:induction false} EmptyUniform()
    ensures Uniform(Lineage.EMPTY_WORLD)
  {
  }
}

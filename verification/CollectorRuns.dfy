/** Guarantees of the global collector over whole runs: any number of batches, any commands in them.
    With `cancelable` off nothing submitted is lost or duplicated; with it on, a trace is reported all
    at once by the batch that commits it, and never once it has been dropped. */
module CollectorRuns {
  import opened Records
  import opened Postprocess
  import opened GlobalCollectors

  datatype Batch = Batch(commands: seq<Command>, anchor: Anchor)

  /** Collect id `c` after a run that began with no active collector. */
  function StateAfter(cancelable: bool, batches: seq<Batch>, c: CollectId): Option<ActiveCollector> {
    if batches == [] then None
    else
      var last := Last(batches);
      IdBatch(cancelable, StateAfter(cancelable, Init(batches), c), last.commands, c, last.anchor).next
  }

  /** The groups reported for collect id `c` by the last batch of a run. */
  function ReportedLast(cancelable: bool, batches: seq<Batch>, c: CollectId): seq<seq<SpanRecord>>
    requires batches != []
  {
    var last := Last(batches);
    IdBatch(cancelable, StateAfter(cancelable, Init(batches), c), last.commands, c, last.anchor).reported
  }

  /** A run of the collector itself: its active collectors before and after each batch, and what each reported. */
  ghost predicate IsRun(cancelable: bool, batches: seq<Batch>, states: seq<map<CollectId, ActiveCollector>>,
                        groups: seq<seq<Group>>)
  {
    && |states| == |batches| + 1 && |groups| == |batches| && states[0] == map[]
    && forall k :: 0 <= k < |batches| ==>
         BatchDone(cancelable, states[k], batches[k].commands, batches[k].anchor, states[k + 1], groups[k])
  }

  function ReportsOf(groups: seq<seq<Group>>): seq<seq<SpanRecord>> {
    seq(|groups|, k requires 0 <= k < |groups| => AllRecords(groups[k]))
  }

  lemma {:induction false} RunGrows(cancelable: bool, batches: seq<Batch>, states: seq<map<CollectId, ActiveCollector>>,
                                    groups: seq<seq<Group>>, batch: Batch, after: map<CollectId, ActiveCollector>,
                                    reported: seq<Group>)
    requires IsRun(cancelable, batches, states, groups)
    requires BatchDone(cancelable, Last(states), batch.commands, batch.anchor, after, reported)
    ensures IsRun(cancelable, batches + [batch], states + [after], groups + [reported])
  {
    hide BatchDone;
    var all := batches + [batch];
    forall k | 0 <= k < |all|
      ensures BatchDone(cancelable, (states + [after])[k], all[k].commands, all[k].anchor, (states + [after])[k + 1],
                        (groups + [reported])[k])
    {
      if k < |batches| {
        assert BatchDone(cancelable, states[k], batches[k].commands, batches[k].anchor, states[k + 1], groups[k]);
      }
    }
  }

  /** What the collector keeps and reports for an id is a function of the batches alone. */
  lemma {:induction false} RunPerId(cancelable: bool, batches: seq<Batch>, states: seq<map<CollectId, ActiveCollector>>,
                                    groups: seq<seq<Group>>, k: nat, c: CollectId)
    requires IsRun(cancelable, batches, states, groups) && k <= |batches|
    ensures Lookup(states[k], c) == StateAfter(cancelable, batches[..k], c)
    ensures k < |batches| ==> GroupsFor(groups[k], c) == ReportedLast(cancelable, batches[..k + 1], c)
  {
    hide IdBatch, GroupsFor;
    if k > 0 {
      RunPerId(cancelable, batches, states, groups, k - 1, c);
      assert Init(batches[..k]) == batches[..k - 1];
      assert BatchDone(cancelable, states[k - 1], batches[k - 1].commands, batches[k - 1].anchor, states[k],
             groups[k - 1]);
      assert IdDone(cancelable, states[k - 1], batches[k - 1].commands, batches[k - 1].anchor, states[k],
             groups[k - 1], c);
    }
    if k < |batches| {
      assert Init(batches[..k + 1]) == batches[..k];
      assert BatchDone(cancelable, states[k], batches[k].commands, batches[k].anchor, states[k + 1], groups[k]);
      assert IdDone(cancelable, states[k], batches[k].commands, batches[k].anchor, states[k + 1], groups[k], c);
    }
  }

  // Identity of a record, and the expansion of a submit read off the raw spans

  datatype Key = Key(traceId: TraceId, spanId: SpanId, parentId: SpanId)

  function KeyOf(r: SpanRecord): Key {
    Key(r.traceId, r.spanId, r.parentId)
  }

  function Keys(records: seq<SpanRecord>): seq<Key> {
    seq(|records|, i requires 0 <= i < |records| => KeyOf(records[i]))
  }

  function LocalKeys(spans: seq<RawSpan>, traceId: TraceId, parentId: SpanId): seq<Key> {
    if spans == [] then []
    else
      var span := Last(spans);
      LocalKeys(Init(spans), traceId, parentId) +
      if span.kind.SpanKind?
      then [Key(traceId, span.id, if span.parentId == NO_ID then parentId else span.parentId)] else []
  }

  function SetKeys(spans: SpanSet, traceId: TraceId, parentId: SpanId): seq<Key> {
    match spans
    case Single(span) => if span.kind.SpanKind? then [Key(traceId, span.id, parentId)] else []
    case Local(local) => LocalKeys(local.spans, traceId, parentId)
    case SharedLocal(local) => LocalKeys(local.spans, traceId, parentId)
  }

  /** One record for each raw span and each token item that names collect id `c`. */
  function ItemKeys(spans: SpanSet, items: seq<TokenItem>, c: CollectId): seq<Key> {
    if items == [] then []
    else
      ItemKeys(spans, Init(items), c) +
      if Last(items).collectId == c then SetKeys(spans, Last(items).traceId, Last(items).parentId) else []
  }

  function SubmittedKeys(commands: seq<Command>, c: CollectId): seq<Key> {
    if commands == [] then []
    else
      SubmittedKeys(Init(commands), c) +
      match Last(commands)
      case SubmitSpans(spans, token) => ItemKeys(spans, token, c)
      case _ => []
  }

  lemma {:induction false} KeysConcat(a: seq<SpanRecord>, b: seq<SpanRecord>)
    ensures Keys(a + b) == Keys(a) + Keys(b)
  {
  }

  lemma {:induction false} MountKeepsKeys(records: seq<SpanRecord>, danglings: Danglings)
    ensures Keys(Mount(records, danglings)) == Keys(records)
  {
  }

  lemma {:induction false} LocalEntriesKeys(local: LocalSpans, n: nat, traceId: TraceId, parentId: SpanId,
                                            anchor: Anchor)
    requires n <= |local.spans|
    ensures Keys(RecordsOf(LocalEntries(local, traceId, parentId, anchor)[..n]))
            == LocalKeys(local.spans[..n], traceId, parentId)
  {
    var entries := LocalEntries(local, traceId, parentId, anchor);
    if n > 0 {
      assert Init(entries[..n]) == entries[..n - 1] && Init(local.spans[..n]) == local.spans[..n - 1];
      LocalEntriesKeys(local, n - 1, traceId, parentId, anchor);
    }
  }

  lemma {:induction false} ExpandKeys(c: SpanCollection, anchor: Anchor)
    ensures Keys(RecordsOf(Expand(c, anchor))) == SetKeys(c.spans, c.traceId, c.parentId)
  {
    match c.spans
    case Single(span) =>
      assert Init(Expand(c, anchor)) == [];
    case Local(local) =>
      LocalEntriesKeys(local, |local.spans|, c.traceId, c.parentId, anchor);
      assert local.spans[..|local.spans|] == local.spans;
      assert Expand(c, anchor)[..|local.spans|] == Expand(c, anchor);
    case SharedLocal(local) =>
      LocalEntriesKeys(local, |local.spans|, c.traceId, c.parentId, anchor);
      assert local.spans[..|local.spans|] == local.spans;
      assert Expand(c, anchor)[..|local.spans|] == Expand(c, anchor);
  }

  function CollectionKeys(cs: seq<SpanCollection>): seq<Key> {
    if cs == [] then []
    else CollectionKeys(Init(cs)) + SetKeys(Last(cs).spans, Last(cs).traceId, Last(cs).parentId)
  }

  lemma {:induction false} ExpandAllKeys(cs: seq<SpanCollection>, anchor: Anchor)
    ensures Keys(RecordsOf(ExpandAll(cs, anchor))) == CollectionKeys(cs)
  {
    hide Expand, SetKeys, Keys;
    if cs == [] {
      assert Keys([]) == [] by { KeysOfNothing(); }
    } else {
      ExpandAllKeys(Init(cs), anchor);
      ExpandKeys(Last(cs), anchor);
      RecordsOfConcat(ExpandAll(Init(cs), anchor), Expand(Last(cs), anchor));
      KeysConcat(RecordsOf(ExpandAll(Init(cs), anchor)), RecordsOf(Expand(Last(cs), anchor)));
    }
  }

  lemma {:induction false} KeysOfNothing()
    ensures Keys([]) == []
  {
  }

  lemma {:induction false} CollectionKeysConcat(a: seq<SpanCollection>, b: seq<SpanCollection>)
    ensures CollectionKeys(a + b) == CollectionKeys(a) + CollectionKeys(b)
  {
    hide SetKeys;
    if b == [] {
      assert a + b == a;
    } else {
      InitOfConcat(a, b);
      CollectionKeysConcat(a, Init(b));
    }
  }

  lemma {:induction false} RoutedItemsKeys(spans: SpanSet, single: bool, items: seq<TokenItem>, c: CollectId)
    ensures CollectionKeys(RoutedItems(spans, single, items, c)) == ItemKeys(spans, items, c)
  {
    hide SetKeys;
    if items != [] {
      RoutedItemsKeys(spans, single, Init(items), c);
      if Last(items).collectId == c {
        var collection := CollectionFor(spans, single, Last(items));
        assert Init([collection]) == [];
        CollectionKeysConcat(RoutedItems(spans, single, Init(items), c), [collection]);
      } else {
        assert RoutedItems(spans, single, items, c) == RoutedItems(spans, single, Init(items), c);
      }
    }
  }

  lemma {:induction false} RoutedKeys(commands: seq<Command>, c: CollectId)
    ensures CollectionKeys(Routed(commands, c)) == SubmittedKeys(commands, c)
  {
    hide SetKeys, RoutedItems, ItemKeys;
    if commands != [] {
      RoutedKeys(Init(commands), c);
      match Last(commands)
      case SubmitSpans(spans, token) =>
        RoutedItemsKeys(spans, |token| == 1, token, c);
        CollectionKeysConcat(Routed(Init(commands), c), RoutedItems(spans, |token| == 1, token, c));
      case _ =>
        assert Routed(commands, c) == Routed(Init(commands), c);
    }
  }

  /** A post-processing call yields exactly one record for each expanded span, whatever waits for it. */
  lemma {:induction false} PostprocessedKeys(cs: seq<SpanCollection>, danglings: Danglings, anchor: Anchor)
    ensures Keys(Postprocessed(cs, danglings, anchor)) == CollectionKeys(cs)
  {
    var entries := ExpandAll(cs, anchor);
    MountKeepsKeys(RecordsOf(entries), Absorb(danglings, entries));
    ExpandAllKeys(cs, anchor);
  }

  // Not cancelable: conservation

  lemma {:induction false} SinglesKeys(cs: seq<SpanCollection>, n: nat, anchor: Anchor)
    requires n <= |cs|
    ensures Keys(Flatten(Singles(cs, anchor)[..n])) == CollectionKeys(cs[..n])
  {
    hide Postprocessed, SetKeys, Keys;
    var groups := Singles(cs, anchor);
    if n == 0 {
      KeysOfNothing();
    } else {
      SinglesKeys(cs, n - 1, anchor);
      assert Init(groups[..n]) == groups[..n - 1] && Init(cs[..n]) == cs[..n - 1];
      PostprocessedKeys([cs[n - 1]], map[], anchor);
      assert Init([cs[n - 1]]) == [];
      KeysConcat(Flatten(groups[..n - 1]), groups[n - 1]);
    }
  }

  /** Between batches no active collector holds spans. */
  lemma {:induction false} NothingHeld(batches: seq<Batch>, c: CollectId)
    ensures StateAfter(false, batches, c).Some? ==> StateAfter(false, batches, c).value.spanCollections == []
  {
    hide Routed, Leftover, Postprocessed, Singles;
  }

  /** Each batch reports, for each collect id, exactly what was submitted for it in that batch, in order. */
  lemma {:induction false} BatchReportsSubmitted(batches: seq<Batch>, c: CollectId)
    requires batches != []
    ensures Keys(Flatten(ReportedLast(false, batches, c))) == SubmittedKeys(Last(batches).commands, c)
  {
    hide Postprocessed, Routed, Keys, CollectionKeys, Singles, Leftover, StateAfter;
    var batch, before := Last(batches), StateAfter(false, Init(batches), c);
    var routed := Routed(batch.commands, c);
    RoutedKeys(batch.commands, c);
    match Opened(before, batch.commands, c)
    case None =>
      SinglesKeys(routed, |routed|, batch.anchor);
      var singles := Singles(routed, batch.anchor);
      SinglesLength(routed, batch.anchor);
      assert singles[..|routed|] == singles && routed[..|routed|] == routed;
    case Some(a) =>
      NothingHeld(Init(batches), c);
      assert a.spanCollections == [];
      assert a.spanCollections + routed == routed;
      PostprocessedKeys(routed, a.danglings, batch.anchor);
      var group := Postprocessed(routed, a.danglings, batch.anchor);
      FlatOne(group);
  }

  lemma {:induction false} FlatOne(group: seq<SpanRecord>)
    ensures Flatten([group]) == group
  {
    assert Init([group]) == [] && Flatten<SpanRecord>([]) == [];
  }

  lemma {:induction false} SinglesLength(cs: seq<SpanCollection>, anchor: Anchor)
    ensures |Singles(cs, anchor)| == |cs|
  {
  }

  // Totals over all collect ids

  function LabelledKeys(groups: seq<Group>): seq<(CollectId, Key)> {
    if groups == [] then []
    else LabelledKeys(Init(groups)) + Label(Last(groups).collectId, Keys(Last(groups).records))
  }

  function Label<T>(c: CollectId, keys: seq<T>): seq<(CollectId, T)> {
    seq(|keys|, i requires 0 <= i < |keys| => (c, keys[i]))
  }

  function LabelledItems(spans: SpanSet, items: seq<TokenItem>): seq<(CollectId, Key)> {
    if items == [] then []
    else
      LabelledItems(spans, Init(items)) +
      Label(Last(items).collectId, SetKeys(spans, Last(items).traceId, Last(items).parentId))
  }

  /** Every submitted span once for each item of its token. */
  function LabelledSubmits(commands: seq<Command>): seq<(CollectId, Key)> {
    if commands == [] then []
    else
      LabelledSubmits(Init(commands)) +
      match Last(commands)
      case SubmitSpans(spans, token) => LabelledItems(spans, token)
      case _ => []
  }

  /** The second components of the pairs labelled `c`. */
  function Project<T>(pairs: seq<(CollectId, T)>, c: CollectId): seq<T> {
    if pairs == [] then []
    else Project(Init(pairs), c) + if Last(pairs).0 == c then [Last(pairs).1] else []
  }

  lemma {:induction false} ProjectConcat<T>(a: seq<(CollectId, T)>, b: seq<(CollectId, T)>, c: CollectId)
    ensures Project(a + b, c) == Project(a, c) + Project(b, c)
  {
    if b == [] {
      assert a + b == a;
    } else {
      InitOfConcat(a, b);
      ProjectConcat(a, Init(b), c);
    }
  }

  lemma {:induction false} ProjectLabel<T>(owner: CollectId, keys: seq<T>, c: CollectId)
    ensures Project(Label(owner, keys), c) == if owner == c then keys else []
  {
    if keys != [] {
      assert Init(Label(owner, keys)) == Label(owner, Init(keys));
      ProjectLabel(owner, Init(keys), c);
    }
  }

  lemma {:induction false} ProjectGroups(groups: seq<Group>, c: CollectId)
    ensures Project(LabelledKeys(groups), c) == Keys(Flatten(GroupsFor(groups, c)))
  {
    hide Keys, Label;
    if groups == [] {
      KeysOfNothing();
    } else {
      var last := Last(groups);
      ProjectGroups(Init(groups), c);
      ProjectLabel(last.collectId, Keys(last.records), c);
      ProjectConcat(LabelledKeys(Init(groups)), Label(last.collectId, Keys(last.records)), c);
      if last.collectId == c {
        var before := GroupsFor(Init(groups), c);
        assert Init(before + [last.records]) == before;
        assert Flatten(before + [last.records]) == Flatten(before) + last.records;
        KeysConcat(Flatten(before), last.records);
      } else {
        assert GroupsFor(groups, c) == GroupsFor(Init(groups), c);
      }
    }
  }

  lemma {:induction false} ProjectItems(spans: SpanSet, items: seq<TokenItem>, c: CollectId)
    ensures Project(LabelledItems(spans, items), c) == ItemKeys(spans, items, c)
  {
    hide SetKeys, Label;
    if items != [] {
      var last := Last(items);
      ProjectItems(spans, Init(items), c);
      ProjectLabel(last.collectId, SetKeys(spans, last.traceId, last.parentId), c);
      ProjectConcat(LabelledItems(spans, Init(items)),
        Label(last.collectId, SetKeys(spans, last.traceId, last.parentId)), c);
    }
  }

  lemma {:induction false} ProjectSubmits(commands: seq<Command>, c: CollectId)
    ensures Project(LabelledSubmits(commands), c) == SubmittedKeys(commands, c)
  {
    hide LabelledItems, ItemKeys;
    if commands != [] {
      ProjectSubmits(Init(commands), c);
      match Last(commands)
      case SubmitSpans(spans, token) =>
        ProjectItems(spans, token, c);
        ProjectConcat(LabelledSubmits(Init(commands)), LabelledItems(spans, token), c);
      case _ =>
        assert LabelledSubmits(commands) == LabelledSubmits(Init(commands));
    }
  }

  lemma {:induction false} CountByProjection<T>(pairs: seq<(CollectId, T)>, c: CollectId, key: T)
    ensures multiset(pairs)[(c, key)] == multiset(Project(pairs, c))[key]
  {
    if pairs != [] {
      assert pairs == Init(pairs) + [Last(pairs)];
      CountByProjection(Init(pairs), c, key);
    }
  }

  /** Two labelled lists with the same projections hold the same pairs equally often. */
  lemma {:induction false} SameProjections<T(!new)>(a: seq<(CollectId, T)>, b: seq<(CollectId, T)>)
    requires forall c :: Project(a, c) == Project(b, c)
    ensures multiset(a) == multiset(b)
  {
    forall pair: (CollectId, T) ensures multiset(a)[pair] == multiset(b)[pair] {
      CountByProjection(a, pair.0, pair.1);
      CountByProjection(b, pair.0, pair.1);
    }
  }

  function Reported(groups: seq<seq<Group>>): seq<(CollectId, Key)> {
    if groups == [] then [] else Reported(Init(groups)) + LabelledKeys(Last(groups))
  }

  function Submitted(batches: seq<Batch>): seq<(CollectId, Key)> {
    if batches == [] then [] else Submitted(Init(batches)) + LabelledSubmits(Last(batches).commands)
  }

  /** With `cancelable` off, over any run, the records reported for all ids together are exactly the expansions
      of all drained submits by their token items, counted with multiplicity: starts, drops and commits,
      in whatever order they arrive, neither lose nor duplicate a span. */
  lemma {:induction false} Conservation(batches: seq<Batch>, states: seq<map<CollectId, ActiveCollector>>,
                                        groups: seq<seq<Group>>)
    requires IsRun(false, batches, states, groups)
    ensures multiset(Reported(groups)) == multiset(Submitted(batches))
  {
    hide LabelledKeys, LabelledSubmits, ReportedLast, Project, Keys, Flatten, GroupsFor, SubmittedKeys, BatchDone;
    if batches != [] {
      var k := |batches| - 1;
      assert IsRun(false, Init(batches), Init(states), Init(groups));
      Conservation(Init(batches), Init(states), Init(groups));
      forall c ensures Project(LabelledKeys(groups[k]), c) == Project(LabelledSubmits(batches[k].commands), c) {
        RunPerId(false, batches, states, groups, k, c);
        assert batches[..k + 1] == batches;
        BatchReportsSubmitted(batches, c);
        ProjectGroups(groups[k], c);
        ProjectSubmits(batches[k].commands, c);
      }
      SameProjections(LabelledKeys(groups[k]), LabelledSubmits(batches[k].commands));
    }
  }

  /** The labels only name what the reporter received: dropping them gives the keys of the reported batch. */
  lemma {:induction false} LabelsNameReport(groups: seq<Group>)
    ensures |LabelledKeys(groups)| == |AllRecords(groups)|
    ensures forall i :: 0 <= i < |AllRecords(groups)| ==> LabelledKeys(groups)[i].1 == KeyOf(AllRecords(groups)[i])
  {
    if groups != [] {
      var before, last := Init(groups), Last(groups);
      LabelsNameReport(before);
      var labels, records := Label(last.collectId, Keys(last.records)), last.records;
      assert |labels| == |records| && forall i :: 0 <= i < |records| ==> labels[i].1 == KeyOf(records[i]);
      assert LabelledKeys(groups) == LabelledKeys(before) + labels;
      assert AllRecords(groups) == AllRecords(before) + records;
      forall i | 0 <= i < |AllRecords(groups)| ensures LabelledKeys(groups)[i].1 == KeyOf(AllRecords(groups)[i]) {
        if i >= |AllRecords(before)| {
          assert labels[i - |AllRecords(before)|].1 == KeyOf(records[i - |AllRecords(before)|]);
        }
      }
    }
  }

  // Cancelable: all at once, and cancel wins

  function RoutedOver(batches: seq<Batch>, c: CollectId): seq<SpanCollection> {
    if batches == [] then [] else RoutedOver(Init(batches), c) + Routed(Last(batches).commands, c)
  }

  ghost predicate StartedOnlyIn(batches: seq<Batch>, c: CollectId, s: nat) {
    forall k :: 0 <= k < |batches| && k != s ==> c !in StartIds(batches[k].commands)
  }

  /** Started in batch `s` and neither committed nor dropped up to the end of the run. */
  ghost predicate StillOpen(batches: seq<Batch>, c: CollectId, s: nat) {
    && s < |batches| && c in StartIds(batches[s].commands)
    && forall j :: s <= j < |batches| ==> c !in CommitIds(batches[j].commands) && c !in DropIds(batches[j].commands)
  }

  /** The last batch is the first to commit `c` after its start, and nothing has dropped it. */
  ghost predicate CommitsNow(batches: seq<Batch>, c: CollectId, s: nat) {
    && s < |batches| && c in StartIds(batches[s].commands)
    && c in CommitIds(Last(batches).commands)
    && (forall j :: s <= j < |batches| - 1 ==> c !in CommitIds(batches[j].commands))
    && (forall j :: s <= j < |batches| ==> c !in DropIds(batches[j].commands))
  }

  /** Batch `k` of the run commits `c`. */
  ghost predicate CommitBatch(batches: seq<Batch>, c: CollectId, s: nat, k: nat)
    requires k < |batches|
  {
    CommitsNow(batches[..k + 1], c, s)
  }

  lemma {:induction false} OpenFromOpen(batches: seq<Batch>, c: CollectId, s: nat)
    requires batches != [] && s < |batches| - 1
    ensures StillOpen(batches, c, s)
            <==> StillOpen(Init(batches), c, s) && c !in CommitIds(Last(batches).commands)
                 && c !in DropIds(Last(batches).commands)
  {
    hide StartIds, DropIds, CommitIds;
    var before := Init(batches);
    if StillOpen(batches, c, s) {
      assert batches[|batches| - 1] == Last(batches);
      forall j | s <= j < |before| ensures c !in CommitIds(before[j].commands) && c !in DropIds(before[j].commands) {
        assert before[j] == batches[j];
      }
    }
    if StillOpen(before, c, s) && c !in CommitIds(Last(batches).commands) && c !in DropIds(Last(batches).commands) {
      forall j | s <= j < |batches| ensures c !in CommitIds(batches[j].commands) && c !in DropIds(batches[j].commands) {
        assert j < |before| ==> before[j] == batches[j];
      }
    }
  }

  lemma {:induction false} CancelableState(batches: seq<Batch>, c: CollectId, s: nat)
    requires StartedOnlyIn(batches, c, s)
    ensures StateAfter(true, batches, c) ==
            if StillOpen(batches, c, s) then Some(ActiveCollector(RoutedOver(batches[s..], c), map[])) else None
  {
    hide Routed, StartIds, DropIds, CommitIds;
    if batches != [] {
      var before := Init(batches);
      assert StartedOnlyIn(before, c, s);
      CancelableState(before, c, s);
      if s < |before| {
        assert Init(batches[s..]) == before[s..] && Last(batches[s..]) == Last(batches);
        OpenFromOpen(batches, c, s);
      } else if s == |before| {
        assert Init(batches[s..]) == [] && batches[s] == Last(batches);
        var routed := Routed(Last(batches).commands, c);
        assert [] + routed == routed;
      }
    }
  }

  /** A later batch commits exactly what the batches before it left open. */
  lemma {:induction false} NowFromOpen(batches: seq<Batch>, c: CollectId, s: nat)
    requires batches != [] && s < |batches| - 1
    ensures CommitsNow(batches, c, s)
            <==> StillOpen(Init(batches), c, s) && c in CommitIds(Last(batches).commands)
                 && c !in DropIds(Last(batches).commands)
  {
    hide StartIds, DropIds, CommitIds;
    var before, last := Init(batches), |batches| - 1;
    assert batches[last] == Last(batches) && before[s] == batches[s];
    if StillOpen(before, c, s) && c in CommitIds(Last(batches).commands) && c !in DropIds(Last(batches).commands) {
      forall j | s <= j < last ensures c !in CommitIds(batches[j].commands) && c !in DropIds(batches[j].commands) {
        assert before[j] == batches[j];
      }
    }
    if CommitsNow(batches, c, s) {
      forall j | s <= j < last ensures c !in CommitIds(before[j].commands) && c !in DropIds(before[j].commands) {
        assert before[j] == batches[j];
      }
    }
  }

  /** With `cancelable` on, a batch reports records of `c` exactly when it is the first to commit `c` at or after
      its start with no drop in between, and then it reports everything routed to `c` since the start batch. */
  lemma {:induction false} AllAtOnce(batches: seq<Batch>, c: CollectId, s: nat)
    requires batches != [] && StartedOnlyIn(batches, c, s)
    ensures ReportedLast(true, batches, c) ==
            if CommitsNow(batches, c, s)
            then [Postprocessed(RoutedOver(batches[s..], c), map[], Last(batches).anchor)] else []
  {
    hide Routed, StartIds, DropIds, CommitIds, Postprocessed, StateAfter;
    var before := Init(batches);
    assert StartedOnlyIn(before, c, s);
    CancelableState(before, c, s);
    if s < |before| {
      assert Init(batches[s..]) == before[s..] && Last(batches[s..]) == Last(batches);
      NowFromOpen(batches, c, s);
    } else if s == |before| {
      assert Init(batches[s..]) == [] && batches[s] == Last(batches);
      var routed := Routed(Last(batches).commands, c);
      assert [] + routed == routed;
    }
  }

  function Concat(batches: seq<Batch>): seq<Command> {
    if batches == [] then [] else Concat(Init(batches)) + Last(batches).commands
  }

  lemma {:induction false} SubmittedKeysConcat(a: seq<Command>, b: seq<Command>, c: CollectId)
    ensures SubmittedKeys(a + b, c) == SubmittedKeys(a, c) + SubmittedKeys(b, c)
  {
    hide ItemKeys;
    if b == [] {
      assert a + b == a;
    } else {
      InitOfConcat(a, b);
      SubmittedKeysConcat(a, Init(b), c);
    }
  }

  lemma {:induction false} RoutedOverKeys(batches: seq<Batch>, c: CollectId)
    ensures CollectionKeys(RoutedOver(batches, c)) == SubmittedKeys(Concat(batches), c)
  {
    hide Routed;
    if batches != [] {
      RoutedOverKeys(Init(batches), c);
      RoutedKeys(Last(batches).commands, c);
      CollectionKeysConcat(RoutedOver(Init(batches), c), Routed(Last(batches).commands, c));
      SubmittedKeysConcat(Concat(Init(batches)), Last(batches).commands, c);
    }
  }

  /** The records of `c` appear in at most one report of the whole run, and that report holds exactly the spans
      submitted for `c` from the start batch through the commit batch, also those drained after the commit. */
  lemma {:induction false} ReportedOnce(batches: seq<Batch>, states: seq<map<CollectId, ActiveCollector>>,
                                        groups: seq<seq<Group>>, c: CollectId, s: nat)
    requires IsRun(true, batches, states, groups) && StartedOnlyIn(batches, c, s)
    ensures forall k :: 0 <= k < |batches| && CommitBatch(batches, c, s, k) ==>
              |GroupsFor(groups[k], c)| == 1 &&
              Keys(GroupsFor(groups[k], c)[0]) == SubmittedKeys(Concat(batches[s..k + 1]), c)
    ensures forall k :: 0 <= k < |batches| && !CommitBatch(batches, c, s, k) ==> GroupsFor(groups[k], c) == []
    ensures forall j, k :: 0 <= j < k < |batches| && CommitBatch(batches, c, s, j) ==> !CommitBatch(batches, c, s, k)
  {
    hide IsRun, Keys, Postprocessed, GroupsFor, ReportedLast, SubmittedKeys;
    RunLengths(true, batches, states, groups);
    forall k | 0 <= k < |batches|
      ensures CommitBatch(batches, c, s, k) ==>
                |GroupsFor(groups[k], c)| == 1 &&
                Keys(GroupsFor(groups[k], c)[0]) == SubmittedKeys(Concat(batches[s..k + 1]), c)
      ensures !CommitBatch(batches, c, s, k) ==> GroupsFor(groups[k], c) == []
    {
      var now := batches[..k + 1];
      RunPerId(true, batches, states, groups, k, c);
      assert StartedOnlyIn(now, c, s);
      AllAtOnce(now, c, s);
      if CommitsNow(now, c, s) {
        assert now[s..] == batches[s..k + 1];
        PostprocessedKeys(RoutedOver(now[s..], c), map[], Last(now).anchor);
        RoutedOverKeys(now[s..], c);
      }
    }
    forall j, k | 0 <= j < k < |batches| && CommitBatch(batches, c, s, j) ensures !CommitBatch(batches, c, s, k) {
      assert Last(batches[..j + 1]) == batches[j] == batches[..k + 1][j];
    }
  }

  lemma {:induction false} RunLengths(cancelable: bool, batches: seq<Batch>, 
                                      states: seq<map<CollectId, ActiveCollector>>, groups: seq<seq<Group>>)
    requires IsRun(cancelable, batches, states, groups)
    ensures |groups| == |batches| == |states| - 1
  {
  }

  /** Once a drop of `c` is drained in or after its start batch, with no earlier batch having committed it, no record
      of `c` is ever reported, even if the commit shares the batch and stands before the drop in it. */
  lemma {:induction false} DropWins(batches: seq<Batch>, states: seq<map<CollectId, ActiveCollector>>,
                                    groups: seq<seq<Group>>,
                 c: CollectId, s: nat, d: nat)
    requires IsRun(true, batches, states, groups) && StartedOnlyIn(batches, c, s)
    requires s <= d < |batches| && c in DropIds(batches[d].commands)
    requires forall j :: s <= j < d ==> c !in CommitIds(batches[j].commands)
    ensures forall k :: 0 <= k < |batches| ==> GroupsFor(groups[k], c) == []
  {
    hide IsRun, Keys, GroupsFor, SubmittedKeys, CommitIds, DropIds, StartIds;
    RunLengths(true, batches, states, groups);
    ReportedOnce(batches, states, groups, c, s);
    forall k | 0 <= k < |batches| ensures !CommitBatch(batches, c, s, k) {
      var now := batches[..k + 1];
      if k < d {
        assert Last(now) == batches[k];
      } else {
        assert now[d] == batches[d];
      }
    }
  }

  // A cancelled root on one channel

  /** One batch as seen from a channel: what it drained from the other channels before and after this one. */
  datatype Drain = Drain(before: seq<Command>, mine: seq<Command>, after: seq<Command>, anchor: Anchor)

  function ToBatches(drains: seq<Drain>): seq<Batch> {
    seq(|drains|, i requires 0 <= i < |drains| =>
      Batch(drains[i].before + drains[i].mine + drains[i].after, drains[i].anchor))
  }

  function Mine(drains: seq<Drain>): seq<Command> {
    if drains == [] then [] else Mine(Init(drains)) + Last(drains).mine
  }

  lemma {:induction false} CommandKinds(commands: seq<Command>, c: CollectId)
    ensures c in StartIds(commands) <==> StartCollect(c) in commands
    ensures c in DropIds(commands) <==> DropCollect(c) in commands
    ensures c in CommitIds(commands) <==> CommitCollect(c) in commands
  {
    if commands != [] {
      CommandKinds(Init(commands), c);
      assert commands == Init(commands) + [Last(commands)];
    }
  }

  /** The batches cut the channel into consecutive pieces. */
  lemma {:induction false} PieceOf(drains: seq<Drain>, k: nat)
    requires k < |drains|
    ensures |Mine(drains[..k])| + |drains[k].mine| == |Mine(drains[..k + 1])| <= |Mine(drains)|
    ensures Mine(drains)[|Mine(drains[..k])|..|Mine(drains[..k + 1])|] == drains[k].mine
    decreases |drains|
  {
    assert Init(drains[..k + 1]) == drains[..k];
    if k == |drains| - 1 {
      assert drains[..k] == Init(drains) && drains[..k + 1] == drains;
    } else {
      PieceOf(Init(drains), k);
      assert Init(drains)[..k] == drains[..k] && Init(drains)[..k + 1] == drains[..k + 1];
    }
  }

  lemma {:induction false} PiecesInOrder(drains: seq<Drain>, j: nat, k: nat)
    requires j <= k <= |drains|
    ensures |Mine(drains[..j])| <= |Mine(drains[..k])|
  {
    if j < k {
      assert Init(drains[..k]) == drains[..k - 1];
      PiecesInOrder(drains, j, k - 1);
    }
  }

  /** The batch that drains position `p` of the channel. */
  lemma {:induction false} BatchOf(drains: seq<Drain>, p: nat) returns (k: nat)
    requires p < |Mine(drains)|
    ensures k < |drains| && |Mine(drains[..k])| <= p < |Mine(drains[..k + 1])|
    ensures Mine(drains)[p] in drains[k].mine
    decreases |drains|
  {
    if p < |Mine(Init(drains))| {
      k := BatchOf(Init(drains), p);
      assert Init(drains)[..k] == drains[..k] && Init(drains)[..k + 1] == drains[..k + 1];
    } else {
      k := |drains| - 1;
      assert drains[..k] == Init(drains) && drains[..k + 1] == drains;
    }
  }

  /** The channel of a thread that starts `c`, then cancels it, and commits it only later. No other channel starts
      or commits the same id. */
  ghost predicate CancelsOnOneChannel(drains: seq<Drain>, c: CollectId, first: seq<Command>, middle: seq<Command>,
                                      rest: seq<Command>)
  {
    && Mine(drains) == first + [StartCollect(c)] + middle + [DropCollect(c)] + rest
    && StartCollect(c) !in first + middle + rest && CommitCollect(c) !in first + middle
    && forall d <- drains :: StartCollect(c) !in d.before + d.after && CommitCollect(c) !in d.before + d.after
  }

  /** A command that the channel carries once, and no other channel at all, is drained by one batch only. */
  lemma {:induction false} OnlyBatch(drains: seq<Drain>, command: Command, first: seq<Command>, later: seq<Command>,
                                     b: nat, k: nat)
    requires Mine(drains) == first + [command] + later && command !in first + later
    requires forall d <- drains :: command !in d.before + d.after
    requires b < |drains| && |Mine(drains[..b])| <= |first| < |Mine(drains[..b + 1])|
    requires k < |drains| && k != b
    ensures command !in ToBatches(drains)[k].commands
  {
    hide Mine;
    if command in ToBatches(drains)[k].commands {
      var p := PositionOf(drains, k, command);
      OnlyPosition(Mine(drains), p, command, first, later);
      if k < b {
        PiecesInOrder(drains, k + 1, b);
      } else {
        PiecesInOrder(drains, b + 1, k);
      }
    }
  }

  lemma {:induction false} NoCommitBeforeCancel(drains: seq<Drain>, c: CollectId, first: seq<Command>,
                                                middle: seq<Command>, rest: seq<Command>, d: nat, k: nat)
    requires CancelsOnOneChannel(drains, c, first, middle, rest)
    requires d < |drains| && |Mine(drains[..d])| <= |first| + 1 + |middle|
    requires k < d
    ensures c !in CommitIds(ToBatches(drains)[k].commands)
  {
    hide StartIds, DropIds, CommitIds, Mine;
    var early := first + [StartCollect(c)] + middle;
    assert forall q :: 0 <= q < |early| ==> Mine(drains)[q] == early[q] && early[q] != CommitCollect(c);
    CommandKinds(ToBatches(drains)[k].commands, c);
    if CommitCollect(c) in ToBatches(drains)[k].commands {
      var p := PositionOf(drains, k, CommitCollect(c));
      PiecesInOrder(drains, k + 1, d);
    }
  }

  /** A trace whose root is cancelled before it is dropped is never reported, for every way of cutting the channel of
      its thread into batches. */
  lemma {:induction false} CancelledNeverReported(drains: seq<Drain>, states: seq<map<CollectId, ActiveCollector>>,
                                                  groups: seq<seq<Group>>, c: CollectId, first: seq<Command>,
                                                  middle: seq<Command>, rest: seq<Command>)
    requires IsRun(true, ToBatches(drains), states, groups)
    requires CancelsOnOneChannel(drains, c, first, middle, rest)
    ensures |groups| == |drains|
    ensures forall k :: 0 <= k < |drains| ==> GroupsFor(groups[k], c) == []
  {
    hide IsRun, GroupsFor, StartIds, DropIds, CommitIds, Mine;
    var channel, batches := Mine(drains), ToBatches(drains);
    RunLengths(true, batches, states, groups);
    var startAt, dropAt := |first|, |first| + 1 + |middle|;
    assert channel[startAt] == StartCollect(c) && channel[dropAt] == DropCollect(c);
    var s := BatchOf(drains, startAt);
    var d := BatchOf(drains, dropAt);
    if d < s {
      PiecesInOrder(drains, d + 1, s);
    }
    var later := middle + [DropCollect(c)] + rest;
    assert channel == first + [StartCollect(c)] + later;
    assert StartCollect(c) !in first + later;
    forall k | 0 <= k < |batches| && k != s ensures c !in StartIds(batches[k].commands) {
      OnlyBatch(drains, StartCollect(c), first, later, s, k);
      CommandKinds(batches[k].commands, c);
    }
    forall k | 0 <= k < d ensures c !in CommitIds(batches[k].commands) {
      NoCommitBeforeCancel(drains, c, first, middle, rest, d, k);
    }
    CommandKinds(batches[d].commands, c);
    assert DropCollect(c) in batches[d].commands;
    DropWins(batches, states, groups, c, s, d);
  }

  lemma {:induction false} OnlyPosition(channel: seq<Command>, p: nat, command: Command, first: seq<Command>,
                                        later: seq<Command>)
    requires channel == first + [command] + later && command !in first + later
    requires p < |channel| && channel[p] == command
    ensures p == |first|
  {
    var others := first + later;
    assert forall q :: 0 <= q < |first| ==> others[q] == channel[q];
    assert forall q :: 0 <= q < |later| ==> others[|first| + q] == later[q];
  }

  /** A command that no other channel carries was drained from a position of this channel. */
  lemma {:induction false} PositionOf(drains: seq<Drain>, k: nat, command: Command) returns (p: nat)
    requires k < |drains| && command in ToBatches(drains)[k].commands
    requires command !in drains[k].before + drains[k].after
    ensures |Mine(drains[..k])| <= p < |Mine(drains[..k + 1])| && p < |Mine(drains)| && Mine(drains)[p] == command
  {
    PieceOf(drains, k);
    assert command in drains[k].mine;
    var o :| 0 <= o < |drains[k].mine| && drains[k].mine[o] == command;
    p := |Mine(drains[..k])| + o;
    assert Mine(drains)[|Mine(drains[..k])|..|Mine(drains[..k + 1])|][o] == command;
  }

  // A committed root on one channel

  /** The channel of a thread that starts `c` and later commits it, and nobody drops it. */
  ghost predicate CommitsOnOneChannel(drains: seq<Drain>, c: CollectId, first: seq<Command>, middle: seq<Command>,
                                      rest: seq<Command>)
  {
    && Mine(drains) == first + [StartCollect(c)] + middle + [CommitCollect(c)] + rest
    && StartCollect(c) !in first + middle + rest && CommitCollect(c) !in first + middle + rest
    && DropCollect(c) !in first + middle + rest
    && forall d <- drains ::
         StartCollect(c) !in d.before + d.after && CommitCollect(c) !in d.before + d.after
           && DropCollect(c) !in d.before + d.after
  }

  lemma {:induction false} MineConcat(a: seq<Drain>, b: seq<Drain>)
    ensures Mine(a + b) == Mine(a) + Mine(b)
  {
    if b == [] {
      assert a + b == a;
    } else {
      InitOfConcat(a, b);
      MineConcat(a, Init(b));
    }
  }

  /** The batches hold at least what the channel contributed to them. */
  lemma {:induction false} MineBelow(drains: seq<Drain>, c: CollectId)
    ensures multiset(SubmittedKeys(Mine(drains), c)) <= multiset(SubmittedKeys(Concat(ToBatches(drains)), c))
  {
    hide SubmittedKeys;
    if drains != [] {
      var before, last := Init(drains), Last(drains);
      MineBelow(before, c);
      assert Init(ToBatches(drains)) == ToBatches(before);
      SubmittedKeysConcat(Mine(before), last.mine, c);
      SubmittedKeysConcat(Concat(ToBatches(before)), last.before + last.mine + last.after, c);
      SubmittedKeysConcat(last.before + last.mine, last.after, c);
      SubmittedKeysConcat(last.before, last.mine, c);
    }
  }

  lemma {:induction false} MiddleBelow(before: seq<Command>, middle: seq<Command>, after: seq<Command>, c: CollectId)
    ensures multiset(SubmittedKeys(middle, c)) <= multiset(SubmittedKeys(before + middle + after, c))
  {
    hide SubmittedKeys;
    SubmittedKeysConcat(before + middle, after, c);
    SubmittedKeysConcat(before, middle, c);
  }

  /** What the channel carries between two of its positions is drained by the batches that drain these positions. */
  lemma {:induction false} BetweenBatches(drains: seq<Drain>, c: CollectId, first: seq<Command>, middle: seq<Command>,
                                          last: seq<Command>, s: nat, k: nat)
    requires Mine(drains) == first + middle + last && s <= k < |drains|
    requires |Mine(drains[..s])| <= |first| && |first| + |middle| <= |Mine(drains[..k + 1])|
    ensures multiset(SubmittedKeys(middle, c)) <= multiset(SubmittedKeys(Concat(ToBatches(drains[s..k + 1])), c))
  {
    hide SubmittedKeys, Mine, Concat;
    var a, b, d := drains[..s], drains[s..k + 1], drains[k + 1..];
    assert drains[..k + 1] == a + b && drains == (a + b) + d;
    MineConcat(a, b);
    MineConcat(a + b, d);
    var before, after := first[|Mine(a)|..], last[..|Mine(a)| + |Mine(b)| - |first| - |middle|];
    assert Mine(b) == Mine(drains)[|Mine(a)|..|Mine(a)| + |Mine(b)|] == before + middle + after;
    MiddleBelow(before, middle, after, c);
    MineBelow(b, c);
  }

  lemma {:induction false} NeverDropped(drains: seq<Drain>, c: CollectId, first: seq<Command>, middle: seq<Command>,
                                        rest: seq<Command>, k: nat)
    requires CommitsOnOneChannel(drains, c, first, middle, rest) && k < |drains|
    ensures c !in DropIds(ToBatches(drains)[k].commands)
  {
    hide Mine, DropIds, StartIds, CommitIds;
    CommandKinds(ToBatches(drains)[k].commands, c);
    assert DropCollect(c) !in first && DropCollect(c) !in middle && DropCollect(c) !in rest by {
      PartsOf(first, middle, rest, DropCollect(c));
    }
    assert DropCollect(c) !in Mine(drains);
    if DropCollect(c) in ToBatches(drains)[k].commands {
      var p := PositionOf(drains, k, DropCollect(c));
      assert false;
    }
  }

  lemma {:induction false} PartsOf(first: seq<Command>, middle: seq<Command>, rest: seq<Command>, command: Command)
    requires command !in first + middle + rest
    ensures command !in first && command !in middle && command !in rest
  {
    var all := first + middle + rest;
    assert forall q :: 0 <= q < |first| ==> all[q] == first[q];
    assert forall q :: 0 <= q < |middle| ==> all[|first| + q] == middle[q];
    assert forall q :: 0 <= q < |rest| ==> all[|first| + |middle| + q] == rest[q];
  }

  /** A trace whose root is committed is reported by exactly one batch, and the report holds at least everything that
      the root's thread submitted for it in between, for every way of cutting the channels into batches. */
  lemma {:induction false} CommittedIsComplete(drains: seq<Drain>, states: seq<map<CollectId, ActiveCollector>>,
                                               groups: seq<seq<Group>>, c: CollectId, first: seq<Command>,
                                               middle: seq<Command>, rest: seq<Command>)
    returns (k: nat)
    requires IsRun(true, ToBatches(drains), states, groups)
    requires CommitsOnOneChannel(drains, c, first, middle, rest)
    ensures k < |groups| == |drains| && |GroupsFor(groups[k], c)| == 1
    ensures multiset(SubmittedKeys(middle, c)) <= multiset(Keys(GroupsFor(groups[k], c)[0]))
    ensures forall j :: 0 <= j < |groups| && j != k ==> GroupsFor(groups[j], c) == []
  {
    hide IsRun, GroupsFor, StartIds, DropIds, CommitIds, Mine, SubmittedKeys, Keys, CommitsOnOneChannel, Concat;
    var batches := ToBatches(drains);
    RunLengths(true, batches, states, groups);
    var s;
    s, k := CommitAfterStart(drains, c, first, middle, rest);
    ReportedOnce(batches, states, groups, c, s);
    assert CommitBatch(batches, c, s, k);
    assert batches[s..k + 1] == ToBatches(drains[s..k + 1]);
    forall j | 0 <= j < |groups| && j != k ensures GroupsFor(groups[j], c) == [] {
      assert !CommitBatch(batches, c, s, j);
    }
  }

  lemma {:induction false} CommitAfterStart(drains: seq<Drain>, c: CollectId, first: seq<Command>, middle: seq<Command>,
                                            rest: seq<Command>)
    returns (s: nat, k: nat)
    requires CommitsOnOneChannel(drains, c, first, middle, rest)
    ensures s <= k < |drains| && StartedOnlyIn(ToBatches(drains), c, s) && CommitBatch(ToBatches(drains), c, s, k)
    ensures multiset(SubmittedKeys(middle, c)) <= multiset(SubmittedKeys(Concat(ToBatches(drains[s..k + 1])), c))
  {
    hide StartIds, DropIds, CommitIds, Mine, SubmittedKeys, Concat;
    var channel, batches := Mine(drains), ToBatches(drains);
    var later, early := middle + [CommitCollect(c)] + rest, first + [StartCollect(c)] + middle;
    assert channel == first + [StartCollect(c)] + later == early + [CommitCollect(c)] + rest;
    assert channel[|first|] == StartCollect(c) && channel[|early|] == CommitCollect(c);
    s := BatchOf(drains, |first|);
    k := BatchOf(drains, |early|);
    if k < s {
      PiecesInOrder(drains, k + 1, s);
    }
    forall j | 0 <= j < |batches|
      ensures j != s ==> c !in StartIds(batches[j].commands)
      ensures j != k ==> c !in CommitIds(batches[j].commands)
      ensures c !in DropIds(batches[j].commands)
    {
      CommandKinds(batches[j].commands, c);
      NeverDropped(drains, c, first, middle, rest, j);
      if j != s { OnlyBatch(drains, StartCollect(c), first, later, s, j); }
      if j != k { OnlyBatch(drains, CommitCollect(c), early, rest, k, j); }
    }
    CommandKinds(batches[s].commands, c);
    CommandKinds(batches[k].commands, c);
    assert StartCollect(c) in batches[s].commands && CommitCollect(c) in batches[k].commands;
    assert channel == (first + [StartCollect(c)]) + middle + ([CommitCollect(c)] + rest);
    BetweenBatches(drains, c, first + [StartCollect(c)], middle, [CommitCollect(c)] + rest, s, k);
  }
}

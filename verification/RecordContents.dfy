/** What the reported records say (fastrace/src/collector/global_collector.rs). Besides its ids, a record carries the
    name of its raw span, the span's own properties before all others, and its begin and end, for all three kinds of
    span sets. The whole-run results about keys hold for this content too. */
module RecordContents {
  import opened Records
  import opened Postprocess
  import opened GlobalCollectors
  import opened CollectorRuns

  /** One raw span as one token item expands it, with the moment it ended. */
  datatype Source = Source(raw: RawSpan, traceId: TraceId, parentId: SpanId, end: Instant)

  /** A local span that was never finished ends with its set; one without a local parent hangs below that of the
      item. */
  function LocalSources(spans: seq<RawSpan>, endTime: Instant, traceId: TraceId, parentId: SpanId): seq<Source> {
    if spans == [] then []
    else
      var raw := Last(spans);
      LocalSources(Init(spans), endTime, traceId, parentId) +
      if raw.kind.SpanKind?
      then [Source(raw, traceId, if raw.parentId == NO_ID then parentId else raw.parentId,
                   if raw.end == ZERO then endTime else raw.end)]
      else []
  }

  /** A span submitted by itself ends when it says. */
  function SetSources(spans: SpanSet, traceId: TraceId, parentId: SpanId): seq<Source> {
    match spans
    case Single(raw) => if raw.kind.SpanKind? then [Source(raw, traceId, parentId, raw.end)] else []
    case Local(local) => LocalSources(local.spans, local.endTime, traceId, parentId)
    case SharedLocal(local) => LocalSources(local.spans, local.endTime, traceId, parentId)
  }

  /** The record of a source: an end before the begin, as clocks may give, counts as no time at all. */
  ghost predicate Carries(r: SpanRecord, s: Source, anchor: Anchor) {
    && r.traceId == s.traceId && r.spanId == s.raw.id && r.parentId == s.parentId && r.name == s.raw.name
    && r.beginTime == anchor(s.raw.begin)
    && (anchor(s.raw.begin) <= anchor(s.end) ==> r.beginTime + r.duration == anchor(s.end))
    && (anchor(s.end) < anchor(s.raw.begin) ==> r.duration == 0)
    && (s.raw.properties.Some? ==> s.raw.properties.value <= r.properties)
  }

  ghost predicate AllCarry(records: seq<SpanRecord>, sources: seq<Source>, anchor: Anchor) {
    |records| == |sources| && forall i :: 0 <= i < |records| ==> Carries(records[i], sources[i], anchor)
  }

  lemma {:induction false} CarryConcat(a: seq<SpanRecord>, b: seq<SpanRecord>, s: seq<Source>, t: seq<Source>,
                                       anchor: Anchor)
    requires AllCarry(a, s, anchor) && AllCarry(b, t, anchor)
    ensures AllCarry(a + b, s + t, anchor)
  {
    hide Carries;
  }

  lemma {:induction false} LocalCarry(local: LocalSpans, n: nat, traceId: TraceId, parentId: SpanId, anchor: Anchor)
    requires n <= |local.spans|
    ensures AllCarry(RecordsOf(LocalEntries(local, traceId, parentId, anchor)[..n]),
                     LocalSources(local.spans[..n], local.endTime, traceId, parentId), anchor)
  {
    var entries := LocalEntries(local, traceId, parentId, anchor);
    if n > 0 {
      LocalCarry(local, n - 1, traceId, parentId, anchor);
      InitOfPrefix(entries, n);
      InitOfPrefix(local.spans, n);
    }
  }

  lemma {:induction false} LocalSetCarry(local: LocalSpans, traceId: TraceId, parentId: SpanId, anchor: Anchor)
    ensures AllCarry(RecordsOf(LocalEntries(local, traceId, parentId, anchor)),
                     LocalSources(local.spans, local.endTime, traceId, parentId), anchor)
  {
    LocalCarry(local, |local.spans|, traceId, parentId, anchor);
    assert local.spans[..|local.spans|] == local.spans;
    var entries := LocalEntries(local, traceId, parentId, anchor);
    assert entries[..|local.spans|] == entries;
  }

  lemma {:induction false} ExpandCarries(c: SpanCollection, anchor: Anchor)
    ensures AllCarry(RecordsOf(Expand(c, anchor)), SetSources(c.spans, c.traceId, c.parentId), anchor)
  {
    match c.spans
    case Single(raw) =>
      var entries := Expand(c, anchor);
      assert Init(entries) == [] && RecordsOf([]) == [];
    case Local(local) => LocalSetCarry(local, c.traceId, c.parentId, anchor);
    case SharedLocal(local) => LocalSetCarry(local, c.traceId, c.parentId, anchor);
  }

  // Events and properties

  /** What an event or a properties entry says. */
  function Said(raw: RawSpan, anchor: Anchor): DanglingItem {
    var properties := if raw.properties.Some? then raw.properties.value else [];
    if raw.kind.EventKind? then EventItem(EventRecord(raw.name, anchor(raw.begin), properties))
    else PropertiesItem(properties)
  }

  /** The entries of a local set that were recorded on `x`, or at the top level when `x` is the item's parent. */
  function SaidLocally(spans: seq<RawSpan>, parentId: SpanId, x: SpanId, anchor: Anchor): seq<DanglingItem> {
    if spans == [] then []
    else
      var raw := Last(spans);
      var target := if raw.parentId == NO_ID then parentId else raw.parentId;
      SaidLocally(Init(spans), parentId, x, anchor) +
      if !raw.kind.SpanKind? && target == x then [Said(raw, anchor)] else []
  }

  function SaidIn(spans: SpanSet, parentId: SpanId, x: SpanId, anchor: Anchor): seq<DanglingItem> {
    match spans
    case Single(raw) => if !raw.kind.SpanKind? && parentId == x then [Said(raw, anchor)] else []
    case Local(local) => SaidLocally(local.spans, parentId, x, anchor)
    case SharedLocal(local) => SaidLocally(local.spans, parentId, x, anchor)
  }

  lemma {:induction false} LocalItems(local: LocalSpans, n: nat, traceId: TraceId, parentId: SpanId, x: SpanId,
                                      anchor: Anchor)
    requires n <= |local.spans|
    ensures ItemsFor(x, LocalEntries(local, traceId, parentId, anchor)[..n])
            == SaidLocally(local.spans[..n], parentId, x, anchor)
  {
    var entries := LocalEntries(local, traceId, parentId, anchor);
    if n > 0 {
      LocalItems(local, n - 1, traceId, parentId, x, anchor);
      InitOfPrefix(entries, n);
      InitOfPrefix(local.spans, n);
    }
  }

  lemma {:induction false} LocalSetItems(local: LocalSpans, traceId: TraceId, parentId: SpanId, x: SpanId,
                                         anchor: Anchor)
    ensures ItemsFor(x, LocalEntries(local, traceId, parentId, anchor)) == SaidLocally(local.spans, parentId, x, anchor)
  {
    LocalItems(local, |local.spans|, traceId, parentId, x, anchor);
    assert local.spans[..|local.spans|] == local.spans;
    var entries := LocalEntries(local, traceId, parentId, anchor);
    assert entries[..|local.spans|] == entries;
  }

  /** An expansion aims at `x` exactly what was recorded for `x`: events with name, time and properties, properties as
      they are, in order. */
  lemma {:induction false} ExpandedItems(c: SpanCollection, x: SpanId, anchor: Anchor)
    ensures ItemsFor(x, Expand(c, anchor)) == SaidIn(c.spans, c.parentId, x, anchor)
  {
    match c.spans
    case Single(raw) =>
      var entries := Expand(c, anchor);
      assert Init(entries) == [] && ItemsFor(x, []) == [];
    case Local(local) => LocalSetItems(local, c.traceId, c.parentId, x, anchor);
    case SharedLocal(local) => LocalSetItems(local, c.traceId, c.parentId, x, anchor);
  }

  function CollectionSources(cs: seq<SpanCollection>): seq<Source> {
    if cs == [] then []
    else CollectionSources(Init(cs)) + SetSources(Last(cs).spans, Last(cs).traceId, Last(cs).parentId)
  }

  lemma {:induction false} ExpandAllCarry(cs: seq<SpanCollection>, anchor: Anchor)
    ensures AllCarry(RecordsOf(ExpandAll(cs, anchor)), CollectionSources(cs), anchor)
  {
    hide Expand, SetSources, AllCarry;
    if cs == [] {
      NothingCarried(anchor);
    } else {
      ExpandAllCarry(Init(cs), anchor);
      ExpandCarries(Last(cs), anchor);
      RecordsOfConcat(ExpandAll(Init(cs), anchor), Expand(Last(cs), anchor));
      CarryConcat(RecordsOf(ExpandAll(Init(cs), anchor)), RecordsOf(Expand(Last(cs), anchor)),
                  CollectionSources(Init(cs)), SetSources(Last(cs).spans, Last(cs).traceId, Last(cs).parentId), anchor);
    }
  }

  lemma {:induction false} NothingCarried(anchor: Anchor)
    ensures RecordsOf([]) == [] && AllCarry([], [], anchor)
  {
  }

  /** Whatever waits and whatever is mounted: the records of a call carry the content of their raw spans, in order. */
  lemma {:induction false} PostprocessedCarry(cs: seq<SpanCollection>, danglings: Danglings, anchor: Anchor)
    ensures AllCarry(Postprocessed(cs, danglings, anchor), CollectionSources(cs), anchor)
  {
    hide ExpandAll, RecordsOf, Absorb, EventsIn, PropertiesIn, MountedOn, CollectionSources;
    ExpandAllCarry(cs, anchor);
    var records, sources := RecordsOf(ExpandAll(cs, anchor)), CollectionSources(cs);
    var reported := Postprocessed(cs, danglings, anchor);
    forall i | 0 <= i < |reported| ensures Carries(reported[i], sources[i], anchor) {
      assert Carries(records[i], sources[i], anchor);
    }
  }

  // The content of a submit

  function ItemSources(spans: SpanSet, items: seq<TokenItem>, c: CollectId): seq<Source> {
    if items == [] then []
    else
      ItemSources(spans, Init(items), c) +
      if Last(items).collectId == c then SetSources(spans, Last(items).traceId, Last(items).parentId) else []
  }

  /** Everything submitted for `c`: one source for each raw span and each token item that names `c`. */
  function SubmittedSources(commands: seq<Command>, c: CollectId): seq<Source> {
    if commands == [] then []
    else
      SubmittedSources(Init(commands), c) +
      match Last(commands)
      case SubmitSpans(spans, token) => ItemSources(spans, token, c)
      case _ => []
  }

  lemma {:induction false} CollectionSourcesConcat(a: seq<SpanCollection>, b: seq<SpanCollection>)
    ensures CollectionSources(a + b) == CollectionSources(a) + CollectionSources(b)
  {
    hide SetSources;
    if b == [] {
      assert a + b == a;
    } else {
      InitOfConcat(a, b);
      CollectionSourcesConcat(a, Init(b));
    }
  }

  lemma {:induction false} RoutedItemsSources(spans: SpanSet, single: bool, items: seq<TokenItem>, c: CollectId)
    ensures CollectionSources(RoutedItems(spans, single, items, c)) == ItemSources(spans, items, c)
  {
    hide SetSources;
    if items != [] {
      RoutedItemsSources(spans, single, Init(items), c);
      if Last(items).collectId == c {
        var collection := CollectionFor(spans, single, Last(items));
        assert Init([collection]) == [];
        CollectionSourcesConcat(RoutedItems(spans, single, Init(items), c), [collection]);
      } else {
        assert RoutedItems(spans, single, items, c) == RoutedItems(spans, single, Init(items), c);
      }
    }
  }

  lemma {:induction false} RoutedSources(commands: seq<Command>, c: CollectId)
    ensures CollectionSources(Routed(commands, c)) == SubmittedSources(commands, c)
  {
    hide SetSources, RoutedItems, ItemSources;
    if commands != [] {
      RoutedSources(Init(commands), c);
      match Last(commands)
      case SubmitSpans(spans, token) =>
        RoutedItemsSources(spans, |token| == 1, token, c);
        CollectionSourcesConcat(Routed(Init(commands), c), RoutedItems(spans, |token| == 1, token, c));
      case _ =>
        assert Routed(commands, c) == Routed(Init(commands), c);
    }
  }

  lemma {:induction false} SubmittedSourcesConcat(a: seq<Command>, b: seq<Command>, c: CollectId)
    ensures SubmittedSources(a + b, c) == SubmittedSources(a, c) + SubmittedSources(b, c)
  {
    hide ItemSources;
    if b == [] {
      assert a + b == a;
    } else {
      InitOfConcat(a, b);
      SubmittedSourcesConcat(a, Init(b), c);
    }
  }

  // Whole runs

  lemma {:induction false} SinglesCarry(cs: seq<SpanCollection>, n: nat, anchor: Anchor)
    requires n <= |cs|
    ensures AllCarry(Flatten(Singles(cs, anchor)[..n]), CollectionSources(cs[..n]), anchor)
  {
    hide Postprocessed, SetSources, AllCarry;
    var groups := Singles(cs, anchor);
    if n == 0 {
      NothingCarried(anchor);
    } else {
      SinglesCarry(cs, n - 1, anchor);
      InitOfPrefix(groups, n);
      InitOfPrefix(cs, n);
      PostprocessedCarry([cs[n - 1]], map[], anchor);
      assert Init([cs[n - 1]]) == [];
      var own := SetSources(cs[n - 1].spans, cs[n - 1].traceId, cs[n - 1].parentId);
      assert CollectionSources([cs[n - 1]]) == [] + own == own;
      CarryConcat(Flatten(groups[..n - 1]), groups[n - 1], CollectionSources(cs[..n - 1]), own, anchor);
    }
  }

  /** Not cancelable: each batch reports for each collect id the content of its submits, in order. */
  lemma {:induction false} BatchCarriesSubmitted(batches: seq<Batch>, c: CollectId)
    requires batches != []
    ensures AllCarry(Flatten(ReportedLast(false, batches, c)), SubmittedSources(Last(batches).commands, c),
                     Last(batches).anchor)
  {
    hide Postprocessed, Routed, CollectionSources, Singles, Leftover, StateAfter, AllCarry, Flatten;
    var batch, before := Last(batches), StateAfter(false, Init(batches), c);
    var routed := Routed(batch.commands, c);
    RoutedSources(batch.commands, c);
    match Opened(before, batch.commands, c)
    case None =>
      SinglesCarry(routed, |routed|, batch.anchor);
      SinglesLength(routed, batch.anchor);
      var singles := Singles(routed, batch.anchor);
      assert singles[..|routed|] == singles && routed[..|routed|] == routed;
    case Some(a) =>
      NothingHeld(Init(batches), c);
      assert a.spanCollections + routed == routed;
      PostprocessedCarry(routed, a.danglings, batch.anchor);
      FlatOne(Postprocessed(routed, a.danglings, batch.anchor));
  }

  lemma {:induction false} RoutedOverSources(batches: seq<Batch>, c: CollectId)
    ensures CollectionSources(RoutedOver(batches, c)) == SubmittedSources(Concat(batches), c)
  {
    hide Routed;
    if batches != [] {
      RoutedOverSources(Init(batches), c);
      RoutedSources(Last(batches).commands, c);
      CollectionSourcesConcat(RoutedOver(Init(batches), c), Routed(Last(batches).commands, c));
      SubmittedSourcesConcat(Concat(Init(batches)), Last(batches).commands, c);
    }
  }

  /** Cancelable: the one report of a collect id carries the content of everything submitted from the start batch
      through the commit batch, in order. */
  lemma {:induction false} ReportCarriesSubmitted(batches: seq<Batch>, states: seq<map<CollectId, ActiveCollector>>,
                                                  groups: seq<seq<Group>>, c: CollectId, s: nat, k: nat)
    requires IsRun(true, batches, states, groups) && StartedOnlyIn(batches, c, s)
    requires k < |batches| && CommitBatch(batches, c, s, k)
    ensures |groups| == |batches| && |GroupsFor(groups[k], c)| == 1
    ensures AllCarry(GroupsFor(groups[k], c)[0], SubmittedSources(Concat(batches[s..k + 1]), c), batches[k].anchor)
  {
    hide IsRun, Postprocessed, GroupsFor, ReportedLast, SubmittedSources, AllCarry, CollectionSources;
    RunLengths(true, batches, states, groups);
    var now := batches[..k + 1];
    RunPerId(true, batches, states, groups, k, c);
    assert StartedOnlyIn(now, c, s);
    AllAtOnce(now, c, s);
    assert now[s..] == batches[s..k + 1] && Last(now) == batches[k];
    PostprocessedCarry(RoutedOver(now[s..], c), map[], Last(now).anchor);
    RoutedOverSources(now[s..], c);
  }

  // Totals over all collect ids

  /** What a record says besides its properties and events. */
  datatype Content = Content(key: Key, name: string, beginTime: nat, duration: nat)

  function ContentOf(r: SpanRecord): Content {
    Content(KeyOf(r), r.name, r.beginTime, r.duration)
  }

  function SourceContent(s: Source, anchor: Anchor): Content {
    var begin, end := anchor(s.raw.begin), anchor(s.end);
    Content(Key(s.traceId, s.raw.id, s.parentId), s.raw.name, begin, if begin <= end then end - begin else 0)
  }

  function Contents(records: seq<SpanRecord>): seq<Content> {
    seq(|records|, i requires 0 <= i < |records| => ContentOf(records[i]))
  }

  function SourceContents(sources: seq<Source>, anchor: Anchor): seq<Content> {
    seq(|sources|, i requires 0 <= i < |sources| => SourceContent(sources[i], anchor))
  }

  lemma {:induction false} CarriedContents(records: seq<SpanRecord>, sources: seq<Source>, anchor: Anchor)
    requires AllCarry(records, sources, anchor)
    ensures Contents(records) == SourceContents(sources, anchor)
  {
    forall i | 0 <= i < |records| ensures ContentOf(records[i]) == SourceContent(sources[i], anchor) {
      assert Carries(records[i], sources[i], anchor);
    }
  }

  function LabelledContents(groups: seq<Group>): seq<(CollectId, Content)> {
    if groups == [] then []
    else LabelledContents(Init(groups)) + Label(Last(groups).collectId, Contents(Last(groups).records))
  }

  function ItemContents(spans: SpanSet, items: seq<TokenItem>, anchor: Anchor): seq<(CollectId, Content)> {
    if items == [] then []
    else
      ItemContents(spans, Init(items), anchor) +
      Label(Last(items).collectId,
            SourceContents(SetSources(spans, Last(items).traceId, Last(items).parentId), anchor))
  }

  function SubmittedContents(commands: seq<Command>, anchor: Anchor): seq<(CollectId, Content)> {
    if commands == [] then []
    else
      SubmittedContents(Init(commands), anchor) +
      match Last(commands)
      case SubmitSpans(spans, token) => ItemContents(spans, token, anchor)
      case _ => []
  }

  function AllReported(groups: seq<seq<Group>>): seq<(CollectId, Content)> {
    if groups == [] then [] else AllReported(Init(groups)) + LabelledContents(Last(groups))
  }

  function AllSubmitted(batches: seq<Batch>): seq<(CollectId, Content)> {
    if batches == [] then []
    else AllSubmitted(Init(batches)) + SubmittedContents(Last(batches).commands, Last(batches).anchor)
  }

  lemma {:induction false} ContentsConcat(a: seq<SpanRecord>, b: seq<SpanRecord>)
    ensures Contents(a + b) == Contents(a) + Contents(b)
  {
  }

  lemma {:induction false} SourceContentsConcat(a: seq<Source>, b: seq<Source>, anchor: Anchor)
    ensures SourceContents(a + b, anchor) == SourceContents(a, anchor) + SourceContents(b, anchor)
  {
    hide SourceContent;
  }

  lemma {:induction false} NoContents(anchor: Anchor)
    ensures Contents([]) == [] && SourceContents([], anchor) == []
  {
  }

  lemma {:induction false} ProjectGroupContents(groups: seq<Group>, c: CollectId)
    ensures Project(LabelledContents(groups), c) == Contents(Flatten(GroupsFor(groups, c)))
  {
    hide Contents, Label;
    if groups == [] {
      NoContents(t => t);
    } else {
      var last := Last(groups);
      ProjectGroupContents(Init(groups), c);
      ProjectLabel(last.collectId, Contents(last.records), c);
      ProjectConcat(LabelledContents(Init(groups)), Label(last.collectId, Contents(last.records)), c);
      if last.collectId == c {
        var before := GroupsFor(Init(groups), c);
        FlattenAppend(before, last.records);
        ContentsConcat(Flatten(before), last.records);
      } else {
        assert GroupsFor(groups, c) == GroupsFor(Init(groups), c);
      }
    }
  }

  lemma {:induction false} ProjectItemContents(spans: SpanSet, items: seq<TokenItem>, c: CollectId, anchor: Anchor)
    ensures Project(ItemContents(spans, items, anchor), c) == SourceContents(ItemSources(spans, items, c), anchor)
  {
    hide SetSources, Label, SourceContents;
    if items == [] {
      NoContents(anchor);
    } else {
      var last := Last(items);
      var own := SetSources(spans, last.traceId, last.parentId);
      ProjectItemContents(spans, Init(items), c, anchor);
      ProjectLabel(last.collectId, SourceContents(own, anchor), c);
      ProjectConcat(ItemContents(spans, Init(items), anchor), Label(last.collectId, SourceContents(own, anchor)), c);
      SourceContentsConcat(ItemSources(spans, Init(items), c), own, anchor);
      if last.collectId != c {
        assert ItemSources(spans, items, c) == ItemSources(spans, Init(items), c);
      }
    }
  }

  lemma {:induction false} ProjectSubmitContents(commands: seq<Command>, c: CollectId, anchor: Anchor)
    ensures Project(SubmittedContents(commands, anchor), c) == SourceContents(SubmittedSources(commands, c), anchor)
  {
    hide ItemContents, ItemSources, SourceContents;
    if commands == [] {
      NoContents(anchor);
    } else {
      ProjectSubmitContents(Init(commands), c, anchor);
      match Last(commands)
      case SubmitSpans(spans, token) =>
        ProjectItemContents(spans, token, c, anchor);
        ProjectConcat(SubmittedContents(Init(commands), anchor), ItemContents(spans, token, anchor), c);
        SourceContentsConcat(SubmittedSources(Init(commands), c), ItemSources(spans, token, c), anchor);
      case _ =>
        assert SubmittedContents(commands, anchor) == SubmittedContents(Init(commands), anchor);
        assert SubmittedSources(commands, c) == SubmittedSources(Init(commands), c);
    }
  }

  /** With `cancelable` off, over any run, the reported contents of all ids together are exactly those of all drained
      submits, counted with multiplicity: ids, names, begin times and durations. */
  lemma {:induction false} ContentConserved(batches: seq<Batch>, states: seq<map<CollectId, ActiveCollector>>,
                                            groups: seq<seq<Group>>)
    requires IsRun(false, batches, states, groups)
    ensures multiset(AllReported(groups)) == multiset(AllSubmitted(batches))
  {
    hide LabelledContents, SubmittedContents, ReportedLast, Project, Contents, Flatten, GroupsFor, SubmittedSources,
         BatchDone, SourceContents, AllCarry;
    if batches != [] {
      var k := |batches| - 1;
      assert IsRun(false, Init(batches), Init(states), Init(groups));
      ContentConserved(Init(batches), Init(states), Init(groups));
      var commands, anchor := batches[k].commands, batches[k].anchor;
      forall c ensures Project(LabelledContents(groups[k]), c) == Project(SubmittedContents(commands, anchor), c) {
        RunPerId(false, batches, states, groups, k, c);
        assert batches[..k + 1] == batches;
        BatchCarriesSubmitted(batches, c);
        CarriedContents(Flatten(ReportedLast(false, batches, c)), SubmittedSources(commands, c), anchor);
        ProjectGroupContents(groups[k], c);
        ProjectSubmitContents(commands, c, anchor);
      }
      SameProjections(LabelledContents(groups[k]), SubmittedContents(commands, anchor));
    }
  }
}

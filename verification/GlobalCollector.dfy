/** `GlobalCollector` of fastrace/src/collector/global_collector.rs. One call of `HandleCommands` drains
    every channel, sorts the commands by kind, routes the submitted span sets to the collectors their
    tokens name and reports what is due. Its effect is stated for each collect id on its own, which is
    independent of the arbitrary order in which the active collectors are visited. */
module GlobalCollectors {
  import opened Records
  import opened Postprocess
  import Spsc

  datatype ActiveCollector = ActiveCollector(spanCollections: seq<SpanCollection>, danglings: Danglings)

  const FRESH_COLLECTOR := ActiveCollector([], map[])

  /** The records that one post-processing call appended for one collect id. */
  datatype Group = Group(collectId: CollectId, records: seq<SpanRecord>)

  /** A channel as its consuming end sees it: the ring, and whether the sender is gone. */
  datatype Receiver = Receiver(thread: nat, buffered: seq<Command>, abandoned: bool)

  // Commands by kind

  function StartIds(commands: seq<Command>): seq<CollectId> {
    if commands == [] then []
    else StartIds(Init(commands)) + (if Last(commands).StartCollect? then [Last(commands).collectId] else [])
  }

  function DropIds(commands: seq<Command>): seq<CollectId> {
    if commands == [] then []
    else DropIds(Init(commands)) + (if Last(commands).DropCollect? then [Last(commands).collectId] else [])
  }

  function CommitIds(commands: seq<Command>): seq<CollectId> {
    if commands == [] then []
    else CommitIds(Init(commands)) + (if Last(commands).CommitCollect? then [Last(commands).collectId] else [])
  }

  function Submits(commands: seq<Command>): seq<Command> {
    if commands == [] then []
    else Submits(Init(commands)) + (if Last(commands).SubmitSpans? then [Last(commands)] else [])
  }

  // Routing

  /** A token with one item hands its span set over; with more items the set is shared. */
  function CollectionFor(spans: SpanSet, single: bool, item: TokenItem): SpanCollection {
    if single then Owned(spans, item.traceId, item.parentId) else Shared(spans, item.traceId, item.parentId)
  }

  /** The collections that the items of one token direct to collect id `c`, in token order. */
  function RoutedItems(spans: SpanSet, single: bool, items: seq<TokenItem>, c: CollectId): seq<SpanCollection> {
    if items == [] then []
    else
      RoutedItems(spans, single, Init(items), c) +
      (if Last(items).collectId == c then [CollectionFor(spans, single, Last(items))] else [])
  }

  function Routed(commands: seq<Command>, c: CollectId): seq<SpanCollection> {
    if commands == [] then []
    else
      Routed(Init(commands), c) +
      match Last(commands)
      case SubmitSpans(spans, token) => RoutedItems(spans, |token| == 1, token, c)
      case _ => []
  }

  // The effect of a batch on one collect id

  function Lookup(active: map<CollectId, ActiveCollector>, c: CollectId): Option<ActiveCollector> {
    if c in active then Some(active[c]) else None
  }

  function Opened(before: Option<ActiveCollector>, commands: seq<Command>, c: CollectId): Option<ActiveCollector> {
    if c in DropIds(commands) then None
    else if c in StartIds(commands) then Some(FRESH_COLLECTOR)
    else before
  }

  function Filled(a: Option<ActiveCollector>, cs: seq<SpanCollection>): Option<ActiveCollector> {
    if a.None? then None else Some(a.value.(spanCollections := a.value.spanCollections + cs))
  }

  function Report(a: ActiveCollector, anchor: Anchor): seq<SpanRecord> {
    Postprocessed(a.spanCollections, a.danglings, anchor)
  }

  /** An active collector whose spans have just been reported. */
  function Emptied(a: ActiveCollector, anchor: Anchor): ActiveCollector {
    ActiveCollector([], Leftover(a.spanCollections, a.danglings, anchor))
  }

  function Singles(cs: seq<SpanCollection>, anchor: Anchor): seq<seq<SpanRecord>> {
    seq(|cs|, i requires 0 <= i < |cs| => Postprocessed([cs[i]], map[], anchor))
  }

  datatype Outcome = Outcome(next: Option<ActiveCollector>, reported: seq<seq<SpanRecord>>)

  function IdBatch(cancelable: bool, before: Option<ActiveCollector>, commands: seq<Command>, c: CollectId,
                   anchor: Anchor): Outcome
  {
    var routed := Routed(commands, c);
    match Filled(Opened(before, commands, c), routed)
    case None => Outcome(None, if cancelable then [] else Singles(routed, anchor))
    case Some(a) =>
      if c in CommitIds(commands) then Outcome(None, [Report(a, anchor)])
      else if cancelable then Outcome(Some(a), [])
      else Outcome(Some(Emptied(a, anchor)), [Report(a, anchor)])
  }

  // Reported groups

  function GroupsFor(groups: seq<Group>, c: CollectId): seq<seq<SpanRecord>> {
    if groups == [] then []
    else GroupsFor(Init(groups), c) + (if Last(groups).collectId == c then [Last(groups).records] else [])
  }

  function AllRecords(groups: seq<Group>): seq<SpanRecord> {
    if groups == [] then [] else AllRecords(Init(groups)) + Last(groups).records
  }

  lemma {:induction false} GroupsForAppend(groups: seq<Group>, group: Group, c: CollectId)
    ensures GroupsFor(groups + [group], c) == GroupsFor(groups, c) + if group.collectId == c then [group.records]
            else []
    ensures AllRecords(groups + [group]) == AllRecords(groups) + group.records
  {
    assert Init(groups + [group]) == groups;
  }

  /** The collections of a list that carry label `c`. */
  function Labelled(cs: seq<SpanCollection>, labels: seq<CollectId>, c: CollectId): seq<SpanCollection>
    requires |cs| == |labels|
  {
    if cs == [] then []
    else Labelled(Init(cs), Init(labels), c) + (if Last(labels) == c then [Last(cs)] else [])
  }

  lemma {:induction false} SubmitsRoute(commands: seq<Command>, c: CollectId)
    ensures Routed(Submits(commands), c) == Routed(commands, c)
  {
    if commands != [] {
      SubmitsRoute(Init(commands), c);
      var before := Submits(Init(commands));
      if Last(commands).SubmitSpans? {
        assert Init(before + [Last(commands)]) == before;
      } else {
        assert Submits(commands) == before && Routed(commands, c) == Routed(Init(commands), c);
      }
    }
  }

  class GlobalCollector {
    const cancelable: bool
    var hasReporter: bool
    var rxs: seq<Receiver>
    var active: map<CollectId, ActiveCollector>
    var startCollects: seq<CollectId>
    var dropCollects: seq<CollectId>
    var commitCollects: seq<CollectId>
    var submitSpans: seq<Command>
    var staleSpans: seq<SpanCollection>
    // The argument of every `Reporter::report` call so far.
    var reports: seq<seq<SpanRecord>>

    /** The reused vectors are empty outside a batch: the debug assertions of `handle_commands`. */
    ghost predicate Valid()
      reads this
    {
      startCollects == [] && dropCollects == [] && commitCollects == [] && submitSpans == [] && staleSpans == []
    }

    constructor (cancelable: bool)
      ensures Valid() && this.cancelable == cancelable && hasReporter
      ensures rxs == [] && active == map[] && reports == []
    {
      this.cancelable := cancelable;
      hasReporter, rxs, active, reports := true, [], map[], [];
      startCollects, dropCollects, commitCollects, submitSpans, staleSpans := [], [], [], [], [];
    }

    method RegisterReceiver(rx: Receiver)
      requires Valid()
      modifies `rxs
      ensures Valid() && rxs == old(rxs) + [rx]
    {
      rxs := rxs + [rx];
    }

    /** One batch. `commands` is what the channels held, channel after channel, and `groups` labels the
        reported records with the collect ids they were reported for. */
    method HandleCommands(anchor: Anchor) returns (ghost groups: seq<Group>)
      requires Valid()
      modifies this
      ensures Valid() && hasReporter == old(hasReporter)
      ensures rxs == Drained(old(rxs)) && LiveOnes(old(rxs), rxs)
      ensures !old(hasReporter) ==> active == old(active) && reports == old(reports) && groups == []
      ensures old(hasReporter) ==> reports == old(reports) + [AllRecords(groups)]
      ensures old(hasReporter) ==> BatchDone(cancelable, old(active), Buffered(old(rxs)), anchor, active, groups)
    {
      hide Postprocessed, Leftover, Routed, GroupsFor, AllRecords, Labelled, Singles, IdDone, Buffered, Drained,
           LiveOnes, StartIds, DropIds, CommitIds, Submits, Emptied, Report;
      groups := [];
      DrainChannels();
      if !hasReporter {
        startCollects, dropCollects, commitCollects, submitSpans := [], [], [], [];
        return;
      }
      StartAndDrop();
      ghost var started := active;
      ghost var labels := RouteSubmits();
      ghost var filled := active;
      var committed;
      committed, groups := CommitAll(anchor);
      ghost var pending, commitGroups := active, groups;
      if !cancelable {
        committed, groups := ReportLive(anchor, committed, groups);
      }
      ghost var liveGroups := groups;
      committed, groups := ReportStale(anchor, committed, groups, labels);
      reports := reports + [committed];

      ghost var commands := Buffered(old(rxs));
      forall c ensures IdDone(cancelable, old(active), commands, anchor, active, groups, c) {
        SubmitsRoute(commands, c);
        assert Lookup(started, c) == Opened(Lookup(old(active), c), commands, c);
        assert Lookup(filled, c) == Filled(Lookup(started, c), Routed(commands, c));
        PhasesCompose(cancelable, old(active), commands, anchor, filled, pending, active,
                      commitGroups, liveGroups, groups, c);
      }
    }

    method DrainChannels()
      requires Valid()
      modifies `rxs, `startCollects, `dropCollects, `commitCollects, `submitSpans
      ensures rxs == Drained(old(rxs)) && LiveOnes(old(rxs), rxs)
      ensures startCollects == StartIds(Buffered(old(rxs))) && dropCollects == DropIds(Buffered(old(rxs)))
      ensures commitCollects == CommitIds(Buffered(old(rxs))) && submitSpans == Submits(Buffered(old(rxs)))
    {
      var kept: seq<Receiver> := [];
      for i := 0 to |rxs|
        invariant rxs == old(rxs) && kept == Drained(rxs[..i])
        invariant startCollects == StartIds(Buffered(rxs[..i])) && dropCollects == DropIds(Buffered(rxs[..i]))
        invariant commitCollects == CommitIds(Buffered(rxs[..i])) && submitSpans == Submits(Buffered(rxs[..i]))
      {
        assert Init(rxs[..i + 1]) == rxs[..i] && Last(rxs[..i + 1]) == rxs[i];
        SortedConcat(Buffered(rxs[..i]), rxs[i].buffered);
        var open := ReceiveAll(rxs[i]);
        if open {
          kept := kept + [rxs[i].(buffered := [])];
        }
      }
      assert rxs[..|rxs|] == rxs;
      DrainedAreLive(rxs);
      rxs := kept;
    }

    /** Empties one channel; false means that it was closed by its sender. */
    method ReceiveAll(rx: Receiver) returns (open: bool)
      modifies `startCollects, `dropCollects, `commitCollects, `submitSpans
      ensures open <==> !rx.abandoned
      ensures startCollects == old(startCollects) + StartIds(rx.buffered)
      ensures dropCollects == old(dropCollects) + DropIds(rx.buffered)
      ensures commitCollects == old(commitCollects) + CommitIds(rx.buffered)
      ensures submitSpans == old(submitSpans) + Submits(rx.buffered)
    {
      hide StartIds, DropIds, CommitIds, Submits;
      var rest := rx;
      ghost var n := 0;
      NothingSorted();
      while true
        invariant n <= |rx.buffered| && rest == rx.(buffered := rx.buffered[n..])
        invariant startCollects == old(startCollects) + StartIds(rx.buffered[..n])
        invariant dropCollects == old(dropCollects) + DropIds(rx.buffered[..n])
        invariant commitCollects == old(commitCollects) + CommitIds(rx.buffered[..n])
        invariant submitSpans == old(submitSpans) + Submits(rx.buffered[..n])
        decreases |rx.buffered| - n
      {
        var (result, left) := Spsc.Taken(rest.buffered, rest.abandoned);
        rest := rest.(buffered := left);
        if !result.Message? {
          assert rx.buffered[..n] == rx.buffered;
          return result.Empty?;
        }
        assert rx.buffered[..n + 1] == rx.buffered[..n] + [result.value];
        Sorted(rx.buffered[..n], result.value);
        match result.value {
          case StartCollect(c) => startCollects := startCollects + [c];
          case DropCollect(c) => dropCollects := dropCollects + [c];
          case CommitCollect(c) => commitCollects := commitCollects + [c];
          case SubmitSpans(_, _) => submitSpans := submitSpans + [result.value];
        }
        n := n + 1;
      }
    }

    method StartAndDrop()
      modifies `active, `startCollects, `dropCollects
      ensures startCollects == [] && dropCollects == []
      ensures forall c :: Lookup(active, c) ==
                if c in old(dropCollects) then None
                else if c in old(startCollects) then Some(FRESH_COLLECTOR) else Lookup(old(active), c)
    {
      for i := 0 to |startCollects|
        invariant startCollects == old(startCollects) && dropCollects == old(dropCollects)
        invariant forall c :: Lookup(active, c) ==
                    if c in startCollects[..i] then Some(FRESH_COLLECTOR) else Lookup(old(active), c)
      {
        assert startCollects[..i + 1] == startCollects[..i] + [startCollects[i]];
        active := active[startCollects[i] := FRESH_COLLECTOR];
      }
      ghost var started := active;
      for i := 0 to |dropCollects|
        invariant startCollects == old(startCollects) && dropCollects == old(dropCollects)
        invariant forall c :: Lookup(active, c) == if c in dropCollects[..i] then None else Lookup(started, c)
      {
        assert dropCollects[..i + 1] == dropCollects[..i] + [dropCollects[i]];
        active := active - {dropCollects[i]};
      }
      assert startCollects[..|startCollects|] == startCollects && dropCollects[..|dropCollects|] == dropCollects;
      startCollects, dropCollects := [], [];
    }

    /** Routes one token item to its collector, or to the stale list when nothing can be cancelled. */
    method RouteItem(spans: SpanSet, single: bool, item: TokenItem, ghost labels: seq<CollectId>)
      returns (ghost labels': seq<CollectId>)
      requires |labels| == |staleSpans|
      modifies `active, `staleSpans
      ensures active.Keys == old(active).Keys && |labels'| == |staleSpans|
      ensures forall c :: Lookup(active, c) == Filled(Lookup(old(active), c), RoutedItems(spans, single, [item], c))
      ensures forall c :: Labelled(staleSpans, labels', c) == Labelled(old(staleSpans), labels, c) +
                if cancelable || c in active then [] else RoutedItems(spans, single, [item], c)
    {
      labels' := labels;
      var collection := CollectionFor(spans, single, item);
      assert forall c :: RoutedItems(spans, single, [item], c) ==
               (if item.collectId == c then [collection] else []) by {
        assert Init([item]) == [];
      }
      if item.collectId in active {
        var a := active[item.collectId];
        active := active[item.collectId := a.(spanCollections := a.spanCollections + [collection])];
      } else if !cancelable {
        staleSpans := staleSpans + [collection];
        labels' := labels + [item.collectId];
        assert Init(staleSpans) == old(staleSpans) && Init(labels') == labels;
      }
      assert forall c :: c != item.collectId && c in active ==>
               active[c].spanCollections + [] == active[c].spanCollections;
    }

    method RouteSubmits() returns (ghost labels: seq<CollectId>)
      requires staleSpans == []
      modifies `active, `staleSpans, `submitSpans
      ensures submitSpans == [] && active.Keys == old(active).Keys && |labels| == |staleSpans|
      ensures forall c :: Lookup(active, c) == Filled(Lookup(old(active), c), Routed(old(submitSpans), c))
      ensures forall c :: Labelled(staleSpans, labels, c) ==
                if cancelable || c in active then [] else Routed(old(submitSpans), c)
    {
      labels := [];
      FilledByNothing(active);
      for i := 0 to |submitSpans|
        invariant submitSpans == old(submitSpans) && active.Keys == old(active).Keys && |labels| == |staleSpans|
        invariant forall c :: Lookup(active, c) == Filled(Lookup(old(active), c), Routed(submitSpans[..i], c))
        invariant forall c :: Labelled(staleSpans, labels, c) ==
                    if cancelable || c in active then [] else Routed(submitSpans[..i], c)
      {
        assert Init(submitSpans[..i + 1]) == submitSpans[..i] && Last(submitSpans[..i + 1]) == submitSpans[i];
        assert submitSpans[..i + 1] == submitSpans[..i] + [submitSpans[i]];
        if submitSpans[i].SubmitSpans? {
          RoutedStep(old(active), submitSpans[..i], submitSpans[i]);
          assert submitSpans[i] == SubmitSpans(submitSpans[i].spans, submitSpans[i].token);
          labels := RouteToken(submitSpans[i].spans, submitSpans[i].token, labels);
        } else {
          assert forall c :: Routed(submitSpans[..i + 1], c) == Routed(submitSpans[..i], c);
        }
      }
      assert submitSpans[..|submitSpans|] == submitSpans;
      submitSpans := [];
    }

    method RouteToken(spans: SpanSet, token: CollectToken, ghost labels: seq<CollectId>)
      returns (ghost labels': seq<CollectId>)
      requires |labels| == |staleSpans|
      modifies `active, `staleSpans
      ensures active.Keys == old(active).Keys && |labels'| == |staleSpans|
      ensures forall c :: Lookup(active, c) ==
                Filled(Lookup(old(active), c), RoutedItems(spans, |token| == 1, token, c))
      ensures forall c :: Labelled(staleSpans, labels', c) == Labelled(old(staleSpans), labels, c) +
                if cancelable || c in active then [] else RoutedItems(spans, |token| == 1, token, c)
    {
      hide RoutedItems, Labelled, Filled;
      labels' := labels;
      NothingRouted(active, spans, |token| == 1);
      for i := 0 to |token|
        invariant active.Keys == old(active).Keys && |labels'| == |staleSpans|
        invariant forall c :: Lookup(active, c) ==
                    Filled(Lookup(old(active), c), RoutedItems(spans, |token| == 1, token[..i], c))
        invariant forall c :: Labelled(staleSpans, labels', c) == Labelled(old(staleSpans), labels, c) +
                    if cancelable || c in active then [] else RoutedItems(spans, |token| == 1, token[..i], c)
      {
        assert token[..i + 1] == token[..i] + [token[i]];
        TokenStep(old(active), spans, |token| == 1, token[..i], token[i]);
        labels' := RouteItem(spans, |token| == 1, token[i], labels');
      }
      assert token[..|token|] == token;
    }

    method CommitAll(anchor: Anchor) returns (committed: seq<SpanRecord>, ghost groups: seq<Group>)
      modifies `active, `commitCollects
      ensures commitCollects == [] && committed == AllRecords(groups)
      ensures forall c :: Lookup(active, c) == if c in old(commitCollects) then None else Lookup(old(active), c)
      ensures forall c :: GroupsFor(groups, c) ==
                if c in old(commitCollects) && c in old(active) then [Report(old(active)[c], anchor)] else []
    {
      committed, groups := [], [];
      for i := 0 to |commitCollects|
        invariant commitCollects == old(commitCollects) && committed == AllRecords(groups)
        invariant CommittedOf(old(active), commitCollects[..i], active, groups, anchor)
      {
        hide Postprocessed, CommittedOf;
        var id := commitCollects[i];
        assert commitCollects[..i + 1] == commitCollects[..i] + [id];
        CommitStep(old(active), commitCollects[..i], active, groups, id, anchor);
        if id in active {
          var a := active[id];
          active := active - {id};
          var left;
          committed, left := PostprocessSpanCollection(a.spanCollections, anchor, committed, a.danglings);
          groups := groups + [Group(id, Report(a, anchor))];
        }
      }
      assert commitCollects[..|commitCollects|] == commitCollects;
      commitCollects := [];
    }

    method ReportLive(anchor: Anchor, committed: seq<SpanRecord>, ghost groups: seq<Group>)
      returns (committed': seq<SpanRecord>, ghost groups': seq<Group>)
      requires committed == AllRecords(groups)
      modifies `active
      ensures committed' == AllRecords(groups')
      ensures active.Keys == old(active).Keys
      ensures forall c :: c in active ==> active[c] == Emptied(old(active)[c], anchor)
      ensures forall c :: GroupsFor(groups', c) ==
                GroupsFor(groups, c) + if c in active then [Report(old(active)[c], anchor)] else []
    {
      committed', groups' := committed, groups;
      var todo := active.Keys;
      while todo != {}
        invariant todo <= active.Keys == old(active).Keys
        invariant committed' == AllRecords(groups')
        invariant LiveOf(old(active), active, todo, groups, groups', anchor)
      {
        hide Postprocessed, Leftover, LiveOf;
        var id :| id in todo;
        LiveStep(old(active), active, todo, groups, groups', anchor, id);
        var a := active[id];
        var danglings;
        committed', danglings := PostprocessSpanCollection(a.spanCollections, anchor, committed', a.danglings);
        active := active[id := ActiveCollector([], danglings)];
        groups' := groups' + [Group(id, Report(a, anchor))];
        todo := todo - {id};
      }
    }

    method ReportStale(anchor: Anchor, committed: seq<SpanRecord>, ghost groups: seq<Group>,
                       ghost labels: seq<CollectId>)
      returns (committed': seq<SpanRecord>, ghost groups': seq<Group>)
      requires committed == AllRecords(groups) && |labels| == |staleSpans|
      modifies `staleSpans
      ensures staleSpans == [] && committed' == AllRecords(groups')
      ensures forall c :: GroupsFor(groups', c) ==
                GroupsFor(groups, c) + Singles(Labelled(old(staleSpans), labels, c), anchor)
    {
      committed', groups' := committed, groups;
      for i := 0 to |staleSpans|
        invariant staleSpans == old(staleSpans) && committed' == AllRecords(groups')
        invariant StaleOf(staleSpans[..i], labels[..i], groups, groups', anchor)
      {
        hide Postprocessed, Leftover, StaleOf;
        ghost var group := Group(labels[i], Postprocessed([staleSpans[i]], map[], anchor));
        var left;
        committed', left := PostprocessSpanCollection([staleSpans[i]], anchor, committed', map[]);
        StaleStep(staleSpans, labels, i, groups, groups', anchor);
        groups' := groups' + [group];
      }
      assert staleSpans[..|staleSpans|] == staleSpans && labels[..|labels|] == labels;
      staleSpans := [];
    }
  }

  /** After the commits `ids`: the committed collectors are gone and have been reported once each. */
  ghost predicate CommittedOf(before: map<CollectId, ActiveCollector>, ids: seq<CollectId>,
                              now: map<CollectId, ActiveCollector>, groups: seq<Group>, anchor: Anchor)
  {
    && (forall c :: Lookup(now, c) == if c in ids then None else Lookup(before, c))
    && (forall c :: GroupsFor(groups, c) == if c in ids && c in before then [Report(before[c], anchor)] else [])
  }

  lemma {:induction false} CommitStep(before: map<CollectId, ActiveCollector>, ids: seq<CollectId>,
                                      now: map<CollectId, ActiveCollector>, groups: seq<Group>, id: CollectId,
                                        anchor: Anchor)
    requires CommittedOf(before, ids, now, groups, anchor)
    ensures id !in now ==> CommittedOf(before, ids + [id], now, groups, anchor)
    ensures id in now ==>
              CommittedOf(before, ids + [id], now - {id}, groups + [Group(id, Report(now[id], anchor))], anchor)
  {
    hide Report, GroupsFor;
    assert Lookup(now, id) == if id in ids then None else Lookup(before, id);
    if id in now {
      var group := Group(id, Report(now[id], anchor));
      forall c
        ensures GroupsFor(groups + [group], c) == if c in ids + [id] && c in before then [Report(before[c], anchor)]
                else []
      {
        GroupsForAppend(groups, group, c);
      }
      forall c ensures Lookup(now - {id}, c) == if c in ids + [id] then None else Lookup(before, c) {
        assert Lookup(now, c) == if c in ids then None else Lookup(before, c);
      }
    } else {
      forall c ensures Lookup(now, c) == if c in ids + [id] then None else Lookup(before, c) {
        assert Lookup(now, c) == if c in ids then None else Lookup(before, c);
      }
    }
  }

  /** All active collectors outside `todo` have been reported once and emptied. */
  ghost predicate LiveOf(before: map<CollectId, ActiveCollector>, now: map<CollectId, ActiveCollector>,
                         todo: set<CollectId>, groups: seq<Group>, groups': seq<Group>, anchor: Anchor)
  {
    && todo <= now.Keys == before.Keys
    && (forall c :: c in now ==> now[c] == if c in todo then before[c] else Emptied(before[c], anchor))
    && (forall c :: GroupsFor(groups', c) ==
          GroupsFor(groups, c) + if c in before && c !in todo then [Report(before[c], anchor)] else [])
  }

  lemma {:induction false} LiveStep(before: map<CollectId, ActiveCollector>, now: map<CollectId, ActiveCollector>,
                                    todo: set<CollectId>, groups: seq<Group>, groups': seq<Group>, anchor: Anchor,
                                    id: CollectId)
    requires LiveOf(before, now, todo, groups, groups', anchor) && id in todo
    ensures id in now
    ensures LiveOf(before, now[id := Emptied(now[id], anchor)], todo - {id},
                   groups, groups' + [Group(id, Report(now[id], anchor))], anchor)
  {
    hide Report, Emptied, GroupsFor;
    var group := Group(id, Report(now[id], anchor));
    forall c
      ensures GroupsFor(groups' + [group], c) ==
                GroupsFor(groups, c) + if c in before && c !in todo - {id} then [Report(before[c], anchor)] else []
    {
      GroupsForAppend(groups', group, c);
    }
  }

  /** The stale collections `cs`, labelled with their collect ids, have been reported one by one. */
  ghost predicate StaleOf(cs: seq<SpanCollection>, labels: seq<CollectId>, groups: seq<Group>, groups': seq<Group>,
                          anchor: Anchor)
    requires |cs| == |labels|
  {
    forall c :: GroupsFor(groups', c) == GroupsFor(groups, c) + Singles(Labelled(cs, labels, c), anchor)
  }

  lemma {:induction false} StaleStep(cs: seq<SpanCollection>, labels: seq<CollectId>, i: nat, groups: seq<Group>,
                                     groups': seq<Group>, anchor: Anchor)
    requires |cs| == |labels| && i < |cs| && StaleOf(cs[..i], labels[..i], groups, groups', anchor)
    ensures var group := Group(labels[i], Postprocessed([cs[i]], map[], anchor));
            StaleOf(cs[..i + 1], labels[..i + 1], groups, groups' + [group], anchor)
  {
    hide GroupsFor, Singles, Labelled, Postprocessed;
    var group := Group(labels[i], Postprocessed([cs[i]], map[], anchor));
    forall c
      ensures GroupsFor(groups' + [group], c) ==
                GroupsFor(groups, c) + Singles(Labelled(cs[..i + 1], labels[..i + 1], c), anchor)
    {
      GroupsForAppend(groups', group, c);
      SinglesStep(cs, labels, i, c, anchor);
    }
  }

  lemma {:induction false} FilledByNothing(active: map<CollectId, ActiveCollector>)
    ensures forall c :: Filled(Lookup(active, c), []) == Lookup(active, c)
  {
    assert forall a: ActiveCollector :: a.spanCollections + [] == a.spanCollections;
  }

  lemma {:induction false} FilledTwice(a: Option<ActiveCollector>, first: seq<SpanCollection>,
                                       second: seq<SpanCollection>)
    ensures Filled(Filled(a, first), second) == Filled(a, first + second)
  {
    if a.Some? {
      assert a.value.spanCollections + first + second == a.value.spanCollections + (first + second);
    }
  }

  lemma {:induction false} NothingRouted(active: map<CollectId, ActiveCollector>, spans: SpanSet, single: bool)
    ensures forall c :: RoutedItems(spans, single, [], c) == []
    ensures forall c :: Filled(Lookup(active, c), []) == Lookup(active, c)
  {
    FilledByNothing(active);
  }

  lemma {:induction false} TokenStep(active: map<CollectId, ActiveCollector>, spans: SpanSet, single: bool,
                                     items: seq<TokenItem>, item: TokenItem)
    ensures forall c :: RoutedItems(spans, single, items + [item], c) ==
                          RoutedItems(spans, single, items, c) + RoutedItems(spans, single, [item], c)
    ensures forall c :: Filled(Lookup(active, c), RoutedItems(spans, single, items + [item], c)) ==
                          Filled(Filled(Lookup(active, c), RoutedItems(spans, single, items, c)),
                                 RoutedItems(spans, single, [item], c))
  {
    assert Init(items + [item]) == items && Init([item]) == [];
    forall c ensures Filled(Lookup(active, c), RoutedItems(spans, single, items + [item], c)) ==
                       Filled(Filled(Lookup(active, c), RoutedItems(spans, single, items, c)),
                              RoutedItems(spans, single, [item], c))
    {
      FilledTwice(Lookup(active, c), RoutedItems(spans, single, items, c), RoutedItems(spans, single, [item], c));
      assert RoutedItems(spans, single, items + [item], c) ==
             RoutedItems(spans, single, items, c) + RoutedItems(spans, single, [item], c);
    }
  }

  lemma {:induction false} RoutedStep(active: map<CollectId, ActiveCollector>, commands: seq<Command>, command: Command)
    requires command.SubmitSpans?
    ensures forall c :: Routed(commands + [command], c) ==
                          Routed(commands, c) + RoutedItems(command.spans, |command.token| == 1, command.token, c)
    ensures forall c :: Filled(Lookup(active, c), Routed(commands + [command], c)) ==
                          Filled(Filled(Lookup(active, c), Routed(commands, c)),
                                 RoutedItems(command.spans, |command.token| == 1, command.token, c))
  {
    assert Init(commands + [command]) == commands;
    forall c ensures Filled(Lookup(active, c), Routed(commands + [command], c)) ==
                       Filled(Filled(Lookup(active, c), Routed(commands, c)),
                              RoutedItems(command.spans, |command.token| == 1, command.token, c))
    {
      FilledTwice(Lookup(active, c), Routed(commands, c),
                  RoutedItems(command.spans, |command.token| == 1, command.token, c));
    }
  }

  lemma {:induction false} SinglesStep(cs: seq<SpanCollection>, labels: seq<CollectId>, i: nat, c: CollectId,
                                       anchor: Anchor)
    requires |cs| == |labels| && i < |cs|
    ensures Singles(Labelled(cs[..i + 1], labels[..i + 1], c), anchor) ==
      Singles(Labelled(cs[..i], labels[..i], c), anchor) +
      if labels[i] == c then [Postprocessed([cs[i]], map[], anchor)] else []
  {
    assert Init(cs[..i + 1]) == cs[..i] && Init(labels[..i + 1]) == labels[..i];
  }

  lemma {:induction false} Sorted(commands: seq<Command>, command: Command)
    ensures StartIds(commands + [command]) == StartIds(commands) + if command.StartCollect? then [command.collectId]
            else []
    ensures DropIds(commands + [command]) == DropIds(commands) + if command.DropCollect? then [command.collectId]
            else []
    ensures CommitIds(commands + [command]) == CommitIds(commands) + if command.CommitCollect?
            then [command.collectId] else []
    ensures Submits(commands + [command]) == Submits(commands) + if command.SubmitSpans? then [command] else []
  {
    assert Init(commands + [command]) == commands;
  }

  lemma {:induction false} NothingSorted()
    ensures StartIds([]) == DropIds([]) == CommitIds([]) == [] && Submits([]) == []
  {
  }

  lemma {:induction false} SortedConcat(a: seq<Command>, b: seq<Command>)
    ensures StartIds(a + b) == StartIds(a) + StartIds(b)
    ensures DropIds(a + b) == DropIds(a) + DropIds(b)
    ensures CommitIds(a + b) == CommitIds(a) + CommitIds(b)
    ensures Submits(a + b) == Submits(a) + Submits(b)
  {
    if b == [] {
      assert a + b == a;
    } else {
      assert a + b == (a + Init(b)) + [Last(b)] && b == Init(b) + [Last(b)];
      SortedConcat(a, Init(b));
      Sorted(a + Init(b), Last(b));
      Sorted(Init(b), Last(b));
    }
  }

  /** The phases of a batch, seen from collect id `c`: `filled` after routing, then committed, live and stale groups. */
  lemma {:induction false} PhasesCompose(cancelable: bool, before: map<CollectId, ActiveCollector>,
                                         commands: seq<Command>, anchor: Anchor,
                                         filled: map<CollectId, ActiveCollector>,
                                         pending: map<CollectId, ActiveCollector>,
                                         after: map<CollectId, ActiveCollector>,
                                         committed: seq<Group>, live: seq<Group>, groups: seq<Group>, c: CollectId)
    requires Lookup(filled, c) == Filled(Opened(Lookup(before, c), commands, c), Routed(commands, c))
    requires Lookup(pending, c) == if c in CommitIds(commands) then None else Lookup(filled, c)
    requires GroupsFor(committed, c) == if c in CommitIds(commands) && c in filled then [Report(filled[c], anchor)]
             else []
    requires GroupsFor(live, c) == GroupsFor(committed, c) + if !cancelable && c in pending
             then [Report(pending[c], anchor)] else []
    requires Lookup(after, c) == if !cancelable && c in pending then Some(Emptied(pending[c], anchor))
             else Lookup(pending, c)
    requires GroupsFor(groups, c) ==
             GroupsFor(live, c) + Singles(if cancelable || c in filled then [] else Routed(commands, c), anchor)
    ensures IdDone(cancelable, before, commands, anchor, after, groups, c)
  {
    hide Report, Emptied, Routed, GroupsFor, Opened, Singles;
    NoSingles(anchor);
    if c in filled {
      assert GroupsFor(groups, c) == GroupsFor(live, c);
    } else {
      assert GroupsFor(committed, c) == [] && c !in pending;
    }
  }

  lemma {:induction false} NoSingles(anchor: Anchor)
    ensures Singles([], anchor) == []
  {
  }

  function Buffered(rxs: seq<Receiver>): seq<Command> {
    if rxs == [] then [] else Buffered(Init(rxs)) + Last(rxs).buffered
  }

  /** The receivers that stay registered: emptied ones whose sender is still alive. */
  function Drained(rxs: seq<Receiver>): seq<Receiver> {
    if rxs == [] then []
    else Drained(Init(rxs)) + (if Last(rxs).abandoned then [] else [Last(rxs).(buffered := [])])
  }

  /** `after` are the channels of `before` whose sender lives, all of them, in order and empty: the k-th one stood at
      place `at[k]`. */
  ghost predicate LiveAt(before: seq<Receiver>, after: seq<Receiver>, at: seq<nat>) {
    && |at| == |after|
    && (forall i, j :: 0 <= i < j < |at| ==> at[i] < at[j])
    && (forall k :: 0 <= k < |at| ==>
          at[k] < |before| && !before[at[k]].abandoned && after[k] == before[at[k]].(buffered := []))
    && (forall i :: 0 <= i < |before| && !before[i].abandoned ==> i in at)
  }

  ghost predicate LiveOnes(before: seq<Receiver>, after: seq<Receiver>) {
    exists at: seq<nat> :: LiveAt(before, after, at)
  }

  lemma {:induction false} DrainedAreLive(rxs: seq<Receiver>)
    ensures LiveOnes(rxs, Drained(rxs))
  {
    var at := LivePlaces(rxs);
  }

  lemma {:induction false} LivePlaces(rxs: seq<Receiver>) returns (at: seq<nat>)
    ensures LiveAt(rxs, Drained(rxs), at)
  {
    if rxs == [] {
      at := [];
    } else {
      at := LivePlaces(Init(rxs));
      if !Last(rxs).abandoned {
        at := at + [|rxs| - 1];
      }
    }
  }

  /** What a batch does to collect id `c`. */
  ghost predicate IdDone(cancelable: bool, before: map<CollectId, ActiveCollector>, commands: seq<Command>,
                         anchor: Anchor, after: map<CollectId, ActiveCollector>, groups: seq<Group>, c: CollectId)
  {
    Outcome(Lookup(after, c), GroupsFor(groups, c)) == IdBatch(cancelable, Lookup(before, c), commands, c, anchor)
  }

  ghost predicate BatchDone(cancelable: bool, before: map<CollectId, ActiveCollector>, commands: seq<Command>,
                            anchor: Anchor, after: map<CollectId, ActiveCollector>, groups: seq<Group>)
  {
    forall c :: IdDone(cancelable, before, commands, anchor, after, groups, c)
  }
}

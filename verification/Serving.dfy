/** The thread of the collector (fastrace/src/collector/global_collector.rs): batch after batch on one collector object,
    with threads that register a channel, send and disappear in between. */
module Serving {
  import opened Records
  import opened GlobalCollectors
  import opened CollectorRuns

  /** What happens before a batch: threads register their channels, send, and some of them end. */
  datatype Arrival = Arrival(newcomers: seq<nat>, sent: map<nat, seq<Command>>, ended: set<nat>) {
    function SentBy(t: nat): seq<Command> {
      if t in sent then sent[t] else []
    }
  }

  function NewChannel(t: nat): Receiver {
    Receiver(t, [], false)
  }

  function Joined(rxs: seq<Receiver>, newcomers: seq<nat>): seq<Receiver> {
    rxs + seq(|newcomers|, i requires 0 <= i < |newcomers| => NewChannel(newcomers[i]))
  }

  function Refilled(rxs: seq<Receiver>, arrival: Arrival): seq<Receiver> {
    seq(|rxs|, i requires 0 <= i < |rxs| =>
      rxs[i].(buffered := rxs[i].buffered + arrival.SentBy(rxs[i].thread),
              abandoned := rxs[i].abandoned || rxs[i].thread in arrival.ended))
  }

  /** The channels that batch `k` finds are those kept before it and the new ones, refilled. Afterwards the live ones
      are kept, empty. */
  ghost predicate Served(arrivals: seq<Arrival>, anchors: seq<Anchor>, kept: seq<seq<Receiver>>,
                         found: seq<seq<Receiver>>, batches: seq<Batch>)
  {
    && |arrivals| == |anchors| == |found| == |batches| && |kept| == |arrivals| + 1
    && forall k :: 0 <= k < |arrivals| ==> ServedAt(arrivals[k], anchors[k], kept[k], found[k], batches[k], kept[k + 1])
  }

  ghost predicate ServedAt(arrival: Arrival, anchor: Anchor, before: seq<Receiver>, found: seq<Receiver>, batch: Batch,
                           after: seq<Receiver>)
  {
    && found == Refilled(Joined(before, arrival.newcomers), arrival) && LiveOnes(found, after)
    && batch == Batch(Buffered(found), anchor)
  }

  /** Serving is a run, and what it hands to the reporter are the records of the run's groups. */
  method Serve(collector: GlobalCollector, arrivals: seq<Arrival>, anchors: seq<Anchor>)
    returns (ghost batches: seq<Batch>, ghost states: seq<map<CollectId, ActiveCollector>>,
             ghost groups: seq<seq<Group>>, ghost kept: seq<seq<Receiver>>, ghost found: seq<seq<Receiver>>)
    requires collector.Valid() && collector.hasReporter && collector.active == map[] && |arrivals| == |anchors|
    modifies collector
    ensures Served(arrivals, anchors, kept, found, batches) && kept[0] == old(collector.rxs)
    ensures IsRun(collector.cancelable, batches, states, groups)
    ensures collector.Valid() && collector.active == Last(states) && collector.rxs == Last(kept)
    ensures collector.reports == old(collector.reports) + ReportsOf(groups)
  {
    hide BatchDone, Buffered, AllRecords, LiveOnes, Refilled;
    batches, states, groups, kept, found := [], [map[]], [], [collector.rxs], [];
    for k := 0 to |arrivals|
      invariant collector.Valid() && collector.hasReporter
      invariant Served(arrivals[..k], anchors[..k], kept, found, batches)
      invariant kept[0] == old(collector.rxs) && collector.rxs == Last(kept)
      invariant IsRun(collector.cancelable, batches, states, groups) && collector.active == Last(states)
      invariant collector.reports == old(collector.reports) + ReportsOf(groups)
    {
      RegisterAll(collector, arrivals[k].newcomers);
      collector.rxs := Refilled(collector.rxs, arrivals[k]);
      ghost var channels := collector.rxs;
      ghost var reported := collector.HandleCommands(anchors[k]);
      ghost var batch := Batch(Buffered(channels), anchors[k]);
      RunGrows(collector.cancelable, batches, states, groups, batch, collector.active, reported);
      ServedGrows(arrivals, anchors, k, kept, found, batches, channels, batch, collector.rxs);
      batches, found := batches + [batch], found + [channels];
      states, kept := states + [collector.active], kept + [collector.rxs];
      assert ReportsOf(groups + [reported]) == ReportsOf(groups) + [AllRecords(reported)];
      groups := groups + [reported];
    }
    assert arrivals[..|arrivals|] == arrivals && anchors[..|anchors|] == anchors;
  }

  method RegisterAll(collector: GlobalCollector, newcomers: seq<nat>)
    requires collector.Valid()
    modifies collector
    ensures collector.Valid() && collector.rxs == Joined(old(collector.rxs), newcomers)
    ensures collector.hasReporter == old(collector.hasReporter) && collector.active == old(collector.active)
    ensures collector.reports == old(collector.reports)
  {
    for i := 0 to |newcomers|
      invariant collector.Valid() && collector.rxs == Joined(old(collector.rxs), newcomers[..i])
      invariant collector.hasReporter == old(collector.hasReporter) && collector.active == old(collector.active)
      invariant collector.reports == old(collector.reports)
    {
      collector.RegisterReceiver(NewChannel(newcomers[i]));
    }
    assert newcomers[..|newcomers|] == newcomers;
  }

  lemma {:induction false} ServedGrows(arrivals: seq<Arrival>, anchors: seq<Anchor>, k: nat, kept: seq<seq<Receiver>>,
                                       found: seq<seq<Receiver>>, batches: seq<Batch>, channels: seq<Receiver>,
                                       batch: Batch, after: seq<Receiver>)
    requires k < |arrivals| == |anchors| && Served(arrivals[..k], anchors[..k], kept, found, batches)
    requires ServedAt(arrivals[k], anchors[k], Last(kept), channels, batch, after)
    ensures Served(arrivals[..k + 1], anchors[..k + 1], kept + [after], found + [channels], batches + [batch])
  {
    hide ServedAt;
    forall i | 0 <= i < k + 1
      ensures ServedAt(arrivals[..k + 1][i], anchors[..k + 1][i], (kept + [after])[i], (found + [channels])[i],
                       (batches + [batch])[i], (kept + [after])[i + 1])
    {
      if i < k {
        assert ServedAt(arrivals[..k][i], anchors[..k][i], kept[i], found[i], batches[i], kept[i + 1]);
      }
    }
  }

  // A living thread is heard

  /** Thread `t` has an open channel, empty, at place `i`. */
  ghost predicate OpenAt(rxs: seq<Receiver>, t: nat, i: nat) {
    i < |rxs| && rxs[i] == NewChannel(t)
  }

  lemma {:induction false} BufferedConcat(a: seq<Receiver>, b: seq<Receiver>)
    ensures Buffered(a + b) == Buffered(a) + Buffered(b)
  {
    if b == [] {
      assert a + b == a;
    } else {
      InitOfConcat(a, b);
      BufferedConcat(a, Init(b));
    }
  }

  lemma {:induction false} BufferedSplit(rxs: seq<Receiver>, i: nat)
    requires i < |rxs|
    ensures Buffered(rxs) == Buffered(rxs[..i]) + rxs[i].buffered + Buffered(rxs[i + 1..])
  {
    InitOfPrefix(rxs, i + 1);
    assert rxs == rxs[..i + 1] + rxs[i + 1..];
    BufferedConcat(rxs[..i + 1], rxs[i + 1..]);
  }

  /** A thread that has a channel or registers one is heard by the batch: it drains exactly what the thread sent, in one
      piece. Unless the thread ends, its channel is kept, empty. */
  lemma {:induction false} HeardAt(arrival: Arrival, anchor: Anchor, before: seq<Receiver>, found: seq<Receiver>,
                                   batch: Batch, after: seq<Receiver>, t: nat, i: nat)
    returns (drain: Drain, j: nat)
    requires ServedAt(arrival, anchor, before, found, batch, after)
    requires OpenAt(Joined(before, arrival.newcomers), t, i)
    ensures drain.mine == arrival.SentBy(t) && drain.anchor == anchor
    ensures batch.commands == drain.before + drain.mine + drain.after
    ensures t !in arrival.ended ==> OpenAt(after, t, j)
  {
    hide Buffered;
    BufferedSplit(found, i);
    drain := Drain(Buffered(found[..i]), arrival.SentBy(t), Buffered(found[i + 1..]), anchor);
    assert found[i].buffered == [] + arrival.SentBy(t) == arrival.SentBy(t);
    j := 0;
    if t !in arrival.ended {
      var at: seq<nat> :| LiveAt(found, after, at);
      assert i in at;
      j :| 0 <= j < |at| && at[j] == i;
    }
  }

  /** What thread `t` sends from arrival `a` on. */
  function SentSince(arrivals: seq<Arrival>, t: nat, a: nat): seq<Command> {
    if |arrivals| <= a then [] else SentSince(Init(arrivals), t, a) + Last(arrivals).SentBy(t)
  }

  /** From the batch after its registration on, and as long as it lives, everything a thread sends is drained, in order
      and once, each time by the next batch: the batches are drains of its channel. */
  lemma {:induction false} LivingIsHeard(arrivals: seq<Arrival>, anchors: seq<Anchor>, kept: seq<seq<Receiver>>,
                                         found: seq<seq<Receiver>>, batches: seq<Batch>, t: nat, a: nat)
    returns (drains: seq<Drain>, last: nat)
    requires Served(arrivals, anchors, kept, found, batches) && a < |arrivals| && t in arrivals[a].newcomers
    requires forall k :: a <= k < |arrivals| - 1 ==> t !in arrivals[k].ended
    ensures |drains| == |batches| && ToBatches(drains) == batches
    ensures Mine(drains) == SentSince(arrivals, t, a)
    ensures forall k :: 0 <= k < |drains| ==> drains[k].mine == if k < a then [] else arrivals[k].SentBy(t)
    ensures t !in Last(arrivals).ended ==> OpenAt(Last(kept), t, last)
    decreases |arrivals|
  {
    hide Buffered, LiveOnes, Joined, Refilled, OpenAt, ServedAt, Mine, ToBatches, SentSince;
    var n := |arrivals| - 1;
    assert ServedAt(arrivals[n], anchors[n], kept[n], found[n], batches[n], kept[n + 1]);
    var earlier: seq<Drain>, place: nat;
    if n == a {
      earlier := UnheardDrains(batches[..n]);
      place := NewcomerPlace(kept[n], arrivals[n].newcomers, t);
    } else {
      ServedInit(arrivals, anchors, kept, found, batches);
      earlier, place := LivingIsHeard(Init(arrivals), Init(anchors), Init(kept), Init(found), Init(batches), t, a);
      OldPlace(kept[n], arrivals[n].newcomers, t, place);
    }
    var drain;
    drain, last := HeardAt(arrivals[n], anchors[n], kept[n], found[n], batches[n], kept[n + 1], t, place);
    drains := earlier + [drain];
    BatchAnchor(arrivals[n], anchors[n], kept[n], found[n], batches[n], kept[n + 1]);
    AppendDrain(earlier, drain);
    assert batches == batches[..n] + [batches[n]];
    SinceOneMore(arrivals, t, a);
    if n == a {
      NothingMine(earlier);
      NothingSince(Init(arrivals), t, a);
    }
  }

  lemma {:induction false} ServedInit(arrivals: seq<Arrival>, anchors: seq<Anchor>, kept: seq<seq<Receiver>>,
                                      found: seq<seq<Receiver>>, batches: seq<Batch>)
    requires Served(arrivals, anchors, kept, found, batches) && arrivals != []
    ensures Served(Init(arrivals), Init(anchors), Init(kept), Init(found), Init(batches))
  {
    hide ServedAt;
    forall k | 0 <= k < |arrivals| - 1
      ensures ServedAt(Init(arrivals)[k], Init(anchors)[k], Init(kept)[k], Init(found)[k], Init(batches)[k],
                       Init(kept)[k + 1])
    {
      assert ServedAt(arrivals[k], anchors[k], kept[k], found[k], batches[k], kept[k + 1]);
    }
  }

  lemma {:induction false} AppendDrain(drains: seq<Drain>, drain: Drain)
    ensures ToBatches(drains + [drain])
            == ToBatches(drains) + [Batch(drain.before + drain.mine + drain.after, drain.anchor)]
    ensures Mine(drains + [drain]) == Mine(drains) + drain.mine
  {
    assert Init(drains + [drain]) == drains;
  }

  lemma {:induction false} SinceOneMore(arrivals: seq<Arrival>, t: nat, a: nat)
    requires |arrivals| > a
    ensures SentSince(arrivals, t, a) == SentSince(Init(arrivals), t, a) + Last(arrivals).SentBy(t)
  {
  }

  lemma {:induction false} BatchAnchor(arrival: Arrival, anchor: Anchor, before: seq<Receiver>, found: seq<Receiver>,
                                       batch: Batch, after: seq<Receiver>)
    requires ServedAt(arrival, anchor, before, found, batch, after)
    ensures batch.anchor == anchor
  {
  }

  lemma {:induction false} NothingSince(arrivals: seq<Arrival>, t: nat, a: nat)
    requires |arrivals| <= a
    ensures SentSince(arrivals, t, a) == []
  {
  }

  lemma {:induction false} NewcomerPlace(rxs: seq<Receiver>, newcomers: seq<nat>, t: nat) returns (i: nat)
    requires t in newcomers
    ensures OpenAt(Joined(rxs, newcomers), t, i)
  {
    var k :| 0 <= k < |newcomers| && newcomers[k] == t;
    i := |rxs| + k;
  }

  lemma {:induction false} OldPlace(rxs: seq<Receiver>, newcomers: seq<nat>, t: nat, i: nat)
    requires OpenAt(rxs, t, i)
    ensures OpenAt(Joined(rxs, newcomers), t, i)
  {
  }

  /** Batches before the thread registered. */
  lemma {:induction false} UnheardDrains(batches: seq<Batch>) returns (drains: seq<Drain>)
    ensures |drains| == |batches| && ToBatches(drains) == batches
    ensures forall k :: 0 <= k < |drains| ==> drains[k].mine == []
  {
    drains := seq(|batches|, k requires 0 <= k < |batches| => Drain(batches[k].commands, [], [], batches[k].anchor));
    forall k | 0 <= k < |batches| ensures ToBatches(drains)[k] == batches[k] {
      assert batches[k].commands + [] + [] == batches[k].commands;
    }
  }

  lemma {:induction false} NothingMine(drains: seq<Drain>)
    requires forall k :: 0 <= k < |drains| ==> drains[k].mine == []
    ensures Mine(drains) == []
  {
    if drains != [] {
      NothingMine(Init(drains));
    }
  }
}

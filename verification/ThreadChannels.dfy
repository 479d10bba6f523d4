/** The channels of all threads between the token protocol and the collector (fastrace/src/util/spsc.rs with
    fastrace/src/collector/global_collector.rs): commands pass a bounded ring and a pending list, plain sends can be
    refused and forced ones can overtake each other. What this does to a cancelled and to a committed root. */
module ThreadChannels {
  import opened Records
  import opened GlobalCollectors
  import opened CollectorRuns
  import opened Lineage
  import opened RootCommands
  import opened RootOutcomes
  import Postprocess
  import Spsc

  type Calls = seq<Spsc.Op<Command>>

  /** What a thread tried to send, in order, whether it was accepted or not. */
  function Attempts(calls: Calls): seq<Command> {
    if calls == [] then []
    else
      Attempts(Init(calls)) +
      match Last(calls)
      case SendOp(command) => [command]
      case ForceOp(command) => [command]
      case ReceiveOp => []
  }

  /** Starts and submits are sent, drops and commits are forced. */
  ghost predicate ByKind(calls: Calls) {
    && (forall k :: 0 <= k < |calls| && calls[k].SendOp? ==>
         calls[k].value.StartCollect? || calls[k].value.SubmitSpans?)
    && (forall k :: 0 <= k < |calls| && calls[k].ForceOp? ==>
         calls[k].value.DropCollect? || calls[k].value.CommitCollect?)
  }

  ghost predicate CallsOf(w: World, t: nat, calls: Calls) {
    Attempts(calls) == ChannelOf(w.sent, t) && ByKind(calls)
  }

  function Received(capacity: nat, calls: Calls): seq<Command> {
    Spsc.Run(capacity, calls).received
  }

  /** What the collector received from the first `n` threads other than `t`. */
  ghost function ReceivedBag(capacity: nat, calls: seq<Calls>, n: nat, t: nat): multiset<Command>
    requires n <= |calls|
  {
    if n == 0 then multiset{}
    else
      ReceivedBag(capacity, calls, n - 1, t) +
      if n - 1 == t then multiset{} else multiset(Received(capacity, calls[n - 1]))
  }

  /** All threads send through their channels, and the batches drain what comes out of them: thread `t`'s in the order
      of its channel. Nothing is assumed about when sends and receives happen or whether a channel overflows. */
  ghost predicate Through(w: World, capacity: nat, calls: seq<Calls>, t: nat, drains: seq<Drain>) {
    && t < |calls| && (forall u :: 0 <= u < |calls| ==> CallsOf(w, u, calls[u]))
    && Mine(drains) == Received(capacity, calls[t])
    && multiset(Foreign(drains)) == ReceivedBag(capacity, calls, |calls|, t)
  }

  // Channels never invent or duplicate a command

  lemma {:induction false} AcceptedIsAttempted(capacity: nat, calls: Calls)
    ensures multiset(Spsc.Run(capacity, calls).accepted) <= multiset(Attempts(calls))
  {
    if calls != [] {
      hide Spsc.Flushed, Spsc.Run, Attempts;
      AcceptedIsAttempted(capacity, Init(calls));
      Spsc.RunStep(capacity, calls);
      AcceptsAtMost(Spsc.Run(capacity, Init(calls)), capacity, Last(calls));
      AttemptsOneMore(calls);
    }
  }

  lemma {:induction false} AttemptsOneMore(calls: Calls)
    requires calls != []
    ensures !Last(calls).ReceiveOp? ==>
              && Attempts(calls) == Attempts(Init(calls)) + [Last(calls).value]
              && multiset(Attempts(calls)) == multiset(Attempts(Init(calls))) + multiset{Last(calls).value}
    ensures Last(calls).ReceiveOp? ==> Attempts(calls) == Attempts(Init(calls))
  {
  }

  lemma {:induction false} AcceptsAtMost(h: Spsc.History<Command>, capacity: nat, call: Spsc.Op<Command>)
    ensures var accepted := Spsc.Step(h, capacity, call).accepted;
            accepted == h.accepted || (!call.ReceiveOp? && accepted == h.accepted + [call.value]
                                       && multiset(accepted) == multiset(h.accepted) + multiset{call.value})
    ensures call.ForceOp? ==> Spsc.Step(h, capacity, call).accepted == h.accepted + [call.value]
  {
    hide Spsc.Flushed;
  }

  lemma {:induction false} ReceivedIsAttempted(capacity: nat, calls: Calls)
    ensures multiset(Received(capacity, calls)) <= multiset(Attempts(calls))
  {
    hide Spsc.Run, Attempts;
    AcceptedIsAttempted(capacity, calls);
    Spsc.ExactlyOnce(capacity, calls);
  }

  ghost function ChannelBag(sent: seq<Sent>, n: nat, t: nat): multiset<Command> {
    if n == 0 then multiset{}
    else ChannelBag(sent, n - 1, t) + if n - 1 == t then multiset{} else multiset(ChannelOf(sent, n - 1))
  }

  lemma {:induction false} ChannelBagOneMore(sent: seq<Sent>, n: nat, t: nat)
    requires sent != []
    ensures ChannelBag(sent, n, t)
            == ChannelBag(Init(sent), n, t)
               + if Last(sent).thread < n && Last(sent).thread != t then multiset{ToCommand(Last(sent))} else multiset{}
  {
    hide ToCommand, ChannelOf;
    if n > 0 {
      var less, own := ChannelBag(Init(sent), n - 1, t), multiset(ChannelOf(Init(sent), n - 1));
      ChannelBagOneMore(sent, n - 1, t);
      ChannelOneMore(sent, n - 1);
      AddInAnyOrder(less, own, multiset{ToCommand(Last(sent))});
    }
  }

  lemma {:induction false} AddInAnyOrder(a: multiset<Command>, b: multiset<Command>, c: multiset<Command>)
    ensures a + (b + c) == (a + b) + c && (a + c) + b == (a + b) + c && a + multiset{} == a
  {
  }

  lemma {:induction false} ChannelOneMore(sent: seq<Sent>, u: nat)
    requires sent != []
    ensures multiset(ChannelOf(sent, u))
            == multiset(ChannelOf(Init(sent), u))
               + if Last(sent).thread == u then multiset{ToCommand(Last(sent))} else multiset{}
  {
    hide ToCommand;
    if Last(sent).thread == u {
      var before, last := ChannelOf(Init(sent), u), ToCommand(Last(sent));
      assert ChannelOf(sent, u) == before + [last];
      assert multiset(before + [last]) == multiset(before) + multiset{last};
    } else {
      assert ChannelOf(sent, u) == ChannelOf(Init(sent), u);
    }
  }

  lemma {:induction false} ChannelBagBelow(sent: seq<Sent>, n: nat, t: nat)
    ensures ChannelBag(sent, n, t) <= multiset(OthersOf(sent, t))
  {
    hide ToCommand, ChannelOf, ChannelBag;
    if sent == [] {
      NothingSent(n, t);
    } else {
      ChannelBagBelow(Init(sent), n, t);
      ChannelBagOneMore(sent, n, t);
    }
  }

  lemma {:induction false} NothingSent(n: nat, t: nat)
    ensures ChannelBag([], n, t) == multiset{}
  {
    if n > 0 {
      NothingSent(n - 1, t);
      assert ChannelOf([], n - 1) == [];
    }
  }

  lemma {:induction false} ReceivedBagBelow(w: World, capacity: nat, calls: seq<Calls>, n: nat, t: nat)
    requires n <= |calls| && forall u :: 0 <= u < |calls| ==> CallsOf(w, u, calls[u])
    ensures ReceivedBag(capacity, calls, n, t) <= ChannelBag(w.sent, n, t)
  {
    hide Received, Attempts, ChannelOf, ByKind;
    if n > 0 {
      ReceivedBagBelow(w, capacity, calls, n - 1, t);
      ReceivedIsAttempted(capacity, calls[n - 1]);
      assert CallsOf(w, n - 1, calls[n - 1]);
    }
  }

  /** However the channels overflow, each command that was sent is drained at most once. */
  lemma {:induction false} ChannelsDrainOnce(w: World, capacity: nat, calls: seq<Calls>, t: nat, drains: seq<Drain>)
    requires Through(w, capacity, calls, t, drains)
    ensures ForeignOnce(w, t, drains) && DrainedFrom(w, ToBatches(drains))
  {
    hide Received, Attempts, ChannelOf, ByKind, Mine, Foreign, ReceivedBag, ChannelBag, OthersOf, Concat;
    ReceivedBagBelow(w, capacity, calls, |calls|, t);
    ChannelBagBelow(w.sent, |calls|, t);
    ReceivedIsAttempted(capacity, calls[t]);
    assert CallsOf(w, t, calls[t]);
    DrainedBag(drains);
    ChannelAndOthers(w.sent, t);
    assert CommandsOf(w.sent) == SentCommands(w);
  }

  // When a root is reported

  /** Batch `k` drains the commit of `c`, at or after its start, with no drop in between. */
  ghost predicate ReportsAt(batches: seq<Batch>, c: CollectId, k: nat)
    requires k < |batches|
  {
    CommitCollect(c) in batches[k].commands && exists s :: 0 <= s <= k && OpenFrom(batches, c, s, k)
  }

  ghost predicate OpenFrom(batches: seq<Batch>, c: CollectId, s: nat, k: nat)
    requires s <= k < |batches|
  {
    StartCollect(c) in batches[s].commands && forall j :: s <= j <= k ==> DropCollect(c) !in batches[j].commands
  }

  lemma {:induction false} CommitSentOnce(capacity: nat, steps: seq<Step>, w: World, c: CollectId)
    requires Lineage.Reaches(capacity, steps, w) && w.nextCollectId <= NOT_SAMPLED_COLLECT_ID
    requires c != NOT_SAMPLED_COLLECT_ID
    ensures multiset(SentCommands(w))[CommitCollect(c)] <= 1
  {
    hide Lineage.Reaches, Inv;
    ReachableInv(capacity, steps, w);
    ReachableDisciplined(capacity, steps, w);
    var commands := SentCommands(w);
    forall i: nat | i < |commands| && commands[i] == CommitCollect(c) ensures CommitsAt(w, i, c) {
      ControlCommand(w, i, c);
    }
    CountAtMostOnce(commands, CommitCollect(c));
  }

  lemma {:induction false} InOneBatch(w: World, batches: seq<Batch>, command: Command, j: nat, k: nat)
    requires multiset(SentCommands(w))[command] <= 1 && DrainedFrom(w, batches)
    requires j < |batches| && k < |batches| && j != k && command in batches[k].commands
    ensures command !in batches[j].commands
  {
    hide Concat, SentCommands;
    TwoInConcat(batches, if j < k then j else k, if j < k then k else j);
    BothContain(batches[j].commands, batches[k].commands, command);
  }

  /** For every way of draining, in whatever order and with whatever losses: a batch reports the records of a collect id
      if and only if it drains the commit, and the start was drained before or with it and no drop from there on. */
  lemma {:induction false} ReportedExactly(capacity: nat, steps: seq<Step>, w: World, batches: seq<Batch>,
                                           states: seq<map<CollectId, ActiveCollector>>, groups: seq<seq<Group>>,
                                           c: CollectId, k: nat)
    requires Lineage.Reaches(capacity, steps, w) && w.nextCollectId <= NOT_SAMPLED_COLLECT_ID
    requires c != NOT_SAMPLED_COLLECT_ID && DrainedFrom(w, batches)
    requires IsRun(true, batches, states, groups) && k < |batches|
    ensures |groups| == |batches| && (GroupsFor(groups[k], c) != [] <==> ReportsAt(batches, c, k))
  {
    hide Inv, Lineage.Reaches, IsRun, GroupsFor, StartIds, DropIds, CommitIds, DrainedFrom, StartsNumbered,
         SentCommands;
    ReachableInv(capacity, steps, w);
    ReachableStarts(capacity, steps, w);
    CommitSentOnce(capacity, steps, w, c);
    RunLengths(true, batches, states, groups);
    var s := StartedInOneBatch(w, batches, c);
    ReportedOnce(batches, states, groups, c, s);
    forall j | 0 <= j < |batches|
      ensures c in StartIds(batches[j].commands) <==> StartCollect(c) in batches[j].commands
      ensures c in DropIds(batches[j].commands) <==> DropCollect(c) in batches[j].commands
      ensures c in CommitIds(batches[j].commands) <==> CommitCollect(c) in batches[j].commands
    {
      CommandKinds(batches[j].commands, c);
    }
    if CommitCollect(c) in batches[k].commands {
      forall j | 0 <= j < k ensures CommitCollect(c) !in batches[j].commands {
        InOneBatch(w, batches, CommitCollect(c), j, k);
      }
    }
    CommitBatchExactly(batches, c, s, k);
  }

  lemma {:induction false} CommitBatchExactly(batches: seq<Batch>, c: CollectId, s: nat, k: nat)
    requires k < |batches| && StartedOnlyIn(batches, c, s)
    requires forall j :: 0 <= j < |batches| ==>
               && (c in StartIds(batches[j].commands) <==> StartCollect(c) in batches[j].commands)
               && (c in DropIds(batches[j].commands) <==> DropCollect(c) in batches[j].commands)
               && (c in CommitIds(batches[j].commands) <==> CommitCollect(c) in batches[j].commands)
    requires CommitCollect(c) in batches[k].commands ==>
               forall j :: 0 <= j < k ==> CommitCollect(c) !in batches[j].commands
    ensures CommitBatch(batches, c, s, k) <==> ReportsAt(batches, c, k)
  {
    hide StartIds, DropIds, CommitIds;
    var now := batches[..k + 1];
    assert Last(now) == batches[k];
    assert forall j :: 0 <= j <= k ==> now[j] == batches[j];
    if CommitBatch(batches, c, s, k) {
      forall j | s <= j <= k ensures DropCollect(c) !in batches[j].commands {
        assert now[j] == batches[j];
      }
      assert OpenFrom(batches, c, s, k);
    }
    if ReportsAt(batches, c, k) {
      var u :| 0 <= u <= k && OpenFrom(batches, c, u, k);
      assert u == s;
    }
  }

  // The order of a root's commands in its channel

  /** The commit is attempted after a drop, and no start after one. */
  ghost predicate Ordered(attempts: seq<Command>, c: CollectId) {
    && (forall j :: 0 <= j < |attempts| && attempts[j] == CommitCollect(c) ==> DropCollect(c) in attempts[..j])
    && (forall j :: 0 <= j < |attempts| && attempts[j] == StartCollect(c) ==> DropCollect(c) !in attempts[..j])
  }

  /** No start stands behind a drop. */
  ghost predicate StartFirst(commands: seq<Command>, c: CollectId) {
    forall i, j :: 0 <= i < j < |commands| && commands[i] == DropCollect(c) ==> commands[j] != StartCollect(c)
  }

  /** Every commit stands behind a drop. */
  ghost predicate DropFirst(commands: seq<Command>, c: CollectId) {
    forall j :: 0 <= j < |commands| && commands[j] == CommitCollect(c) ==> DropCollect(c) in commands[..j]
  }

  function Front(h: Spsc.History<Command>): seq<Command> {
    h.received + h.state.ring
  }

  lemma {:induction false} OrderedInit(calls: Calls, c: CollectId)
    requires calls != [] && Ordered(Attempts(calls), c) && ByKind(calls)
    ensures Ordered(Attempts(Init(calls)), c) && ByKind(Init(calls))
    ensures Last(calls) == Spsc.SendOp(StartCollect(c)) ==> DropCollect(c) !in Attempts(Init(calls))
    ensures Last(calls) == Spsc.ForceOp(CommitCollect(c)) ==> DropCollect(c) in Attempts(Init(calls))
    ensures !Last(calls).ReceiveOp? ==> Attempts(calls) == Attempts(Init(calls)) + [Last(calls).value]
    ensures Last(calls).ReceiveOp? ==> Attempts(calls) == Attempts(Init(calls))
  {
    var before, all := Attempts(Init(calls)), Attempts(calls);
    assert forall j :: 0 <= j < |before| ==> all[..j] == before[..j] && all[j] == before[j];
    if !Last(calls).ReceiveOp? {
      assert all[|before|] == Last(calls).value && all[..|before|] == before;
    }
  }

  /** A flush appends to the ring what it takes from the pending list. */
  lemma {:induction false} FlushAppends(s: Spsc.ChannelState<Command>, capacity: nat)
    ensures var f := Spsc.Flushed(s, capacity);
            && s.ring <= f.ring && (forall x <- f.pending :: x in s.pending)
            && (forall j :: |s.ring| <= j < |f.ring| ==> f.ring[j] in s.pending)
            && (forall x <- s.pending :: x in f.pending || x in f.ring)
    decreases |s.pending|
  {
    if s.pending != [] && |s.ring| < capacity {
      var next := Spsc.ChannelState(s.ring + [Last(s.pending)], Init(s.pending));
      FlushAppends(next, capacity);
      assert s.pending == Init(s.pending) + [Last(s.pending)];
      var f := Spsc.Flushed(s, capacity);
      assert f.ring[|s.ring|] == next.ring[|s.ring|] == Last(s.pending);
      forall x <- s.pending ensures x in f.pending || x in f.ring {
        if x == Last(s.pending) {
          assert f.ring[|s.ring|] == x;
        }
      }
    }
  }

  /** What holds of a channel under every interleaving: the list holds forced commands only, a drop that was attempted
      is kept, everything comes from attempts, and no start stands behind a drop. */
  ghost predicate ChannelGood(h: Spsc.History<Command>, attempts: seq<Command>, c: CollectId) {
    && (forall x <- h.state.pending :: x.DropCollect? || x.CommitCollect?)
    && (forall x <- h.state.pending :: x in attempts) && (forall x <- Front(h) :: x in attempts)
    && StartFirst(Front(h), c)
  }

  lemma {:induction false} AppendKeepsStartFirst(front: seq<Command>, more: seq<Command>, c: CollectId)
    requires StartFirst(front, c) && (StartCollect(c) in more ==> DropCollect(c) !in front && DropCollect(c) !in more)
    ensures StartFirst(front + more, c)
  {
    var all := front + more;
    forall i, j | 0 <= i < j < |all| && all[i] == DropCollect(c) ensures all[j] != StartCollect(c) {
      if j >= |front| {
        assert all[j] == more[j - |front|] && all[j] in more;
        if i < |front| {
          assert all[i] == front[i] && all[i] in front;
        } else {
          assert all[i] == more[i - |front|] && all[i] in more;
        }
      }
    }
  }

  lemma {:induction false} ChannelStaysGood(capacity: nat, calls: Calls, c: CollectId)
    requires Ordered(Attempts(calls), c) && ByKind(calls)
    ensures ChannelGood(Spsc.Run(capacity, calls), Attempts(calls), c)
  {
    hide Ordered, ByKind, Attempts, Spsc.Step, Spsc.Run, StartFirst, ChannelGood;
    if calls == [] {
      NothingGood(capacity, c);
    } else {
      OrderedInit(calls, c);
      ChannelStaysGood(capacity, Init(calls), c);
      Spsc.RunStep(capacity, calls);
      KindOf(calls);
      StepStaysGood(Spsc.Run(capacity, Init(calls)), capacity, Last(calls), Attempts(Init(calls)), Attempts(calls), c);
    }
  }

  lemma {:induction false} NothingGood(capacity: nat, c: CollectId)
    ensures ChannelGood(Spsc.Run(capacity, []), Attempts([]), c)
  {
    hide Spsc.Step;
    var h := Spsc.Run<Command>(capacity, []);
    assert Front(h) == [] && h.state.pending == [];
  }

  lemma {:induction false} NothingFirst(c: CollectId)
    ensures StartFirst([], c) && DropFirst([], c)
  {
  }

  lemma {:induction false} KindOf(calls: Calls)
    requires ByKind(calls) && calls != []
    ensures Last(calls).SendOp? ==> Last(calls).value.StartCollect? || Last(calls).value.SubmitSpans?
    ensures Last(calls).ForceOp? ==> Last(calls).value.DropCollect? || Last(calls).value.CommitCollect?
  {
  }

  lemma {:induction false} StepStaysGood(h: Spsc.History<Command>, capacity: nat, call: Spsc.Op<Command>,
                                         before: seq<Command>, after: seq<Command>, c: CollectId)
    requires ChannelGood(h, before, c)
    requires after == if call.ReceiveOp? then before else before + [call.value]
    requires call.SendOp? ==> call.value.StartCollect? || call.value.SubmitSpans?
    requires call.ForceOp? ==> call.value.DropCollect? || call.value.CommitCollect?
    requires call == Spsc.SendOp(StartCollect(c)) ==> DropCollect(c) !in before
    ensures ChannelGood(Spsc.Step(h, capacity, call), after, c)
  {
    hide Spsc.Flushed, StartFirst, Spsc.Step;
    if call.ReceiveOp? {
      ReceiveKeepsFront(h, capacity);
    } else {
      var flushed, kept := FlushedPart(h, capacity);
      var front := Front(h) + flushed;
      AppendKeepsStartFirst(Front(h), flushed, c);
      if call.value == StartCollect(c) {
        assert DropCollect(c) !in front;
      }
      AppendKeepsStartFirst(front, [call.value], c);
      GoodParts(front, h.state.pending, kept, before, call.value);
      SendFront(h, capacity, call, front, kept);
    }
  }

  lemma {:induction false} ReceiveKeepsFront(h: Spsc.History<Command>, capacity: nat)
    ensures var h' := Spsc.Step(h, capacity, Spsc.ReceiveOp);
            Front(h') == Front(h) && h'.state.pending == h.state.pending
  {
    hide Spsc.Flushed;
    if h.state.ring != [] {
      assert h.state.ring == [h.state.ring[0]] + h.state.ring[1..];
    }
  }

  /** What a flush takes out of the pending list and what it leaves there. */
  lemma {:induction false} FlushedPart(h: Spsc.History<Command>, capacity: nat)
    returns (flushed: seq<Command>, kept: seq<Command>)
    ensures Spsc.Flushed(h.state, capacity) == Spsc.ChannelState(h.state.ring + flushed, kept)
    ensures (forall x <- flushed :: x in h.state.pending) && forall x <- kept :: x in h.state.pending
  {
    hide Spsc.Flushed;
    FlushAppends(h.state, capacity);
    var f := Spsc.Flushed(h.state, capacity);
    flushed, kept := f.ring[|h.state.ring|..], f.pending;
    forall x <- flushed ensures x in h.state.pending {
      var j :| 0 <= j < |flushed| && flushed[j] == x;
      assert f.ring[|h.state.ring| + j] == x;
    }
  }

  /** A send leaves the flushed channel, with its value behind the ring or, if forced, possibly behind the list. */
  lemma {:induction false} SendFront(h: Spsc.History<Command>, capacity: nat, call: Spsc.Op<Command>,
                                     front: seq<Command>, kept: seq<Command>)
    requires !call.ReceiveOp? && |h.received + h.state.ring| <= |front|
    requires h.received <= front
    requires Spsc.Flushed(h.state, capacity) == Spsc.ChannelState(front[|h.received|..], kept)
    ensures var h' := Spsc.Step(h, capacity, call);
            || (Front(h') == front && h'.state.pending == kept)
            || (Front(h') == front + [call.value] && h'.state.pending == kept)
            || (call.ForceOp? && Front(h') == front && h'.state.pending == kept + [call.value])
  {
    hide Spsc.Flushed;
    var ring := front[|h.received|..];
    assert h.received + ring == front;
    assert h.received + (ring + [call.value]) == front + [call.value];
  }

  lemma {:induction false} GoodParts(front: seq<Command>, pending: seq<Command>, kept: seq<Command>,
                                     before: seq<Command>,
                                     value: Command)
    requires (forall x <- front :: x in before) && (forall x <- pending :: x in before)
    requires forall x <- kept :: x in pending
    ensures forall x <- front + [value] :: x in before + [value]
    ensures forall x <- kept + [value] :: x in before + [value]
    ensures forall x <- front :: x in before + [value]
    ensures forall x <- kept :: x in before + [value]
  {
  }

  /** Whatever comes out of the channel, a start never comes out behind a drop. */
  lemma {:induction false} ReceivedStartFirst(capacity: nat, calls: Calls, c: CollectId)
    requires Ordered(Attempts(calls), c) && ByKind(calls)
    ensures StartFirst(Received(capacity, calls), c)
  {
    hide Ordered, ByKind, Attempts, Spsc.Run;
    ChannelStaysGood(capacity, calls, c);
    var h := Spsc.Run(capacity, calls);
    assert forall i :: 0 <= i < |h.received| ==> Front(h)[i] == h.received[i];
  }

  /** Forced commands are always accepted, so that in the order of acceptance every commit is behind a drop. */
  lemma {:induction false} AcceptedDropFirst(capacity: nat, calls: Calls, c: CollectId)
    requires Ordered(Attempts(calls), c) && ByKind(calls)
    ensures var accepted := Spsc.Run(capacity, calls).accepted;
            DropFirst(accepted, c) && (DropCollect(c) in Attempts(calls) ==> DropCollect(c) in accepted)
  {
    hide Spsc.Flushed, Ordered, ByKind, Attempts, DropFirst, Spsc.Step;
    if calls == [] {
      NothingFirst(c);
      assert Attempts([]) == [] by { NoAttempts(); }
    } else {
      OrderedInit(calls, c);
      KindOf(calls);
      AcceptedDropFirst(capacity, Init(calls), c);
      var before := Spsc.Run(capacity, Init(calls)).accepted;
      AcceptsAtMost(Spsc.Run(capacity, Init(calls)), capacity, Last(calls));
      if !Last(calls).ReceiveOp? {
        DropFirstAppend(before, Last(calls).value, c);
      }
    }
  }

  lemma {:induction false} NoAttempts()
    ensures Attempts([]) == []
  {
  }

  lemma {:induction false} DropFirstAppend(commands: seq<Command>, command: Command, c: CollectId)
    requires DropFirst(commands, c)
    ensures (command == CommitCollect(c) ==> DropCollect(c) in commands) ==> DropFirst(commands + [command], c)
  {
    var all := commands + [command];
    assert forall j :: 0 <= j < |commands| ==> all[..j] == commands[..j] && all[j] == commands[j];
    assert all[..|commands|] == commands;
  }

  lemma {:induction false} PrefixDropFirst(a: seq<Command>, b: seq<Command>, c: CollectId)
    requires a <= b && DropFirst(b, c)
    ensures DropFirst(a, c)
  {
    assert forall j :: 0 <= j < |a| ==> a[..j] == b[..j] && a[j] == b[j];
  }

  /** The channel of a cancelled root's thread: the attempts are ordered because the token protocol orders them. */
  lemma {:induction false} RootOrdered(capacity: nat, steps: seq<Step>, w: World, t: nat, c: CollectId, d: nat)
    requires Lineage.Reaches(capacity, steps, w) && w.nextCollectId <= NOT_SAMPLED_COLLECT_ID
    requires c != NOT_SAMPLED_COLLECT_ID && DropsAt(w, d, c) && RootOn(w, t, c)
    ensures Ordered(ChannelOf(w.sent, t), c)
  {
    hide Lineage.Reaches, Inv, ChannelOf;
    ReachableInv(capacity, steps, w);
    ReachableDisciplined(capacity, steps, w);
    ReachableStarts(capacity, steps, w);
    var channel := ChannelOf(w.sent, t);
    forall j | 0 <= j < |channel|
      ensures channel[j] == CommitCollect(c) ==> DropCollect(c) in channel[..j]
      ensures channel[j] == StartCollect(c) ==> DropCollect(c) !in channel[..j]
    {
      var k := PlaceInChannel(w.sent, t, j);
      ControlCommand(w, k, c);
      if channel[j] == CommitCollect(c) {
        ControlCommand(w, d, c);
        InEarlierChannel(w.sent, t, d, k);
      }
      if channel[j] == StartCollect(c) && DropCollect(c) in channel[..j] {
        var e := InChannel(w.sent[..k], t, DropCollect(c));
        ControlCommand(w, e, c);
        StartBeforeDrop(w, c, k, e);
      }
    }
  }

  lemma {:induction false} StartBeforeDrop(w: World, c: CollectId, k: nat, d: nat)
    requires Disciplined(w) && StartsNumbered(w) && c != NOT_SAMPLED_COLLECT_ID && StartsAt(w, k, c) && DropsAt(w, d, c)
    ensures k < d
  {
    assert StartsBefore(w, d, c);
    var i: nat :| i < d && StartsAt(w, i, c);
  }

  /** The place among everything sent of the command at place `j` of a channel. */
  lemma {:induction false} PlaceInChannel(sent: seq<Sent>, t: nat, j: nat) returns (k: nat)
    requires j < |ChannelOf(sent, t)|
    ensures k < |sent| && sent[k].thread == t && ToCommand(sent[k]) == ChannelOf(sent, t)[j]
    ensures ChannelOf(sent[..k], t) == ChannelOf(sent, t)[..j]
  {
    if j < |ChannelOf(Init(sent), t)| {
      k := PlaceInChannel(Init(sent), t, j);
      assert Init(sent)[..k] == sent[..k];
    } else {
      k := |sent| - 1;
      assert sent[..k] == Init(sent);
    }
  }

  lemma {:induction false} InEarlierChannel(sent: seq<Sent>, t: nat, d: nat, k: nat)
    requires d < k <= |sent| && sent[d].thread == t
    ensures ToCommand(sent[d]) in ChannelOf(sent[..k], t)
  {
    hide ChannelOf;
    ChannelAt(sent[..k], t, d);
  }

  // A cancelled root

  lemma {:induction false} DrainedBefore(drains: seq<Drain>, p: nat, q: nat, j: nat, k: nat)
    requires j < |drains| && k < |drains| && j < k
    requires |Mine(drains[..j])| <= p < |Mine(drains[..j + 1])| && |Mine(drains[..k])| <= q < |Mine(drains[..k + 1])|
    ensures p < q
  {
    PiecesInOrder(drains, j + 1, k);
  }

  /** Through channels that may overflow: a batch reports the records of a cancelled root if and only if it drains the
      commit, the start has been drained by then, and the cancel has not. */
  lemma {:induction false} CancelledReportedExactly(queue: nat, steps: seq<Step>, w: World, capacity: nat,
                                                    calls: seq<Calls>, t: nat, drains: seq<Drain>,
                                                    states: seq<map<CollectId, ActiveCollector>>,
                                                    groups: seq<seq<Group>>, c: CollectId, d: nat, k: nat)
    requires Lineage.Reaches(queue, steps, w) && w.nextCollectId <= NOT_SAMPLED_COLLECT_ID
    requires c != NOT_SAMPLED_COLLECT_ID && DropsAt(w, d, c) && RootOn(w, t, c)
    requires Through(w, capacity, calls, t, drains) && IsRun(true, ToBatches(drains), states, groups)
    requires k < |drains|
    ensures |groups| == |drains|
    ensures var batches := ToBatches(drains);
            GroupsFor(groups[k], c) != []
            <==> && CommitCollect(c) in batches[k].commands
                 && (exists s :: 0 <= s <= k && StartCollect(c) in batches[s].commands)
                 && (forall j :: 0 <= j <= k ==> DropCollect(c) !in batches[j].commands)
  {
    hide Inv, Lineage.Reaches, IsRun, GroupsFor, DrainedFrom, Through, Mine;
    var batches := ToBatches(drains);
    ChannelsDrainOnce(w, capacity, calls, t, drains);
    ReportedExactly(queue, steps, w, batches, states, groups, c, k);
    forall s: nat, j: nat | s <= k && j < s && StartCollect(c) in batches[s].commands
      ensures DropCollect(c) !in batches[j].commands
    {
      DropNotBeforeStart(queue, steps, w, capacity, calls, t, drains, c, d, s, j);
    }
    if CommitCollect(c) in batches[k].commands && (forall j :: 0 <= j <= k ==> DropCollect(c) !in batches[j].commands) {
      if s: nat :| s <= k && StartCollect(c) in batches[s].commands {
        assert OpenFrom(batches, c, s, k);
      }
    }
  }

  lemma {:induction false} DropNotBeforeStart(queue: nat, steps: seq<Step>, w: World, capacity: nat, calls: seq<Calls>,
                                              t: nat, drains: seq<Drain>, c: CollectId, d: nat, s: nat, j: nat)
    requires Lineage.Reaches(queue, steps, w) && w.nextCollectId <= NOT_SAMPLED_COLLECT_ID
    requires c != NOT_SAMPLED_COLLECT_ID && DropsAt(w, d, c) && RootOn(w, t, c)
    requires Through(w, capacity, calls, t, drains) && j < s < |drains|
    requires StartCollect(c) in ToBatches(drains)[s].commands
    ensures DropCollect(c) !in ToBatches(drains)[j].commands
  {
    hide Inv, Lineage.Reaches, Mine, Received, ChannelOf, Attempts, ByKind, ReceivedBag, Foreign;
    ReachableInv(queue, steps, w);
    ChannelsDrainOnce(w, capacity, calls, t, drains);
    RootNotForeign(w, t, drains, c);
    RootOrdered(queue, steps, w, t, c, d);
    assert CallsOf(w, t, calls[t]);
    ReceivedStartFirst(capacity, calls[t], c);
    if DropCollect(c) in ToBatches(drains)[j].commands {
      var p := PositionOf(drains, j, DropCollect(c));
      var q := PositionOf(drains, s, StartCollect(c));
      DrainedBefore(drains, p, q, j, s);
    }
  }

  /** As long as no call on its thread's channel reorders, a cancelled root is never reported, even when sends are
      refused. */
  lemma {:induction false} CancelledInOrderNeverReported(queue: nat, steps: seq<Step>, w: World, capacity: nat,
                                                         calls: seq<Calls>, t: nat, drains: seq<Drain>,
                                                         states: seq<map<CollectId, ActiveCollector>>,
                                                         groups: seq<seq<Group>>, c: CollectId, d: nat)
    requires Lineage.Reaches(queue, steps, w) && w.nextCollectId <= NOT_SAMPLED_COLLECT_ID
    requires c != NOT_SAMPLED_COLLECT_ID && DropsAt(w, d, c) && RootOn(w, t, c)
    requires Through(w, capacity, calls, t, drains) && IsRun(true, ToBatches(drains), states, groups)
    requires forall k :: 0 <= k < |calls[t]| ==> !Spsc.ReordersAt(capacity, calls[t], k)
    ensures |groups| == |drains| && forall k :: 0 <= k < |drains| ==> GroupsFor(groups[k], c) == []
  {
    hide Inv, Lineage.Reaches, IsRun, GroupsFor, Mine, ReceivedBag, ChannelOf, Attempts, ByKind, Spsc.Run, DropFirst;
    var batches := ToBatches(drains);
    RunLengths(true, batches, states, groups);
    ReachableInv(queue, steps, w);
    ChannelsDrainOnce(w, capacity, calls, t, drains);
    RootNotForeign(w, t, drains, c);
    RootOrdered(queue, steps, w, t, c, d);
    assert CallsOf(w, t, calls[t]);
    AcceptedDropFirst(capacity, calls[t], c);
    Spsc.FirstInFirstOut(capacity, calls[t]);
    PrefixDropFirst(Mine(drains), Spsc.Run(capacity, calls[t]).accepted, c);
    forall k | 0 <= k < |drains| ensures GroupsFor(groups[k], c) == [] {
      CancelledReportedExactly(queue, steps, w, capacity, calls, t, drains, states, groups, c, d, k);
      if CommitCollect(c) in batches[k].commands {
        DropDrainedByThen(drains, c, k);
      }
    }
  }

  lemma {:induction false} DropDrainedByThen(drains: seq<Drain>, c: CollectId, k: nat)
    requires DropFirst(Mine(drains), c) && k < |drains| && CommitCollect(c) in ToBatches(drains)[k].commands
    requires forall d <- drains :: CommitCollect(c) !in d.before + d.after
    ensures exists j :: 0 <= j <= k && DropCollect(c) in ToBatches(drains)[j].commands
  {
    hide Mine;
    var p := PositionOf(drains, k, CommitCollect(c));
    assert DropCollect(c) in Mine(drains)[..p];
    var q: nat :| q < p && Mine(drains)[q] == DropCollect(c);
    var j := BatchOf(drains, q);
    if k < j {
      DrainedBefore(drains, p, q, k, j);
    }
    assert DropCollect(c) in ToBatches(drains)[j].commands;
  }

  // A committed root

  /** When no send is refused and no call reorders, the batches drain a first part of what the thread sent. */
  lemma {:induction false} InOrderDrains(w: World, capacity: nat, calls: seq<Calls>, t: nat, drains: seq<Drain>)
    requires Through(w, capacity, calls, t, drains)
    requires Spsc.Run(capacity, calls[t]).accepted == Attempts(calls[t])
    requires forall k :: 0 <= k < |calls[t]| ==> !Spsc.ReordersAt(capacity, calls[t], k)
    ensures DrainsOf(w, t, drains)
  {
    hide Spsc.Run, Attempts, ChannelOf, ByKind, Mine, Foreign, ReceivedBag, ForeignOnce;
    ChannelsDrainOnce(w, capacity, calls, t, drains);
    Spsc.FirstInFirstOut(capacity, calls[t]);
    assert CallsOf(w, t, calls[t]);
  }

  // Overflow

  /** A cancel can fail: while the ring is full, drop and commit wait in the pending list; the commit is taken from its
      back into the only free place, and the collector reports what has been submitted before it meets the drop. */
  lemma {:induction false} OverflowReportsCancelled(c: CollectId, anchor: Anchor)
    ensures var child := SubmitSpans(Single(BeginWith(9, NO_ID, 5, "child", SpanKind)),
                                     [TokenItem(7, 8, c, false, true)]);
            var calls := [Spsc.SendOp(StartCollect(c)), Spsc.SendOp(child), Spsc.ForceOp(DropCollect(c)),
                          Spsc.ForceOp(CommitCollect(c)), Spsc.ReceiveOp, Spsc.SendOp(child), Spsc.ReceiveOp,
                          Spsc.ReceiveOp];
            var h := Spsc.Run(2, calls);
            && h.received == [StartCollect(c), child, CommitCollect(c)] && h.state.pending == [DropCollect(c)]
            && |ReportedLast(true, [Batch(h.received, anchor)], c)| == 1
            && Keys(ReportedLast(true, [Batch(h.received, anchor)], c)[0]) == [Key(7, 9, 8)]
  {
    hide IdBatch;
    var child := SubmitSpans(Single(BeginWith(9, NO_ID, 5, "child", SpanKind)), [TokenItem(7, 8, c, false, true)]);
    OverflowRun(StartCollect(c), child, DropCollect(c), CommitCollect(c));
    OverflowBatch(c, child, anchor);
  }

  lemma {:induction false} OverflowRun(start: Command, child: Command, drop: Command, commit: Command)
    ensures var calls := [Spsc.SendOp(start), Spsc.SendOp(child), Spsc.ForceOp(drop), Spsc.ForceOp(commit),
                          Spsc.ReceiveOp, Spsc.SendOp(child), Spsc.ReceiveOp, Spsc.ReceiveOp];
            var h := Spsc.Run(2, calls);
            h.received == [start, child, commit] && h.state.pending == [drop]
  {
    hide Spsc.Run, Spsc.Step, Spsc.Flushed;
    var calls := [Spsc.SendOp(start), Spsc.SendOp(child), Spsc.ForceOp(drop), Spsc.ForceOp(commit),
                  Spsc.ReceiveOp, Spsc.SendOp(child), Spsc.ReceiveOp, Spsc.ReceiveOp];
    FillsUp(calls, start, child, drop, commit);
    var h4 := Spsc.History([start, child, drop, commit], [], Spsc.ChannelState([start, child], [drop, commit]));
    Receives(h4, 2);
    StepTo(calls, 4, h4);
    var h5 := Spsc.History(h4.accepted, [start], Spsc.ChannelState([child], [drop, commit]));
    NewestMovesUp(h5, 2, child);
    StepTo(calls, 5, h5);
    var h6 := Spsc.History(h4.accepted, [start], Spsc.ChannelState([child, commit], [drop]));
    Receives(h6, 2);
    StepTo(calls, 6, h6);
    var h7 := Spsc.History(h4.accepted, [start, child], Spsc.ChannelState([commit], [drop]));
    Receives(h7, 2);
    StepTo(calls, 7, h7);
    assert calls[..8] == calls;
  }

  lemma {:induction false} FillsUp(calls: Calls, start: Command, child: Command, drop: Command, commit: Command)
    requires |calls| >= 4 && calls[0] == Spsc.SendOp(start) && calls[1] == Spsc.SendOp(child)
    requires calls[2] == Spsc.ForceOp(drop) && calls[3] == Spsc.ForceOp(commit)
    ensures Spsc.Run(2, calls[..4])
            == Spsc.History([start, child, drop, commit], [], Spsc.ChannelState([start, child], [drop, commit]))
  {
    hide Spsc.Run, Spsc.Step, Spsc.Flushed;
    NothingRun();
    assert calls[..0] == [];
    var h0: Spsc.History<Command> := Spsc.History([], [], Spsc.ChannelState([], []));
    SendFits(h0, 2, start);
    StepTo(calls, 0, h0);
    var h1 := Spsc.History([start], [], Spsc.ChannelState([start], []));
    SendFits(h1, 2, child);
    StepTo(calls, 1, h1);
    var h2 := Spsc.History([start, child], [], Spsc.ChannelState([start, child], []));
    ForceWaits(h2, 2, drop);
    StepTo(calls, 2, h2);
    var h3 := Spsc.History([start, child, drop], [], Spsc.ChannelState([start, child], [drop]));
    ForceWaits(h3, 2, commit);
    StepTo(calls, 3, h3);
  }

  lemma {:induction false} StepTo(calls: Calls, n: nat, h: Spsc.History<Command>)
    requires n < |calls| && Spsc.Run(2, calls[..n]) == h
    ensures Spsc.Run(2, calls[..n + 1]) == Spsc.Step(h, 2, calls[n])
  {
    InitOfPrefix(calls, n + 1);
    Spsc.RunStep(2, calls[..n + 1]);
  }

  lemma {:induction false} NothingRun()
    ensures Spsc.Run<Command>(2, []) == Spsc.History([], [], Spsc.ChannelState([], []))
  {
  }

  lemma {:induction false} SendFits(h: Spsc.History<Command>, capacity: nat, command: Command)
    requires h.state.pending == [] && |h.state.ring| < capacity
    ensures Spsc.Step(h, capacity, Spsc.SendOp(command))
            == Spsc.History(h.accepted + [command], h.received, Spsc.ChannelState(h.state.ring + [command], []))
  {
  }

  lemma {:induction false} ForceWaits(h: Spsc.History<Command>, capacity: nat, command: Command)
    requires |h.state.ring| >= capacity
    ensures Spsc.Step(h, capacity, Spsc.ForceOp(command))
            == Spsc.History(h.accepted + [command], h.received,
                            Spsc.ChannelState(h.state.ring, h.state.pending + [command]))
  {
  }

  lemma {:induction false} Receives(h: Spsc.History<Command>, capacity: nat)
    requires h.state.ring != []
    ensures Spsc.Step(h, capacity, Spsc.ReceiveOp)
            == Spsc.History(h.accepted, h.received + [h.state.ring[0]],
                            Spsc.ChannelState(h.state.ring[1..], h.state.pending))
  {
  }

  /** With one free place and several pending messages, a refused send moves the newest of them into the ring. */
  lemma {:induction false} NewestMovesUp(h: Spsc.History<Command>, capacity: nat, command: Command)
    requires |h.state.pending| > 1 && |h.state.ring| == capacity - 1
    ensures Spsc.Step(h, capacity, Spsc.SendOp(command))
            == Spsc.History(h.accepted, h.received,
                            Spsc.ChannelState(h.state.ring + [Last(h.state.pending)], Init(h.state.pending)))
  {
    var f := Spsc.ChannelState(h.state.ring + [Last(h.state.pending)], Init(h.state.pending));
    assert Spsc.Flushed(f, capacity) == f;
    assert Spsc.Flushed(h.state, capacity) == f;
  }

  lemma {:induction false} OverflowBatch(c: CollectId, child: Command, anchor: Anchor)
    requires child == SubmitSpans(Single(BeginWith(9, NO_ID, 5, "child", SpanKind)), [TokenItem(7, 8, c, false, true)])
    ensures var last := ReportedLast(true, [Batch([StartCollect(c), child, CommitCollect(c)], anchor)], c);
            |last| == 1 && Keys(last[0]) == [Key(7, 9, 8)]
  {
    hide StartIds, DropIds, CommitIds, Keys, SubmittedKeys, ReportedLast, RoutedOver, CollectionKeys, Concat;
    var commands := [StartCollect(c), child, CommitCollect(c)];
    var batches := [Batch(commands, anchor)];
    assert Init(batches) == [];
    CommandKinds(commands, c);
    assert commands[0] == StartCollect(c) && commands[2] == CommitCollect(c);
    AllAtOnce(batches, c, 0);
    assert batches[0..] == batches;
    OverCommands(batches, c, commands);
    RoutedOverKeys(batches, c);
    ThreeCommands(c, child);
    PostprocessedKeysOf(batches, c, anchor);
  }

  lemma {:induction false} PostprocessedKeysOf(batches: seq<Batch>, c: CollectId, anchor: Anchor)
    ensures Keys(Postprocess.Postprocessed(RoutedOver(batches, c), map[], anchor))
            == CollectionKeys(RoutedOver(batches, c))
  {
    PostprocessedKeys(RoutedOver(batches, c), map[], anchor);
  }

  lemma {:induction false} OverCommands(batches: seq<Batch>, c: CollectId, commands: seq<Command>)
    requires |batches| == 1 && batches[0].commands == commands
    ensures Concat(batches) == commands
  {
    assert Init(batches) == [] && Concat([]) == [];
  }

  lemma {:induction false} ThreeCommands(c: CollectId, child: Command)
    requires child == SubmitSpans(Single(BeginWith(9, NO_ID, 5, "child", SpanKind)), [TokenItem(7, 8, c, false, true)])
    ensures SubmittedKeys([StartCollect(c), child, CommitCollect(c)], c) == [Key(7, 9, 8)]
  {
    assert Init([StartCollect(c), child, CommitCollect(c)]) == [StartCollect(c), child];
    assert Init([StartCollect(c), child]) == [StartCollect(c)] && Init([StartCollect(c)]) == [];
    assert Init(child.token) == [];
    assert ItemKeys(child.spans, child.token, c) == [Key(7, 9, 8)];
    assert SubmittedKeys([StartCollect(c)], c) == [];
  }
}

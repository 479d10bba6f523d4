/** What becomes of a trace, from the thread of its root to the reporter (fastrace/src/span.rs with
    fastrace/src/collector/global_collector.rs, cancelable): a cancelled root is never reported, a committed one is
    reported once and with its own record, whatever the other threads send and however the channels are drained. */
module RootOutcomes {
  import opened Records
  import opened GlobalCollectors
  import opened CollectorRuns
  import opened Lineage
  import opened RootCommands

  // The channel of a thread

  /** The commands that thread `t` sends, in order: the contents of its channel. */
  function ChannelOf(sent: seq<Sent>, t: nat): seq<Command> {
    if sent == [] then []
    else ChannelOf(Init(sent), t) + if Last(sent).thread == t then [ToCommand(Last(sent))] else []
  }

  function OthersOf(sent: seq<Sent>, t: nat): seq<Command> {
    if sent == [] then []
    else OthersOf(Init(sent), t) + if Last(sent).thread != t then [ToCommand(Last(sent))] else []
  }

  lemma {:induction false} ChannelConcat(a: seq<Sent>, b: seq<Sent>, t: nat)
    ensures ChannelOf(a + b, t) == ChannelOf(a, t) + ChannelOf(b, t)
  {
    if b == [] {
      assert a + b == a;
    } else {
      InitOfConcat(a, b);
      ChannelConcat(a, Init(b), t);
    }
  }

  /** The channel around the command at position `k`, which is its own. */
  lemma {:induction false} ChannelAt(sent: seq<Sent>, t: nat, k: nat)
    requires k < |sent| && sent[k].thread == t
    ensures ChannelOf(sent, t) == ChannelOf(sent[..k], t) + [ToCommand(sent[k])] + ChannelOf(sent[k + 1..], t)
  {
    assert sent == sent[..k + 1] + sent[k + 1..];
    ChannelConcat(sent[..k + 1], sent[k + 1..], t);
    InitOfPrefix(sent, k + 1);
  }

  lemma {:induction false} InChannel(sent: seq<Sent>, t: nat, command: Command) returns (k: nat)
    requires command in ChannelOf(sent, t)
    ensures k < |sent| && sent[k].thread == t && ToCommand(sent[k]) == command
  {
    if command in ChannelOf(Init(sent), t) {
      k := InChannel(Init(sent), t, command);
    } else {
      k := |sent| - 1;
    }
  }

  lemma {:induction false} InOthers(sent: seq<Sent>, t: nat, command: Command) returns (k: nat)
    requires command in OthersOf(sent, t)
    ensures k < |sent| && sent[k].thread != t && ToCommand(sent[k]) == command
  {
    if command in OthersOf(Init(sent), t) {
      k := InOthers(Init(sent), t, command);
    } else {
      k := |sent| - 1;
    }
  }

  function CommandsOf(sent: seq<Sent>): seq<Command> {
    seq(|sent|, i requires 0 <= i < |sent| => ToCommand(sent[i]))
  }

  lemma {:induction false} ChannelAndOthers(sent: seq<Sent>, t: nat)
    ensures multiset(ChannelOf(sent, t)) + multiset(OthersOf(sent, t)) == multiset(CommandsOf(sent))
  {
    if sent == [] {
      assert CommandsOf(sent) == [];
    } else {
      hide ToCommand;
      ChannelAndOthers(Init(sent), t);
      var commands, last := CommandsOf(Init(sent)), ToCommand(Last(sent));
      var mine, others := ChannelOf(Init(sent), t), OthersOf(Init(sent), t);
      assert CommandsOf(sent) == commands + [last];
      OneMore(mine, others, commands, last);
      if Last(sent).thread == t {
        assert ChannelOf(sent, t) == mine + [last] && OthersOf(sent, t) == others;
      } else {
        assert ChannelOf(sent, t) == mine && OthersOf(sent, t) == others + [last];
      }
    }
  }

  lemma {:induction false} OneMore(a: seq<Command>, b: seq<Command>, all: seq<Command>, command: Command)
    requires multiset(a) + multiset(b) == multiset(all)
    ensures multiset(a + [command]) + multiset(b) == multiset(all + [command])
    ensures multiset(a) + multiset(b + [command]) == multiset(all + [command])
  {
    assert multiset(a + [command]) == multiset(a) + multiset{command};
    assert multiset(b + [command]) == multiset(b) + multiset{command};
    assert multiset(all + [command]) == multiset(all) + multiset{command};
  }

  // Draining

  /** What the batches drained from the other channels. */
  function Foreign(drains: seq<Drain>): seq<Command> {
    if drains == [] then [] else Foreign(Init(drains)) + Last(drains).before + Last(drains).after
  }

  /** The batches have drained a first part of thread `t`'s channel, which has not overflowed, in order, and from the
      other channels each command at most once. */
  ghost predicate DrainsOf(w: World, t: nat, drains: seq<Drain>) {
    Mine(drains) <= ChannelOf(w.sent, t) && ForeignOnce(w, t, drains)
  }

  ghost predicate ForeignOnce(w: World, t: nat, drains: seq<Drain>) {
    multiset(Foreign(drains)) <= multiset(OthersOf(w.sent, t))
  }

  lemma {:induction false} DrainedBag(drains: seq<Drain>)
    ensures multiset(Concat(ToBatches(drains))) == multiset(Mine(drains)) + multiset(Foreign(drains))
  {
    if drains != [] {
      hide Mine, Foreign, Concat, ToBatches;
      var last, concat := Last(drains), Concat(ToBatches(Init(drains)));
      MineAndForeign(drains);
      DrainedBag(Init(drains));
      DrainedLast(drains);
      BagOfThree(concat, Mine(Init(drains)), Foreign(Init(drains)), last.before, last.mine, last.after);
    }
  }

  lemma {:induction false} DrainedLast(drains: seq<Drain>)
    requires drains != []
    ensures Concat(ToBatches(drains))
            == Concat(ToBatches(Init(drains))) + (Last(drains).before + Last(drains).mine + Last(drains).after)
  {
    assert Init(ToBatches(drains)) == ToBatches(Init(drains));
  }

  lemma {:induction false} MineAndForeign(drains: seq<Drain>)
    requires drains != []
    ensures Mine(drains) == Mine(Init(drains)) + Last(drains).mine
    ensures Foreign(drains) == Foreign(Init(drains)) + Last(drains).before + Last(drains).after
  {
  }

  lemma {:induction false} BagOfThree(all: seq<Command>, mine: seq<Command>, others: seq<Command>,
                                      before: seq<Command>, own: seq<Command>, after: seq<Command>)
    requires multiset(all) == multiset(mine) + multiset(others)
    ensures multiset(all + (before + own + after)) == multiset(mine + own) + multiset(others + before + after)
  {
    assert multiset(before + own + after) == multiset(before) + multiset(own) + multiset(after);
    assert multiset(others + before + after) == multiset(others) + multiset(before) + multiset(after);
    assert multiset(all + (before + own + after)) == multiset(all) + multiset(before + own + after);
    assert multiset(mine + own) == multiset(mine) + multiset(own);
  }

  lemma {:induction false} PrefixBag(a: seq<Command>, b: seq<Command>)
    requires a <= b
    ensures multiset(a) <= multiset(b)
  {
    assert b == a + b[|a|..];
  }

  lemma {:induction false} DrainsAreSent(w: World, t: nat, drains: seq<Drain>)
    requires DrainsOf(w, t, drains)
    ensures DrainedFrom(w, ToBatches(drains))
  {
    hide Mine, Foreign, ChannelOf, OthersOf, Concat;
    DrainedBag(drains);
    PrefixBag(Mine(drains), ChannelOf(w.sent, t));
    ChannelAndOthers(w.sent, t);
    assert CommandsOf(w.sent) == SentCommands(w);
  }

  lemma {:induction false} ForeignHolds(drains: seq<Drain>, d: Drain, command: Command)
    requires d in drains && command in d.before + d.after
    ensures command in Foreign(drains)
  {
    if d in Init(drains) {
      ForeignHolds(Init(drains), d, command);
    } else {
      assert drains == Init(drains) + [Last(drains)];
    }
  }

  /** A command that no other thread sends is not drained from any other channel. */
  lemma {:induction false} NotForeign(w: World, t: nat, drains: seq<Drain>, command: Command)
    requires ForeignOnce(w, t, drains)
    requires forall k :: 0 <= k < |w.sent| && ToCommand(w.sent[k]) == command ==> w.sent[k].thread == t
    ensures forall d <- drains :: command !in d.before + d.after
  {
    hide Mine, Foreign, ChannelOf, OthersOf;
    forall d <- drains ensures command !in d.before + d.after {
      if command in d.before + d.after {
        ForeignHolds(drains, d, command);
        assert command in multiset(Foreign(drains));
        assert command in OthersOf(w.sent, t);
        var k := InOthers(w.sent, t, command);
      }
    }
  }

  /** A command that a stretch of what was sent does not hold does not stand in its part of the channel. */
  lemma {:induction false} NotInStretch(sent: seq<Sent>, t: nat, lo: nat, hi: nat, command: Command)
    requires lo <= hi <= |sent| && forall k :: lo <= k < hi ==> ToCommand(sent[k]) != command
    ensures command !in ChannelOf(sent[lo..hi], t)
  {
    if command in ChannelOf(sent[lo..hi], t) {
      var k := InChannel(sent[lo..hi], t, command);
    }
  }

  // The root of collect id `c` on one thread

  /** Thread `t` sends the start, the cancels and the commit of `c`. */
  ghost predicate RootOn(w: World, t: nat, c: CollectId) {
    forall k :: 0 <= k < |w.sent| && (StartsAt(w, k, c) || CommitsAt(w, k, c) || DropsAt(w, k, c)) ==>
        w.sent[k].thread == t
  }

  lemma {:induction false} ControlCommand(w: World, k: nat, c: CollectId)
    requires k < |w.sent| && Inv(w)
    ensures ToCommand(w.sent[k]) == StartCollect(c) <==> StartsAt(w, k, c)
    ensures ToCommand(w.sent[k]) == CommitCollect(c) <==> CommitsAt(w, k, c)
    ensures ToCommand(w.sent[k]) == DropCollect(c) <==> DropsAt(w, k, c)
  {
  }

  lemma {:induction false} RootNotForeign(w: World, t: nat, drains: seq<Drain>, c: CollectId)
    requires ForeignOnce(w, t, drains) && RootOn(w, t, c) && Inv(w)
    ensures forall d <- drains :: StartCollect(c) !in d.before + d.after && CommitCollect(c) !in d.before + d.after
                                  && DropCollect(c) !in d.before + d.after
  {
    hide Inv, ForeignOnce;
    forall k | 0 <= k < |w.sent|
      ensures ToCommand(w.sent[k]) in {StartCollect(c), CommitCollect(c), DropCollect(c)} ==> w.sent[k].thread == t
    {
      ControlCommand(w, k, c);
    }
    NotForeign(w, t, drains, StartCollect(c));
    NotForeign(w, t, drains, CommitCollect(c));
    NotForeign(w, t, drains, DropCollect(c));
  }

  /** The channel around the start at `i` and a later command of the root at `j`. */
  lemma {:induction false} ChannelShape(w: World, t: nat, i: nat, j: nat)
    requires i < j < |w.sent| && w.sent[i].thread == t && w.sent[j].thread == t
    ensures ChannelOf(w.sent, t)
            == ChannelOf(w.sent[..i], t) + [ToCommand(w.sent[i])] + ChannelOf(w.sent[i + 1..j], t)
               + [ToCommand(w.sent[j])] + ChannelOf(w.sent[j + 1..], t)
    ensures ChannelOf(w.sent[..j], t)
            == ChannelOf(w.sent[..i], t) + [ToCommand(w.sent[i])] + ChannelOf(w.sent[i + 1..j], t)
  {
    hide ChannelOf;
    ChannelAt(w.sent, t, j);
    ChannelAt(w.sent[..j], t, i);
    assert w.sent[..j][..i] == w.sent[..i] && w.sent[..j][i + 1..] == w.sent[i + 1..j];
  }

  /** Cutting a channel short keeps everything up to a command that it still holds. */
  lemma {:induction false} CutChannel(mine: seq<Command>, before: seq<Command>, command: Command, after: seq<Command>)
    returns (rest: seq<Command>)
    requires mine <= before + [command] + after && |mine| > |before|
    ensures mine == before + [command] + rest && rest <= after
  {
    rest := mine[|before| + 1..];
    var all := before + [command] + after;
    assert mine == all[..|mine|];
    assert rest == after[..|rest|];
  }

  lemma {:induction false} RestOf(rest: seq<Command>, after: seq<Command>, command: Command)
    requires rest <= after && command !in after
    ensures command !in rest
  {
    assert forall i :: 0 <= i < |rest| ==> rest[i] == after[i];
  }

  lemma {:induction false} NotInParts(a: seq<Command>, b: seq<Command>, c: seq<Command>, command: Command)
    requires command !in a && command !in b && command !in c
    ensures command !in a + b + c
  {
  }

  // A cancelled root

  /** What has been drained of the channel ends before the first cancel at `d`: no commit is among it. */
  lemma {:induction false} NothingCommitted(w: World, t: nat, drains: seq<Drain>, c: CollectId, d: nat, k: nat)
    requires DrainsOf(w, t, drains) && RootOn(w, t, c) && Inv(w)
    requires DropsAt(w, d, c) && (forall j :: 0 <= j < d ==> !CommitsAt(w, j, c))
    requires |Mine(drains)| <= |ChannelOf(w.sent[..d], t)| && k < |drains|
    ensures c !in CommitIds(ToBatches(drains)[k].commands)
  {
    hide Inv, Mine, ChannelOf, StartIds, DropIds, CommitIds, DrainsOf;
    MineIsPrefix(w, t, drains);
    RootNotForeign(w, t, drains, c);
    forall j | 0 <= j < d ensures ToCommand(w.sent[j]) != CommitCollect(c) {
      ControlCommand(w, j, c);
    }
    NotInStretch(w.sent, t, 0, d, CommitCollect(c));
    assert w.sent[0..d] == w.sent[..d];
    MineIsEarly(w, t, drains, d);
    CommandKinds(ToBatches(drains)[k].commands, c);
    if CommitCollect(c) in ToBatches(drains)[k].commands {
      var p := PositionOf(drains, k, CommitCollect(c));
    }
  }

  lemma {:induction false} MineIsEarly(w: World, t: nat, drains: seq<Drain>, d: nat)
    requires DrainsOf(w, t, drains) && d <= |w.sent| && |Mine(drains)| <= |ChannelOf(w.sent[..d], t)|
    ensures Mine(drains) <= ChannelOf(w.sent[..d], t)
  {
    hide Mine, ChannelOf, Foreign, OthersOf;
    assert w.sent == w.sent[..d] + w.sent[d..];
    ChannelConcat(w.sent[..d], w.sent[d..], t);
  }

  /** The drained part of the channel, once it holds the cancel at `d`. */
  lemma {:induction false} CancelShape(w: World, t: nat, drains: seq<Drain>, c: CollectId, i: nat, d: nat)
    returns (first: seq<Command>, middle: seq<Command>, rest: seq<Command>)
    requires DrainsOf(w, t, drains) && RootOn(w, t, c) && Inv(w)
    requires StartsAt(w, i, c) && DropsAt(w, d, c) && i < d && (forall k: nat :: StartsAt(w, k, c) ==> k == i)
    requires forall j: nat :: CommitsAt(w, j, c) ==> d < j
    requires |Mine(drains)| > |ChannelOf(w.sent[..d], t)|
    ensures CancelsOnOneChannel(drains, c, first, middle, rest)
  {
    hide Inv, Mine, ChannelOf, DrainsOf;
    MineIsPrefix(w, t, drains);
    RootNotForeign(w, t, drains, c);
    ChannelShape(w, t, i, d);
    ControlCommand(w, i, c);
    ControlCommand(w, d, c);
    var after := ChannelOf(w.sent[d + 1..], t);
    first, middle := ChannelOf(w.sent[..i], t), ChannelOf(w.sent[i + 1..d], t);
    MineIsPrefix(w, t, drains);
    rest := CutChannel(Mine(drains), first + [StartCollect(c)] + middle, DropCollect(c), after);
    forall k | 0 <= k < |w.sent|
      ensures k != i ==> ToCommand(w.sent[k]) != StartCollect(c)
      ensures k < d ==> ToCommand(w.sent[k]) != CommitCollect(c)
    {
      ControlCommand(w, k, c);
    }
    Stretches(w.sent, t, i, d, StartCollect(c));
    RestOf(rest, after, StartCollect(c));
    NotInParts(first, middle, rest, StartCollect(c));
    NotInStretch(w.sent, t, 0, i, CommitCollect(c));
    NotInStretch(w.sent, t, i + 1, d, CommitCollect(c));
    assert w.sent[0..i] == w.sent[..i];
  }

  lemma {:induction false} MineIsPrefix(w: World, t: nat, drains: seq<Drain>)
    requires DrainsOf(w, t, drains)
    ensures Mine(drains) <= ChannelOf(w.sent, t) && ForeignOnce(w, t, drains)
  {
  }

  /** A command sent at most at positions `i` and `d` is in no stretch around them. */
  lemma {:induction false} Stretches(sent: seq<Sent>, t: nat, i: nat, d: nat, command: Command)
    requires i < d < |sent|
    requires forall k :: 0 <= k < |sent| && k != i && k != d ==> ToCommand(sent[k]) != command
    ensures command !in ChannelOf(sent[..i], t) && command !in ChannelOf(sent[i + 1..d], t)
    ensures command !in ChannelOf(sent[d + 1..], t)
  {
    hide ChannelOf, ToCommand;
    NotInStretch(sent, t, 0, i, command);
    NotInStretch(sent, t, i + 1, d, command);
    NotInStretch(sent, t, d + 1, |sent|, command);
    assert sent[0..i] == sent[..i] && sent[d + 1..|sent|] == sent[d + 1..];
  }

  /** A sampled root that is created, cancelled and dropped on one thread is never reported, in any run of any number of
      threads and for every way of draining the channels. */
  lemma {:induction false} CancelledRootNeverReported(capacity: nat, steps: seq<Step>, w: World, t: nat,
                                                      drains: seq<Drain>, states: seq<map<CollectId, ActiveCollector>>,
                                                      groups: seq<seq<Group>>, c: CollectId, d: nat)
    requires Lineage.Reaches(capacity, steps, w) && w.nextCollectId <= NOT_SAMPLED_COLLECT_ID
    requires c != NOT_SAMPLED_COLLECT_ID && DropsAt(w, d, c) && RootOn(w, t, c)
    requires DrainsOf(w, t, drains) && IsRun(true, ToBatches(drains), states, groups)
    ensures |groups| == |drains| && forall k :: 0 <= k < |drains| ==> GroupsFor(groups[k], c) == []
  {
    hide Inv, Lineage.Reaches, Mine, ChannelOf, DrainsOf, IsRun, GroupsFor, StartIds, DropIds, CommitIds;
    ReachableInv(capacity, steps, w);
    RunLengths(true, ToBatches(drains), states, groups);
    var i := StartOfDrop(capacity, steps, w, c, d);
    if |Mine(drains)| > |ChannelOf(w.sent[..d], t)| {
      var first, middle, rest := CancelShape(w, t, drains, c, i, d);
      CancelledNeverReported(drains, states, groups, c, first, middle, rest);
    } else {
      DrainsAreSent(w, t, drains);
      ReachableStarts(capacity, steps, w);
      var s := StartedInOneBatch(w, ToBatches(drains), c);
      ReportedOnce(ToBatches(drains), states, groups, c, s);
      forall k | 0 <= k < |drains| ensures !CommitBatch(ToBatches(drains), c, s, k) {
        NothingCommitted(w, t, drains, c, d, k);
        assert Last(ToBatches(drains)[..k + 1]) == ToBatches(drains)[k];
      }
    }
  }

  lemma {:induction false} StartOfDrop(capacity: nat, steps: seq<Step>, w: World, c: CollectId, d: nat) returns (i: nat)
    requires Lineage.Reaches(capacity, steps, w) && w.nextCollectId <= NOT_SAMPLED_COLLECT_ID
    requires c != NOT_SAMPLED_COLLECT_ID && DropsAt(w, d, c)
    ensures i < d && StartsAt(w, i, c) && forall k: nat :: StartsAt(w, k, c) ==> k == i
    ensures forall j: nat :: CommitsAt(w, j, c) ==> d < j
  {
    hide Lineage.Reaches;
    ReachableDisciplined(capacity, steps, w);
    ReachableStarts(capacity, steps, w);
    assert StartsBefore(w, d, c);
    i :| i < d && StartsAt(w, i, c);
  }

  // A committed root

  /** The drained part of the channel, once it holds the commit at `j`. */
  lemma {:induction false} CommitShape(w: World, t: nat, drains: seq<Drain>, c: CollectId, i: nat, j: nat)
    returns (first: seq<Command>, rest: seq<Command>)
    requires DrainsOf(w, t, drains) && RootOn(w, t, c) && Inv(w)
    requires StartsAt(w, i, c) && CommitsAt(w, j, c) && i < j && (forall k: nat :: StartsAt(w, k, c) ==> k == i)
    requires (forall k: nat :: CommitsAt(w, k, c) ==> k == j) && forall k: nat :: !DropsAt(w, k, c)
    requires |Mine(drains)| > |ChannelOf(w.sent[..j], t)|
    ensures CommitsOnOneChannel(drains, c, first, ChannelOf(w.sent[i + 1..j], t), rest)
  {
    hide Inv, Mine, ChannelOf, DrainsOf;
    MineIsPrefix(w, t, drains);
    RootNotForeign(w, t, drains, c);
    ChannelShape(w, t, i, j);
    ControlCommand(w, i, c);
    ControlCommand(w, j, c);
    var after, middle := ChannelOf(w.sent[j + 1..], t), ChannelOf(w.sent[i + 1..j], t);
    first := ChannelOf(w.sent[..i], t);
    MineIsPrefix(w, t, drains);
    rest := CutChannel(Mine(drains), first + [StartCollect(c)] + middle, CommitCollect(c), after);
    forall k | 0 <= k < |w.sent|
      ensures k != i ==> ToCommand(w.sent[k]) != StartCollect(c)
      ensures k != j ==> ToCommand(w.sent[k]) != CommitCollect(c)
      ensures ToCommand(w.sent[k]) != DropCollect(c)
    {
      ControlCommand(w, k, c);
    }
    Absent(w.sent, t, i, j, StartCollect(c), rest);
    Absent(w.sent, t, i, j, CommitCollect(c), rest);
    Absent(w.sent, t, i, j, DropCollect(c), rest);
  }

  lemma {:induction false} Absent(sent: seq<Sent>, t: nat, i: nat, j: nat, command: Command, rest: seq<Command>)
    requires i < j < |sent| && rest <= ChannelOf(sent[j + 1..], t)
    requires forall k :: 0 <= k < |sent| && k != i && k != j ==> ToCommand(sent[k]) != command
    ensures command !in ChannelOf(sent[..i], t) + ChannelOf(sent[i + 1..j], t) + rest
  {
    hide ChannelOf;
    Stretches(sent, t, i, j, command);
    RestOf(rest, ChannelOf(sent[j + 1..], t), command);
    NotInParts(ChannelOf(sent[..i], t), ChannelOf(sent[i + 1..j], t), rest, command);
  }

  /** The record of a root: its own span below the remote parent that the caller gave. */
  function RootKey(root: Root): Key {
    Key(root.context.traceId, root.spanId, root.context.spanId)
  }

  /** The root's own span stands last in the channel before its commit. */
  lemma {:induction false} OwnSpanSubmitted(w: World, t: nat, c: CollectId, i: nat, j: nat, r: nat)
    requires i < j - 1 < |w.sent| && OwnSpanAt(w, j - 1, r) && w.sent[j - 1].thread == t && w.roots[r].collectId == c
    ensures RootKey(w.roots[r]) in SubmittedKeys(ChannelOf(w.sent[i + 1..j], t), c)
  {
    var stretch, own := w.sent[i + 1..j], w.sent[j - 1];
    assert Last(stretch) == own;
    var channel := ChannelOf(stretch, t);
    assert Last(channel) == SubmitSpans(own.spans, Tokens(own.token));
    var item := RootItem(w.roots[r]);
    assert Tokens(own.token) == [item] && Init([item]) == [];
    assert ItemKeys(own.spans, [item], c) == [] + SetKeys(own.spans, item.traceId, item.parentId);
  }

  /** A sampled root that is created and dropped on one thread and never cancelled is reported exactly once, after the
      collector has drained its commit: the report holds the root's own record and everything that the thread submitted
      for the trace between creating and dropping it. */
  lemma {:induction false} CommittedRootReported(capacity: nat, steps: seq<Step>, w: World, t: nat,
                                                 drains: seq<Drain>, states: seq<map<CollectId, ActiveCollector>>,
                                                 groups: seq<seq<Group>>, c: CollectId, j: nat)
    returns (i: nat, r: nat, k: nat)
    requires Lineage.Reaches(capacity, steps, w) && w.nextCollectId <= NOT_SAMPLED_COLLECT_ID
    requires c != NOT_SAMPLED_COLLECT_ID && CommitsAt(w, j, c) && RootOn(w, t, c)
    requires forall d: nat :: !DropsAt(w, d, c)
    requires DrainsOf(w, t, drains) && |Mine(drains)| > |ChannelOf(w.sent[..j], t)|
    requires IsRun(true, ToBatches(drains), states, groups)
    ensures i < j && StartsAt(w, i, c) && r < |w.roots| && w.roots[r].collectId == c
    ensures k < |groups| == |drains| && |GroupsFor(groups[k], c)| == 1
    ensures RootKey(w.roots[r]) in Keys(GroupsFor(groups[k], c)[0])
    ensures multiset(SubmittedKeys(ChannelOf(w.sent[i + 1..j], t), c)) <= multiset(Keys(GroupsFor(groups[k], c)[0]))
    ensures forall other :: 0 <= other < |groups| && other != k ==> GroupsFor(groups[other], c) == []
  {
    hide Inv, Lineage.Reaches, Mine, ChannelOf, DrainsOf, IsRun, GroupsFor, Keys, SubmittedKeys, CommitsOnOneChannel;
    ReachableInv(capacity, steps, w);
    i, r := CommitFollowsOwnSpan(capacity, steps, w, c, j);
    OwnSpanSubmitted(w, t, c, i, j, r);
    var first, rest := CommitShape(w, t, drains, c, i, j);
    k := CommittedIsComplete(drains, states, groups, c, first, ChannelOf(w.sent[i + 1..j], t), rest);
    assert RootKey(w.roots[r]) in multiset(SubmittedKeys(ChannelOf(w.sent[i + 1..j], t), c));
    assert RootKey(w.roots[r]) in multiset(Keys(GroupsFor(groups[k], c)[0]));
  }
}

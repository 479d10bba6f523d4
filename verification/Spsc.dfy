/** The command channel of fastrace/src/util/spsc.rs: a bounded ring shared by one sender and one receiver,
    and a list in which the sender keeps forced messages that did not fit. Every call is one atomic step. */
module Spsc {
  import opened Records

  datatype ChannelState<T> = ChannelState(ring: seq<T>, pending: seq<T>)

  /** Pops pending messages from the back of the list into the ring until one of them is exhausted. */
  function Flushed<T>(s: ChannelState<T>, capacity: nat): ChannelState<T>
    decreases |s.pending|
  {
    if s.pending == [] || |s.ring| >= capacity then s
    else Flushed(ChannelState(s.ring + [Last(s.pending)], Init(s.pending)), capacity)
  }

  function AfterSend<T>(s: ChannelState<T>, capacity: nat, value: T): (ChannelState<T>, bool) {
    var f := Flushed(s, capacity);
    if f.pending == [] && |f.ring| < capacity then (f.(ring := f.ring + [value]), true) else (f, false)
  }

  function AfterForceSend<T>(s: ChannelState<T>, capacity: nat, value: T): ChannelState<T> {
    var f := Flushed(s, capacity);
    if |f.ring| < capacity then f.(ring := f.ring + [value]) else f.(pending := f.pending + [value])
  }

  function Min(a: int, b: int): int {
    if a < b then a else b
  }

  /** Dropping the sender moves pending messages into the ring in list order and loses those that do not fit. */
  function AfterDrop<T>(s: ChannelState<T>, capacity: nat): ChannelState<T>
    requires |s.ring| <= capacity
  {
    ChannelState(s.ring + s.pending[..Min(|s.pending|, capacity - |s.ring|)], [])
  }

  /** The bounded ring buffer behind the channel. */
  class Ring<T> {
    var items: seq<T>
    const capacity: nat
    var abandoned: bool

    constructor (capacity: nat)
      ensures items == [] && this.capacity == capacity && !abandoned
    {
      this.capacity := capacity;
      items, abandoned := [], false;
    }

    method Push(value: T) returns (ok: bool)
      modifies `items
      ensures ok <==> old(|items|) < capacity
      ensures items == if ok then old(items) + [value] else old(items)
    {
      ok := |items| < capacity;
      if ok {
        items := items + [value];
      }
    }

    method Pop() returns (value: Option<T>)
      modifies `items
      ensures old(items) == [] ==> value == None && items == []
      ensures old(items) != [] ==> value == Some(old(items)[0]) && items == old(items)[1..]
    {
      if items == [] {
        return None;
      }
      value := Some(items[0]);
      items := items[1..];
    }
  }

  class Sender<T> {
    const tx: Ring<T>
    var pendingMessages: seq<T>

    constructor (tx: Ring<T>)
      ensures this.tx == tx && pendingMessages == []
    {
      this.tx := tx;
      pendingMessages := [];
    }

    function State(): ChannelState<T>
      reads this, tx
    {
      ChannelState(tx.items, pendingMessages)
    }

    /** The retry loop shared by both ways of sending; true when nothing is left pending. */
    method FlushPending() returns (empty: bool)
      modifies this`pendingMessages, tx`items
      ensures State() == Flushed(old(State()), tx.capacity)
      ensures empty <==> pendingMessages == []
    {
      while pendingMessages != []
        invariant Flushed(State(), tx.capacity) == Flushed(old(State()), tx.capacity)
        decreases |pendingMessages|
      {
        var value := Last(pendingMessages);
        pendingMessages := Init(pendingMessages);
        var ok := tx.Push(value);
        if !ok {
          pendingMessages := pendingMessages + [value];
          return false;
        }
      }
      return true;
    }

    method Send(value: T) returns (ok: bool)
      modifies this`pendingMessages, tx`items
      ensures (State(), ok) == AfterSend(old(State()), tx.capacity, value)
    {
      var empty := FlushPending();
      if !empty {
        return false;
      }
      ok := tx.Push(value);
    }

    method ForceSend(value: T)
      modifies this`pendingMessages, tx`items
      ensures State() == AfterForceSend(old(State()), tx.capacity, value)
    {
      var _ := FlushPending();
      var ok := tx.Push(value);
      if !ok {
        pendingMessages := pendingMessages + [value];
      }
    }

    method Drop()
      requires |tx.items| <= tx.capacity
      modifies this`pendingMessages, tx
      ensures State() == AfterDrop(old(State()), tx.capacity) && tx.abandoned
    {
      for i := 0 to |pendingMessages|
        invariant pendingMessages == old(pendingMessages) && tx.abandoned == old(tx.abandoned)
        invariant tx.items == old(tx.items) + pendingMessages[..Min(i, tx.capacity - old(|tx.items|))]
      {
        var _ := tx.Push(pendingMessages[i]);
      }
      assert pendingMessages[..|pendingMessages|] == pendingMessages;
      pendingMessages := [];
      tx.abandoned := true;
    }
  }

  datatype Received<T> = Message(value: T) | Empty | Closed

  /** One receive, as an atomic step: its result and the ring it leaves. */
  function Taken<T>(items: seq<T>, abandoned: bool): (Received<T>, seq<T>) {
    if items != [] then (Message(items[0]), items[1..])
    else (if abandoned then Closed else Empty, [])
  }

  class Receiver<T> {
    const rx: Ring<T>

    constructor (rx: Ring<T>)
      ensures this.rx == rx
    {
      this.rx := rx;
    }

    method TryRecv() returns (result: Received<T>)
      modifies rx`items
      ensures old(rx.items) != [] ==> result == Message(old(rx.items)[0]) && rx.items == old(rx.items)[1..]
      ensures old(rx.items) == [] ==> result == (if rx.abandoned then Closed else Empty) && rx.items == []
      ensures (result, rx.items) == Taken(old(rx.items), rx.abandoned)
    {
      var value := rx.Pop();
      match value {
        case Some(v) => result := Message(v);
        case None => result := if rx.abandoned then Closed else Empty;
      }
    }
  }

  // What a flush does

  function Reversed<T>(s: seq<T>): seq<T> {
    if s == [] then [] else [Last(s)] + Reversed(Init(s))
  }

  lemma {:induction false} ReversedShape<T>(s: seq<T>)
    ensures |Reversed(s)| == |s| && multiset(Reversed(s)) == multiset(s)
    ensures s != [] ==> Reversed(s)[0] == Last(s)
  {
    if s != [] {
      ReversedShape(Init(s));
      assert s == Init(s) + [Last(s)];
    }
  }

  /** A flush moves as many of the newest pending messages as fit, newest first. */
  lemma {:induction false} FlushMoves<T>(s: ChannelState<T>, capacity: nat)
    requires |s.ring| <= capacity
    ensures var kept := |s.pending| - Min(|s.pending|, capacity - |s.ring|);
            Flushed(s, capacity) == ChannelState(s.ring + Reversed(s.pending[kept..]), s.pending[..kept])
    decreases |s.pending|
  {
    hide Reversed;
    var kept := |s.pending| - Min(|s.pending|, capacity - |s.ring|);
    if s.pending == [] || |s.ring| >= capacity {
      assert s.pending[kept..] == [] && s.pending[..kept] == s.pending;
      ReversedNothing<T>();
      assert s.ring + [] == s.ring;
    } else {
      var value, rest := Last(s.pending), Init(s.pending);
      FlushMoves(ChannelState(s.ring + [value], rest), capacity);
      ReversedTail(s.pending, kept);
      assert s.ring + [value] + Reversed(rest[kept..]) == s.ring + ([value] + Reversed(rest[kept..]));
    }
  }

  lemma {:induction false} ReversedNothing<T>()
    ensures Reversed<T>([]) == []
  {
  }

  lemma {:induction false} ReversedTail<T>(s: seq<T>, kept: nat)
    requires kept < |s|
    ensures Reversed(s[kept..]) == [Last(s)] + Reversed(Init(s)[kept..]) && Init(s)[..kept] == s[..kept]
  {
    assert Init(s[kept..]) == Init(s)[kept..];
  }

  lemma {:induction false} ReversedAt<T>(s: seq<T>, i: nat)
    requires i < |s|
    ensures |Reversed(s)| == |s| && Reversed(s)[i] == s[|s| - 1 - i]
  {
    ReversedShape(s);
    if i > 0 {
      ReversedAt(Init(s), i - 1);
    }
  }

  /** Sending either way moves as many pending messages as fit, newest first, and the value only behind all of them: it
      waits, or is refused, exactly when they leave no room for it. */
  lemma {:induction false} SentExactly<T>(s: ChannelState<T>, capacity: nat, value: T)
    requires |s.ring| <= capacity
    ensures var room, n := capacity - |s.ring|, |s.pending|;
            if n < room then
              var all := ChannelState(s.ring + Reversed(s.pending) + [value], []);
              AfterForceSend(s, capacity, value) == all && AfterSend(s, capacity, value) == (all, true)
            else
              var ring, rest := s.ring + Reversed(s.pending[n - room..]), s.pending[..n - room];
              && AfterForceSend(s, capacity, value) == ChannelState(ring, rest + [value])
              && AfterSend(s, capacity, value) == (ChannelState(ring, rest), false)
  {
    hide Flushed, Reversed;
    FlushMoves(s, capacity);
    var room, n := capacity - |s.ring|, |s.pending|;
    if n < room {
      assert s.pending[0..] == s.pending && s.pending[..0] == [];
      ReversedShape(s.pending);
    } else {
      ReversedShape(s.pending[n - room..]);
    }
  }

  // Runs

  datatype Op<T> = SendOp(value: T) | ForceOp(value: T) | ReceiveOp

  /** A channel with the values accepted so far (forced, or sent with success) and those received so far. */
  datatype History<T> = History(accepted: seq<T>, received: seq<T>, state: ChannelState<T>) {
    /** Every accepted value, in the order in which it stands in the channel. */
    function Contents(): seq<T> {
      received + state.ring + state.pending
    }

    /** The same, with multiplicities but without the order. */
    ghost function Bag(): multiset<T> {
      multiset(received) + multiset(state.ring) + multiset(state.pending)
    }
  }

  function Step<T>(h: History<T>, capacity: nat, op: Op<T>): History<T> {
    match op
    case SendOp(value) =>
      var (state, ok) := AfterSend(h.state, capacity, value);
      History(if ok then h.accepted + [value] else h.accepted, h.received, state)
    case ForceOp(value) =>
      History(h.accepted + [value], h.received, AfterForceSend(h.state, capacity, value))
    case ReceiveOp =>
      if h.state.ring == [] then h
      else h.(received := h.received + [h.state.ring[0]], state := h.state.(ring := h.state.ring[1..]))
  }

  function Run<T>(capacity: nat, ops: seq<Op<T>>): History<T> {
    if ops == [] then History([], [], ChannelState([], [])) else Step(Run(capacity, Init(ops)), capacity, Last(ops))
  }

  lemma {:induction false} FlushConserves<T>(s: ChannelState<T>, capacity: nat)
    requires |s.ring| <= capacity
    ensures var f := Flushed(s, capacity);
            && |f.ring| <= capacity && (f.pending == [] || |f.ring| == capacity)
            && multiset(f.ring) + multiset(f.pending) == multiset(s.ring) + multiset(s.pending)
  {
    hide Flushed, Reversed;
    FlushMoves(s, capacity);
    var kept := |s.pending| - Min(|s.pending|, capacity - |s.ring|);
    var moved, stays := s.pending[kept..], s.pending[..kept];
    ReversedShape(moved);
    assert s.pending == stays + moved;
    assert multiset(s.pending) == multiset(stays) + multiset(moved);
    assert multiset(s.ring + Reversed(moved)) == multiset(s.ring) + multiset(moved);
  }

  lemma {:induction false} StepConserves<T>(h: History<T>, capacity: nat, op: Op<T>)
    requires |h.state.ring| <= capacity && h.Bag() == multiset(h.accepted)
    ensures var h' := Step(h, capacity, op);
            |h'.state.ring| <= capacity && h'.Bag() == multiset(h'.accepted)
  {
    hide Step, History<T>.Bag;
    if op.ReceiveOp? {
      ReceiveConserves(h, capacity);
    } else {
      SendConserves(h, capacity, op);
    }
  }

  lemma {:induction false} ReceiveConserves<T>(h: History<T>, capacity: nat)
    requires |h.state.ring| <= capacity
    ensures var h' := Step(h, capacity, ReceiveOp);
            |h'.state.ring| <= capacity && h'.Bag() == h.Bag() && h'.accepted == h.accepted
  {
    hide Flushed;
    if h.state.ring != [] {
      var value, rest := h.state.ring[0], h.state.ring[1..];
      assert h.state.ring == [value] + rest;
      assert multiset(h.state.ring) == multiset{value} + multiset(rest);
      assert multiset(h.received + [value]) == multiset(h.received) + multiset{value};
    }
  }

  lemma {:induction false} SendConserves<T>(h: History<T>, capacity: nat, op: Op<T>)
    requires |h.state.ring| <= capacity && h.Bag() == multiset(h.accepted) && !op.ReceiveOp?
    ensures var h' := Step(h, capacity, op);
            |h'.state.ring| <= capacity && h'.Bag() == multiset(h'.accepted)
  {
    hide Flushed, History<T>.Bag;
    FlushConserves(h.state, capacity);
    Regroup(h, Flushed(h.state, capacity), op.value);
    assert multiset(h.accepted + [op.value]) == multiset(h.accepted) + multiset{op.value};
    StepBag(h, capacity, op);
  }

  /** The bag of the next state, by cases; only the state and what was accepted matter. */
  lemma {:induction false} StepBag<T>(h: History<T>, capacity: nat, op: Op<T>)
    requires !op.ReceiveOp?
    ensures var h', f := Step(h, capacity, op), Flushed(h.state, capacity);
            h'.Bag() == h.(state := h'.state).Bag()
  {
  }

  /** Adding a value at either end of the flushed state adds it to the bag of the whole channel. */
  lemma {:induction false} Regroup<T>(h: History<T>, f: ChannelState<T>, value: T)
    requires multiset(f.ring) + multiset(f.pending) == multiset(h.state.ring) + multiset(h.state.pending)
    ensures h.(state := f).Bag() == h.Bag()
    ensures h.(state := f.(ring := f.ring + [value])).Bag() == h.Bag() + multiset{value}
    ensures h.(state := f.(pending := f.pending + [value])).Bag() == h.Bag() + multiset{value}
  {
    var r := multiset(h.received);
    assert h.(state := f).Bag() == r + (multiset(f.ring) + multiset(f.pending));
    assert h.Bag() == r + (multiset(h.state.ring) + multiset(h.state.pending));
    assert multiset(f.ring + [value]) == multiset(f.ring) + multiset{value};
    assert multiset(f.pending + [value]) == multiset(f.pending) + multiset{value};
  }

  /** Whatever the interleaving of calls: each accepted value is exactly once among the received, buffered and
      pending ones, a value whose send failed is not added anywhere, and the ring respects its capacity. */
  lemma {:induction false} ExactlyOnce<T>(capacity: nat, ops: seq<Op<T>>)
    ensures var h := Run(capacity, ops);
            |h.state.ring| <= capacity && h.Bag() == multiset(h.accepted)
  {
    if ops != [] {
      ExactlyOnce(capacity, Init(ops));
      StepConserves(Run(capacity, Init(ops)), capacity, Last(ops));
    }
  }

  /** A successful send leaves nothing pending and its value last in the ring. */
  lemma {:induction false} SuccessEmptiesPending<T>(s: ChannelState<T>, capacity: nat, value: T)
    requires |s.ring| <= capacity
    ensures var (s', ok) := AfterSend(s, capacity, value);
            && (ok <==> |s.ring| + |s.pending| < capacity)
            && (ok ==> s'.pending == [] && s'.ring == s.ring + Reversed(s.pending) + [value])
            && (!ok ==> multiset(s'.ring + s'.pending) == multiset(s.ring + s.pending))
  {
    FlushMoves(s, capacity);
    var kept := |s.pending| - Min(|s.pending|, capacity - |s.ring|);
    ReversedShape(s.pending[kept..]);
    assert s.pending == s.pending[..kept] + s.pending[kept..];
    assert kept == 0 ==> s.pending[kept..] == s.pending;
  }

  ghost predicate Distinct<T>(s: seq<T>) {
    forall i, j :: 0 <= i < j < |s| ==> s[i] != s[j]
  }

  /** Sending reorders the channel exactly when at least two messages are pending and the ring has room. */
  ghost predicate Reorders<T>(s: ChannelState<T>, capacity: nat, op: Op<T>) {
    !op.ReceiveOp? && |s.pending| >= 2 && |s.ring| < capacity
  }

  lemma {:induction false} FlushSizes<T>(s: ChannelState<T>, capacity: nat)
    requires |s.ring| <= capacity
    ensures var f := Flushed(s, capacity);
            |f.ring| + |f.pending| == |s.ring| + |s.pending| && (f.pending == [] || |f.ring| == capacity)
  {
    hide Flushed;
    FlushMoves(s, capacity);
    var kept := |s.pending| - Min(|s.pending|, capacity - |s.ring|);
    ReversedShape(s.pending[kept..]);
  }

  /** With at most one pending message, or no free place, a flush keeps the order. */
  lemma {:induction false} FlushKeepsOrder<T>(s: ChannelState<T>, capacity: nat)
    requires |s.ring| <= capacity && (|s.pending| <= 1 || |s.ring| == capacity)
    ensures Flushed(s, capacity).ring + Flushed(s, capacity).pending == s.ring + s.pending
  {
    if |s.ring| < capacity && s.pending != [] {
      assert s.pending == [Last(s.pending)] && Init(s.pending) == [];
    }
  }

  /** With two of them and a free place, the newest one overtakes. */
  lemma {:induction false} FlushOvertakes<T>(s: ChannelState<T>, capacity: nat)
    requires |s.pending| >= 2 && |s.ring| < capacity
    ensures var f := Flushed(s, capacity);
            |f.ring| > |s.ring| && f.ring[..|s.ring|] == s.ring && f.ring[|s.ring|] == Last(s.pending)
  {
    hide Flushed;
    FlushMoves(s, capacity);
    var kept := |s.pending| - Min(|s.pending|, capacity - |s.ring|);
    ReversedShape(s.pending[kept..]);
  }

  /** Such a call, and only such a call, breaks the order of distinct messages. */
  lemma {:induction false} OrderStep<T>(h: History<T>, capacity: nat, op: Op<T>)
    requires |h.state.ring| <= capacity && h.Contents() == h.accepted
    ensures var h' := Step(h, capacity, op);
            && (!Reorders(h.state, capacity, op) ==> h'.Contents() == h'.accepted)
            && (Reorders(h.state, capacity, op) && Distinct(h.accepted) ==>
                 Displaced(h') && h'.Contents() != h'.accepted)
  {
    hide Flushed, Step, Distinct;
    var s := h.state;
    var f := Flushed(s, capacity);
    if op.ReceiveOp? {
      ReceiveOrder(h, capacity);
    } else if Reorders(s, capacity, op) {
      if Distinct(h.accepted) {
        FlushOvertakes(s, capacity);
        ReorderVisible(h, f, capacity, op);
        DisplacedIsWrong(Step(h, capacity, op));
      }
    } else {
      FlushSizes(s, capacity);
      FlushKeepsOrder(s, capacity);
      SendOrder(h, f, capacity, op);
    }
  }

  lemma {:induction false} ReceiveOrder<T>(h: History<T>, capacity: nat)
    ensures var h' := Step(h, capacity, ReceiveOp); h'.Contents() == h.Contents() && h'.accepted == h.accepted
  {
    hide Flushed;
    if h.state.ring != [] {
      assert h.state.ring == [h.state.ring[0]] + h.state.ring[1..];
    }
  }

  lemma {:induction false} SendOrder<T>(h: History<T>, f: ChannelState<T>, capacity: nat, op: Op<T>)
    requires !op.ReceiveOp? && h.Contents() == h.accepted && f == Flushed(h.state, capacity)
    requires f.ring + f.pending == h.state.ring + h.state.pending && (f.pending == [] || |f.ring| == capacity)
    ensures Step(h, capacity, op).Contents() == Step(h, capacity, op).accepted
  {
    hide Flushed;
    assert h.received + f.ring + f.pending == h.received + (f.ring + f.pending);
    assert h.Contents() == h.received + (h.state.ring + h.state.pending);
  }

  /** What has been received or stands in the ring is not what was accepted at that place. */
  ghost predicate Displaced<T>(h: History<T>) {
    exists p :: 0 <= p < |h.received + h.state.ring| && DisplacedAt(h, p)
  }

  ghost predicate DisplacedAt<T>(h: History<T>, p: nat)
    requires p < |h.received + h.state.ring|
  {
    p < |h.accepted| && (h.received + h.state.ring)[p] != h.accepted[p]
  }

  lemma {:induction false} DisplacedIsWrong<T>(h: History<T>)
    requires Displaced(h)
    ensures h.Contents() != h.accepted
  {
    var p: nat :| p < |h.received + h.state.ring| && DisplacedAt(h, p);
    assert h.Contents()[p] == (h.received + h.state.ring)[p];
  }

  /** The newest pending message stands where the oldest one was accepted. */
  lemma {:induction false} ReorderVisible<T>(h: History<T>, f: ChannelState<T>, capacity: nat, op: Op<T>)
    requires h.Contents() == h.accepted && Reorders(h.state, capacity, op) && Distinct(h.accepted)
    requires f == Flushed(h.state, capacity) && |f.ring| > |h.state.ring|
    requires f.ring[|h.state.ring|] == Last(h.state.pending)
    ensures Displaced(Step(h, capacity, op))
  {
    hide Flushed;
    var s, h' := h.state, Step(h, capacity, op);
    var k := |h.received| + |s.ring|;
    assert h.accepted[k] == s.pending[0] && h.accepted[k + |s.pending| - 1] == Last(s.pending);
    assert (h'.received + h'.state.ring)[k] == f.ring[|s.ring|] == Last(s.pending);
    assert h'.accepted[k] == h.accepted[k];
    assert DisplacedAt(h', k);
  }

  ghost predicate ReordersAt<T>(capacity: nat, ops: seq<Op<T>>, k: nat)
    requires k < |ops|
  {
    Reorders(Run(capacity, ops[..k]).state, capacity, ops[k])
  }

  /** As long as no send meets two pending messages and a free place, messages are received in the order in which they
      were accepted: in particular whenever the channel never overflows. */
  lemma {:induction false} FirstInFirstOut<T>(capacity: nat, ops: seq<Op<T>>)
    requires forall k :: 0 <= k < |ops| ==> !ReordersAt(capacity, ops, k)
    ensures Run(capacity, ops).Contents() == Run(capacity, ops).accepted
    ensures Run(capacity, ops).received <= Run(capacity, ops).accepted
  {
    if ops != [] {
      var before := Init(ops);
      forall k | 0 <= k < |before| ensures !ReordersAt(capacity, before, k) {
        assert before[..k] == ops[..k] && !ReordersAt(capacity, ops, k);
      }
      FirstInFirstOut(capacity, before);
      ExactlyOnce(capacity, before);
      assert ops[..|ops| - 1] == before && !ReordersAt(capacity, ops, |ops| - 1);
      OrderStep(Run(capacity, before), capacity, Last(ops));
    }
  }

  lemma {:induction false} FlushKeepsRing<T>(s: ChannelState<T>, capacity: nat)
    ensures s.ring <= Flushed(s, capacity).ring
    decreases |s.pending|
  {
    if s.pending != [] && |s.ring| < capacity {
      FlushKeepsRing(ChannelState(s.ring + [Last(s.pending)], Init(s.pending)), capacity);
    }
  }

  /** Places in what was received or stands in the ring, and in what was accepted, are never revised. */
  lemma {:induction false} StepKeepsPlaces<T>(h: History<T>, capacity: nat, op: Op<T>)
    ensures var h' := Step(h, capacity, op);
            h.received + h.state.ring <= h'.received + h'.state.ring && h.accepted <= h'.accepted
  {
    hide Flushed;
    FlushKeepsRing(h.state, capacity);
    if op.ReceiveOp? && h.state.ring != [] {
      assert h.state.ring == [h.state.ring[0]] + h.state.ring[1..];
    }
  }

  lemma {:induction false} StaysDisplaced<T>(h: History<T>, capacity: nat, op: Op<T>)
    requires Displaced(h)
    ensures Displaced(Step(h, capacity, op))
  {
    hide Step;
    StepKeepsPlaces(h, capacity, op);
    var p: nat :| p < |h.received + h.state.ring| && DisplacedAt(h, p);
    assert DisplacedAt(Step(h, capacity, op), p);
  }

  /** Once a call has reordered distinct messages, a message stays displaced for the rest of the run. */
  lemma {:induction false} ReorderingLasts<T>(capacity: nat, ops: seq<Op<T>>, k: nat)
    requires k < |ops| && ReordersAt(capacity, ops, k) && Distinct(Run(capacity, ops).accepted)
    ensures Displaced(Run(capacity, ops))
    decreases |ops|
  {
    hide Run, Step, Reorders, Displaced, Distinct;
    var before := Init(ops);
    var h := Run(capacity, before);
    RunStep(capacity, ops);
    StepKeepsPlaces(h, capacity, Last(ops));
    PrefixDistinct(h.accepted, Run(capacity, ops).accepted);
    if k < |before| {
      assert before[..k] == ops[..k];
      ReorderingLasts(capacity, before, k);
      StaysDisplaced(h, capacity, Last(ops));
    } else if j: nat :| j < |before| && ReordersAt(capacity, before, j) {
      ReorderingLasts(capacity, before, j);
      StaysDisplaced(h, capacity, Last(ops));
    } else {
      assert ops[..k] == before;
      FirstInFirstOut(capacity, before);
      ExactlyOnce(capacity, before);
      OrderStep(h, capacity, Last(ops));
    }
  }

  lemma {:induction false} PrefixDistinct<T>(a: seq<T>, b: seq<T>)
    requires a <= b && Distinct(b)
    ensures Distinct(a)
  {
  }

  lemma {:induction false} RunStep<T>(capacity: nat, ops: seq<Op<T>>)
    requires ops != []
    ensures Run(capacity, ops) == Step(Run(capacity, Init(ops)), capacity, Last(ops))
  {
  }

  /** For distinct messages, the order of the channel is the order of acceptance at the end of a run if and only if no
      call of the run reordered: an overflow that reorders is never made good. */
  lemma {:induction false} OrderedExactly<T>(capacity: nat, ops: seq<Op<T>>)
    requires Distinct(Run(capacity, ops).accepted)
    ensures Run(capacity, ops).Contents() == Run(capacity, ops).accepted
            <==> forall k :: 0 <= k < |ops| ==> !ReordersAt(capacity, ops, k)
  {
    hide Run, Reorders, Displaced;
    if k: nat :| k < |ops| && ReordersAt(capacity, ops, k) {
      ReorderingLasts(capacity, ops, k);
      DisplacedIsWrong(Run(capacity, ops));
    } else {
      FirstInFirstOut(capacity, ops);
    }
  }

  /** Two forced messages can be received in the opposite order. */
  lemma {:induction false} OverflowReorders()
    ensures Run(1, [SendOp(0), ForceOp(1), ForceOp(2), ReceiveOp, SendOp(3), ReceiveOp]).received == [0, 2]
  {
    var ops := [SendOp(0), ForceOp(1), ForceOp(2), ReceiveOp, SendOp(3), ReceiveOp];
    var h1 := History([0], [], ChannelState([0], []));
    var h2 := History([0, 1], [], ChannelState([0], [1]));
    var h3 := History([0, 1, 2], [], ChannelState([0], [1, 2]));
    var h4 := History([0, 1, 2], [0], ChannelState([], [1, 2]));
    var h5 := History([0, 1, 2], [0], ChannelState([2], [1]));
    assert Init(ops[..1]) == [] && Init(ops[..2]) == ops[..1] && Init(ops[..3]) == ops[..2];
    assert Init(ops[..4]) == ops[..3] && Init(ops[..5]) == ops[..4] && Init(ops) == ops[..5];
    assert Run(1, ops[..1]) == h1 && Run(1, ops[..2]) == h2 && Run(1, ops[..3]) == h3 && Run(1, ops[..4]) == h4;
    assert Flushed(ChannelState([2], [1]), 1) == ChannelState([2], [1]);
    assert Flushed(ChannelState([], [1, 2]), 1) == ChannelState([2], [1]);
    assert Run(1, ops[..5]) == h5;
  }

  /** Dropping the sender keeps the oldest pending messages in order; it loses messages exactly when they do not all
      fit. */
  lemma {:induction false} DropLoses<T>(s: ChannelState<T>, capacity: nat)
    requires |s.ring| <= capacity
    ensures AfterDrop(s, capacity).ring <= s.ring + s.pending
    ensures AfterDrop(s, capacity).ring == s.ring + s.pending <==> |s.ring| + |s.pending| <= capacity
  {
    assert s.ring + s.pending == s.ring + s.pending[..Min(|s.pending|, capacity - |s.ring|)]
                                 + s.pending[Min(|s.pending|, capacity - |s.ring|)..];
  }
}

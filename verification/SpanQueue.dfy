/** `SpanQueue` of fastrace/src/local/span_queue.rs: one append-only vector of raw spans and one
    `nextParentId` that together encode a stack of open spans. Every well-nested run keeps them in
    step with an explicit stack. */
module SpanQueues {
  import opened Records

  datatype QueueState = QueueState(spans: seq<RawSpan>, nextParent: Option<SpanId>) {
    /** The parent id a new entry gets: `next_parent_id.unwrap_or_default()`. */
    function ParentId(): SpanId {
      if nextParent.Some? then nextParent.value else NO_ID
    }
  }

  /** One call on a queue. Fresh ids and the current time are given by the environment. */
  datatype Op =
    | Start(id: SpanId, now: Instant, name: string)
    | Finish(handle: nat, now: Instant)
    | AddEvent(id: SpanId, now: Instant, name: string, eventProperties: Option<Properties>)
    | AddProperties(id: SpanId, properties: Properties)
    | WithProperties(handle: nat, properties: Properties)

  function AfterAppend(q: QueueState, capacity: nat, span: RawSpan): QueueState {
    if |q.spans| >= capacity then q else q.(spans := q.spans + [span])
  }

  function AfterOp(q: QueueState, capacity: nat, op: Op): QueueState
    requires op.Finish? || op.WithProperties? ==> op.handle < |q.spans|
  {
    match op
    case Start(id, now, name) =>
      if |q.spans| >= capacity then q
      else QueueState(q.spans + [BeginWith(id, q.ParentId(), now, name, SpanKind)], Some(id))
    case Finish(handle, now) =>
      var span := q.spans[handle];
      QueueState(q.spans[handle := span.(end := now)], if span.parentId == NO_ID then None else Some(span.parentId))
    case AddEvent(id, now, name, properties) =>
      AfterAppend(q, capacity, BeginWith(id, q.ParentId(), now, name, EventKind).(properties := properties))
    case AddProperties(id, properties) =>
      AfterAppend(q, capacity, BeginWith(id, q.ParentId(), ZERO, "", PropertiesKind).Extended(properties))
    case WithProperties(handle, properties) =>
      q.(spans := q.spans[handle := q.spans[handle].Extended(properties)])
  }

  class SpanQueue {
    var spanQueue: seq<RawSpan>
    const capacity: nat
    var nextParentId: Option<SpanId>

    function State(): QueueState
      reads this
    {
      QueueState(spanQueue, nextParentId)
    }

    constructor WithCapacity(capacity: nat)
      ensures this.capacity == capacity && State() == QueueState([], None)
    {
      this.capacity := capacity;
      spanQueue, nextParentId := [], None;
    }

    method StartSpan(id: SpanId, now: Instant, name: string) returns (handle: Option<nat>)
      modifies this
      ensures State() == AfterOp(old(State()), capacity, Start(id, now, name))
      ensures handle == if old(|spanQueue|) < capacity then Some(old(|spanQueue|)) else None
    {
      if |spanQueue| >= capacity {
        return None;
      }
      var span := BeginWith(id, if nextParentId.Some? then nextParentId.value else NO_ID, now, name, SpanKind);
      nextParentId := Some(span.id);
      var index := |spanQueue|;
      spanQueue := spanQueue + [span];
      return Some(index);
    }

    /** The two debug assertions of the source are the preconditions. */
    method FinishSpan(handle: nat, now: Instant)
      requires handle < |spanQueue|
      requires nextParentId == Some(spanQueue[handle].id)
      modifies this
      ensures State() == AfterOp(old(State()), capacity, Finish(handle, now))
    {
      var span := spanQueue[handle].(end := now);
      spanQueue := spanQueue[handle := span];
      nextParentId := if span.parentId != NO_ID then Some(span.parentId) else None;
    }

    method AddEvent(id: SpanId, now: Instant, name: string, properties: Option<Properties>)
      modifies this
      ensures State() == AfterOp(old(State()), capacity, Op.AddEvent(id, now, name, properties))
    {
      if |spanQueue| >= capacity {
        return;
      }
      var span := BeginWith(id, if nextParentId.Some? then nextParentId.value else NO_ID, now, name, EventKind);
      span := span.(properties := properties);
      spanQueue := spanQueue + [span];
    }

    method AddProperties(id: SpanId, properties: Properties)
      modifies this
      ensures State() == AfterOp(old(State()), capacity, Op.AddProperties(id, properties))
    {
      if |spanQueue| >= capacity {
        return;
      }
      var span := BeginWith(id, if nextParentId.Some? then nextParentId.value else NO_ID, ZERO, "", PropertiesKind);
      span := span.Extended(properties);
      spanQueue := spanQueue + [span];
    }

    method WithProperties(handle: nat, properties: Properties)
      requires handle < |spanQueue|
      modifies this
      ensures State() == AfterOp(old(State()), capacity, Op.WithProperties(handle, properties))
    {
      spanQueue := spanQueue[handle := spanQueue[handle].Extended(properties)];
    }
  }

  // The explicit stack

  function IdsIn(spans: seq<RawSpan>): set<SpanId> {
    set s <- spans :: s.id
  }

  /** New ids are non-zero and not yet used in the queue, and a handle is one that a start returned:
      the innermost open one for a finish, any one for a property update. */
  ghost predicate WellNested(q: QueueState, open: seq<nat>, op: Op) {
    match op
    case Finish(handle, _) => open != [] && handle == Last(open)
    case WithProperties(handle, _) => handle < |q.spans| && q.spans[handle].kind.SpanKind?
    case Start(id, _, _) => id != NO_ID && id !in IdsIn(q.spans)
    case AddEvent(id, _, _, _) => id != NO_ID && id !in IdsIn(q.spans)
    case AddProperties(id, _) => id != NO_ID && id !in IdsIn(q.spans)
  }

  function OpenAfter(q: QueueState, capacity: nat, open: seq<nat>, op: Op): seq<nat> {
    match op
    case Start(_, _, _) => if |q.spans| >= capacity then open else open + [|q.spans|]
    case Finish(_, _) => if open == [] then [] else Init(open)
    case _ => open
  }

  ghost predicate DistinctIds(spans: seq<RawSpan>) {
    && (forall i :: 0 <= i < |spans| ==> spans[i].id != NO_ID)
    && (forall i, j :: 0 <= i < j < |spans| ==> spans[i].id != spans[j].id)
  }

  /** Entry `i` names entry `k` as its parent, or is a root when `k` is absent. */
  ghost predicate ParentIs(spans: seq<RawSpan>, i: nat, k: Option<nat>)
    requires i < |spans| && (k.Some? ==> k.value < |spans|)
  {
    spans[i].parentId == if k.Some? then spans[k.value].id else NO_ID
  }

  function Below(open: seq<nat>, j: nat): Option<nat>
    requires j < |open|
  {
    if j == 0 then None else Some(open[j - 1])
  }

  function Top(open: seq<nat>): Option<nat> {
    if open == [] then None else Some(Last(open))
  }

  /** Each open span hangs below the next one. */
  ghost predicate Linked(spans: seq<RawSpan>, open: seq<nat>)
    requires forall j :: 0 <= j < |open| ==> open[j] < |spans|
  {
    forall j {:trigger Below(open, j)} :: 0 <= j < |open| ==> ParentIs(spans, open[j], Below(open, j))
  }

  /** The vector and `nextParent` encode the stack `open` of indices, innermost last. */
  ghost predicate Encodes(q: QueueState, open: seq<nat>) {
    && DistinctIds(q.spans)
    && (forall j :: 0 <= j < |open| ==> open[j] < |q.spans| && q.spans[open[j]].kind.SpanKind?)
    && (forall i, j :: 0 <= i < j < |open| ==> open[i] < open[j])
    && Linked(q.spans, open)
    && q.nextParent == (if open == [] then None else Some(q.spans[Last(open)].id))
    && (forall i :: 0 <= i < |q.spans| ==> ParentEarlier(q.spans, i))
  }

  /** A recorded parent is an earlier span of the same queue. */
  ghost predicate ParentEarlier(spans: seq<RawSpan>, i: nat)
    requires i < |spans|
  {
    spans[i].parentId == NO_ID ||
    exists k :: 0 <= k < i && spans[k].id == spans[i].parentId && spans[k].kind.SpanKind?
  }

  /** The ids met by following parent links from `id` backwards through the first `bound` entries. */
  function Chain(spans: seq<RawSpan>, bound: nat, id: SpanId): seq<SpanId>
    requires bound <= |spans|
  {
    if bound == 0 then []
    else if spans[bound - 1].id == id then Chain(spans, bound - 1, spans[bound - 1].parentId) + [id]
    else Chain(spans, bound - 1, id)
  }

  function IdsAt(spans: seq<RawSpan>, open: seq<nat>): seq<SpanId>
    requires forall j :: 0 <= j < |open| ==> open[j] < |spans|
  {
    seq(|open|, j requires 0 <= j < |open| => spans[open[j]].id)
  }

  lemma {:induction false} ChainReachesId(spans: seq<RawSpan>, bound: nat, k: nat)
    requires DistinctIds(spans) && k < bound <= |spans|
    ensures Chain(spans, bound, spans[k].id) == Chain(spans, k, spans[k].parentId) + [spans[k].id]
  {
    if k < bound - 1 {
      ChainReachesId(spans, bound - 1, k);
    }
  }

  lemma {:induction false} ChainOfNoId(spans: seq<RawSpan>, bound: nat)
    requires DistinctIds(spans) && bound <= |spans|
    ensures Chain(spans, bound, NO_ID) == []
  {
    if bound > 0 {
      ChainOfNoId(spans, bound - 1);
    }
  }

  /** Following parent links from `nextParent` recovers the whole stack of open spans, because each parent
      sits at a smaller index than its child. */
  lemma {:induction false} ChainIsStack(q: QueueState, open: seq<nat>, bound: nat)
    requires Encodes(q, open) && (open != [] ==> Last(open) < bound) && bound <= |q.spans|
    ensures Chain(q.spans, bound, q.ParentId()) == IdsAt(q.spans, open)
    decreases |open|
  {
    if open == [] {
      ChainOfNoId(q.spans, bound);
    } else {
      var top := Last(open);
      var popped := PoppedView(q, open);
      assert IdsAt(q.spans, open) == IdsAt(q.spans, Init(open)) + [q.spans[top].id];
      ChainReachesId(q.spans, bound, top);
      ChainIsStack(popped, Init(open), top);
    }
  }

  /** The innermost span hangs below the next open one. */
  lemma {:induction false} ParentOfTop(q: QueueState, open: seq<nat>)
    requires Encodes(q, open) && open != []
    ensures Last(open) < |q.spans|
    ensures |open| == 1 ==> q.spans[Last(open)].parentId == NO_ID
    ensures |open| > 1 ==>
              var next := Last(Init(open));
              next < |q.spans| && q.spans[Last(open)].parentId == q.spans[next].id != NO_ID
  {
    hide ParentEarlier;
    assert ParentIs(q.spans, Last(open), Below(open, |open| - 1));
    assert |open| > 1 ==> Last(Init(open)) == open[|open| - 2];
  }

  /** The same vector seen with its innermost span closed. */
  lemma {:induction false} PoppedView(q: QueueState, open: seq<nat>) returns (popped: QueueState)
    requires Encodes(q, open) && open != []
    ensures Last(open) < |q.spans| && popped.ParentId() == q.spans[Last(open)].parentId
    ensures popped == QueueState(q.spans, if popped.ParentId() == NO_ID then None else Some(popped.ParentId()))
    ensures Encodes(popped, Init(open))
  {
    hide ParentEarlier, DistinctIds, ParentIs, Linked;
    ParentOfTop(q, open);
    LinkedLess(q.spans, open);
    var parentId := q.spans[Last(open)].parentId;
    popped := QueueState(q.spans, if parentId == NO_ID then None else Some(parentId));
  }

  lemma {:induction false} LinkedLess(spans: seq<RawSpan>, open: seq<nat>)
    requires open != [] && (forall j :: 0 <= j < |open| ==> open[j] < |spans|) && Linked(spans, open)
    ensures Linked(spans, Init(open))
  {
    hide ParentIs;
    forall j | 0 <= j < |Init(open)| ensures ParentIs(spans, Init(open)[j], Below(Init(open), j)) {
      assert ParentIs(spans, open[j], Below(open, j));
      assert Below(Init(open), j) == Below(open, j);
    }
  }

  lemma {:induction false} ParentStaysEarlier(before: seq<RawSpan>, after: seq<RawSpan>)
    requires |before| <= |after|
    requires forall i :: 0 <= i < |before| ==>
      after[i].id == before[i].id && after[i].parentId == before[i].parentId && after[i].kind == before[i].kind
    requires forall i :: 0 <= i < |before| ==> ParentEarlier(before, i)
    ensures forall i :: 0 <= i < |before| ==> ParentEarlier(after, i)
  {
    forall i | 0 <= i < |before| ensures ParentEarlier(after, i) {
      assert ParentEarlier(before, i);
      if before[i].parentId != NO_ID {
        var k :| 0 <= k < i && before[k].id == before[i].parentId && before[k].kind.SpanKind?;
        assert after[k].id == after[i].parentId;
      }
    }
  }

  /** Appending a raw span below the innermost open span keeps the encoding of the old stack. */
  lemma {:induction false} AppendEncodes(q: QueueState, open: seq<nat>, span: RawSpan)
    requires Encodes(q, open)
    requires span.id != NO_ID && span.id !in IdsIn(q.spans) && span.parentId == q.ParentId()
    ensures Encodes(q.(spans := q.spans + [span]), open)
    ensures ParentIs(q.spans + [span], |q.spans|, Top(open))
  {
    hide ParentIs, Linked, ParentEarlier, DistinctIds;
    var spans := q.spans + [span];
    StillLinked(q.spans, spans, open);
    StillDistinct(q.spans, span);
    ParentStaysEarlier(q.spans, spans);
    NewestHangs(q, open, span);
  }

  lemma {:induction false} StillLinked(before: seq<RawSpan>, after: seq<RawSpan>, open: seq<nat>)
    requires |before| <= |after| && (forall j :: 0 <= j < |open| ==> open[j] < |before|) && Linked(before, open)
    requires forall i :: 0 <= i < |before| ==> after[i].id == before[i].id && after[i].parentId == before[i].parentId
    ensures Linked(after, open)
  {
    forall j | 0 <= j < |open| ensures ParentIs(after, open[j], Below(open, j)) {
      assert ParentIs(before, open[j], Below(open, j));
    }
  }

  lemma {:induction false} StillDistinct(spans: seq<RawSpan>, span: RawSpan)
    requires DistinctIds(spans) && span.id != NO_ID && span.id !in IdsIn(spans)
    ensures DistinctIds(spans + [span])
  {
    forall i | 0 <= i < |spans| ensures spans[i].id != span.id {
      assert spans[i].id in IdsIn(spans);
    }
  }

  lemma {:induction false} NewestHangs(q: QueueState, open: seq<nat>, span: RawSpan)
    requires Encodes(q, open) && span.parentId == q.ParentId()
    ensures ParentIs(q.spans + [span], |q.spans|, Top(open)) && ParentEarlier(q.spans + [span], |q.spans|)
  {
    hide Linked, DistinctIds;
    if open != [] {
      assert (q.spans + [span])[Last(open)].id == span.parentId;
    }
  }

  /** Rewriting the end or the properties of an entry keeps the encoding. */
  lemma {:induction false} RewriteEncodes(q: QueueState, open: seq<nat>, k: nat, span: RawSpan)
    requires Encodes(q, open) && k < |q.spans|
    requires span.id == q.spans[k].id && span.parentId == q.spans[k].parentId && span.kind == q.spans[k].kind
    ensures Encodes(q.(spans := q.spans[k := span]), open)
  {
    hide ParentIs, Linked, ParentEarlier;
    var spans := q.spans[k := span];
    StillLinked(q.spans, spans, open);
    ParentStaysEarlier(q.spans, spans);
  }

  lemma {:induction false} StackInRange(q: QueueState, open: seq<nat>)
    requires Encodes(q, open)
    ensures forall j :: 0 <= j < |open| ==> open[j] < |q.spans|
  {
  }

  lemma {:induction false} TopOfStack(q: QueueState, open: seq<nat>)
    requires Encodes(q, open)
    ensures open == [] ==> q.nextParent == None
    ensures open != [] ==> Last(open) < |q.spans| && q.nextParent == Some(q.spans[Last(open)].id)
  {
  }

  /** Opening the newest entry, which was recorded below the innermost open span. */
  lemma {:induction false} OpenedEncodes(q: QueueState, open: seq<nat>)
    requires Encodes(q, open) && q.spans != [] && Last(q.spans).kind.SpanKind?
    requires forall j :: 0 <= j < |open| ==> open[j] < |q.spans| - 1
    requires ParentIs(q.spans, |q.spans| - 1, Top(open))
    ensures Encodes(QueueState(q.spans, Some(Last(q.spans).id)), open + [|q.spans| - 1])
  {
    hide ParentEarlier, DistinctIds, ParentIs, Linked;
    LinkedMore(q.spans, open);
  }

  lemma {:induction false} LinkedMore(spans: seq<RawSpan>, open: seq<nat>)
    requires spans != [] && (forall j :: 0 <= j < |open| ==> open[j] < |spans|) && Linked(spans, open)
    requires ParentIs(spans, |spans| - 1, Top(open))
    ensures Linked(spans, open + [|spans| - 1])
  {
    hide ParentIs;
    var open' := open + [|spans| - 1];
    forall j | 0 <= j < |open'| ensures ParentIs(spans, open'[j], Below(open', j)) {
      if j < |open| {
        assert ParentIs(spans, open[j], Below(open, j));
        assert Below(open', j) == Below(open, j);
      } else {
        assert Below(open', j) == Top(open);
      }
    }
  }

  /** Each well-nested call keeps the encoding and moves the stack by one level at most; a finish of the
      innermost handle meets both debug assertions of `finish_span`. */
  lemma {:induction false} StepEncodes(q: QueueState, capacity: nat, open: seq<nat>, op: Op)
    requires Encodes(q, open) && WellNested(q, open, op)
    ensures Encodes(AfterOp(q, capacity, op), OpenAfter(q, capacity, open, op))
    ensures op.Finish? ==> op.handle < |q.spans| && q.nextParent == Some(q.spans[op.handle].id)
  {
    hide Encodes, ParentIs, ParentEarlier, DistinctIds;
    TopOfStack(q, open);
    match op
    case Start(id, now, name) =>
      if |q.spans| < capacity {
        var span := BeginWith(id, q.ParentId(), now, name, SpanKind);
        AppendEncodes(q, open, span);
        StackInRange(q, open);
        OpenedEncodes(q.(spans := q.spans + [span]), open);
      }
    case Finish(handle, now) =>
      var span := q.spans[handle].(end := now);
      RewriteEncodes(q, open, handle, span);
      var popped := PoppedView(q.(spans := q.spans[handle := span]), open);
      assert popped == AfterOp(q, capacity, op);
    case AddEvent(id, now, name, properties) =>
      if |q.spans| < capacity {
        AppendEncodes(q, open, BeginWith(id, q.ParentId(), now, name, EventKind).(properties := properties));
      }
    case AddProperties(id, properties) =>
      if |q.spans| < capacity {
        AppendEncodes(q, open, BeginWith(id, q.ParentId(), ZERO, "", PropertiesKind).Extended(properties));
      }
    case WithProperties(handle, properties) =>
      RewriteEncodes(q, open, handle, q.spans[handle].Extended(properties));
  }

  /** The debug assertions of `finish_span` hold for a handle exactly when it is the innermost open one. */
  lemma {:induction false} FinishAssertions(q: QueueState, open: seq<nat>, handle: nat)
    requires Encodes(q, open)
    ensures (handle < |q.spans| && q.nextParent == Some(q.spans[handle].id)) <==> (open != [] && handle == Last(open))
  {
    if handle < |q.spans| && open != [] && handle != Last(open) {
      var first := handle < Last(open);
      var i, j := if first then handle else Last(open), if first then Last(open) else handle;
      assert q.spans[i].id != q.spans[j].id;
    }
  }

  // Whole runs

  /** The state and the stack after a run of calls from the empty queue, when every call is well-nested. */
  ghost predicate Reaches(capacity: nat, ops: seq<Op>, q: QueueState, open: seq<nat>)
    decreases |ops|
  {
    if ops == [] then q == QueueState([], None) && open == []
    else
      exists q0, open0 ::
        && Reaches(capacity, Init(ops), q0, open0)
        && WellNested(q0, open0, Last(ops))
        && (Last(ops).Finish? ==> Last(ops).handle < |q0.spans|)
        && q == AfterOp(q0, capacity, Last(ops))
        && open == OpenAfter(q0, capacity, open0, Last(ops))
  }

  lemma {:induction false} EmptyEncodes()
    ensures Encodes(QueueState([], None), [])
  {
  }

  lemma {:induction false} StaysWithinCapacity(q: QueueState, capacity: nat, op: Op)
    requires |q.spans| <= capacity && (op.Finish? || op.WithProperties? ==> op.handle < |q.spans|)
    ensures |q.spans| <= |AfterOp(q, capacity, op).spans| <= capacity
  {
  }

  /** In every reachable state the chain of parent links is the stack of open spans, innermost last,
      and the vector never outgrows its capacity. */
  lemma {:induction false} ReachableChain(capacity: nat, ops: seq<Op>, q: QueueState, open: seq<nat>)
    requires Reaches(capacity, ops, q, open)
    ensures Encodes(q, open) && |q.spans| <= capacity
    ensures Chain(q.spans, |q.spans|, q.ParentId()) == IdsAt(q.spans, open)
    decreases |ops|
  {
    hide Encodes, AfterOp, OpenAfter, Chain;
    EmptyEncodes();
    if ops != [] {
      var q0, open0 :| Reaches(capacity, Init(ops), q0, open0) && WellNested(q0, open0, Last(ops))
                       && (Last(ops).Finish? ==> Last(ops).handle < |q0.spans|)
                       && q == AfterOp(q0, capacity, Last(ops))
                       && open == OpenAfter(q0, capacity, open0, Last(ops));
      ReachableChain(capacity, Init(ops), q0, open0);
      StepEncodes(q0, capacity, open0, Last(ops));
      StaysWithinCapacity(q0, capacity, Last(ops));
    }
    StackInRange(q, open);
    ChainIsStack(q, open, |q.spans|);
  }
}

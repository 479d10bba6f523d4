/** `LocalSpanStack` and `SpanLine` (fastrace/src/local/local_span_stack.rs, fastrace/src/local/local_span_line.rs):
    a stack of span lines, each with its own queue, collect token and epoch. Programs that open and close spans and
    lines in last-in-first-out order leave everything below their own level untouched. */
module LocalStack {
  import opened Records
  import opened SpanQueues

  const DEFAULT_SPAN_QUEUE_SIZE := 1024
  // Epochs are counted modulo 2^64.
  const EPOCH_LIMIT: nat := 0x1_0000_0000_0000_0000

  /** A line as a value: its queue, its epoch and the token it was made with. */
  datatype LineState = LineState(queue: QueueState, epoch: nat, collectToken: Option<CollectToken>, isSampled: bool)

  datatype LocalSpanHandle = LocalSpanHandle(lineEpoch: nat, spanHandle: nat)

  function NewLine(epoch: nat, token: Option<CollectToken>): LineState {
    LineState(QueueState([], None), epoch, token, token.None? || exists item <- token.value :: item.isSampled)
  }

  /** Recording on a line: only when sampled. */
  function Recorded(line: LineState, op: Op): LineState
    requires op.Start? || op.AddEvent? || op.AddProperties?
  {
    if line.isSampled then line.(queue := AfterOp(line.queue, DEFAULT_SPAN_QUEUE_SIZE, op)) else line
  }

  function StartedHandle(line: LineState): Option<LocalSpanHandle> {
    if line.isSampled && |line.queue.spans| < DEFAULT_SPAN_QUEUE_SIZE
    then Some(LocalSpanHandle(line.epoch, |line.queue.spans|)) else None
  }

  /** A handle of another line does nothing. */
  function Finished(line: LineState, handle: LocalSpanHandle, now: Instant): LineState
    requires line.epoch == handle.lineEpoch ==> handle.spanHandle < |line.queue.spans|
  {
    if line.epoch == handle.lineEpoch
    then line.(queue := AfterOp(line.queue, DEFAULT_SPAN_QUEUE_SIZE, Finish(handle.spanHandle, now))) else line
  }

  function Annotated(line: LineState, handle: LocalSpanHandle, properties: Properties): LineState
    requires line.epoch == handle.lineEpoch ==> handle.spanHandle < |line.queue.spans|
  {
    if line.isSampled && line.epoch == handle.lineEpoch
    then
      line.(queue := AfterOp(line.queue, DEFAULT_SPAN_QUEUE_SIZE, Op.WithProperties(handle.spanHandle, properties)))
    else line
  }

  /** Items of the token a line was made with, below its innermost open span. */
  function CurrentToken(line: LineState): Option<CollectToken> {
    if line.collectToken.None? then None
    else
      var items := line.collectToken.value;
      Some(seq(|items|, i requires 0 <= i < |items| =>
        items[i].(parentId := if line.queue.nextParent.Some? then line.queue.nextParent.value else items[i].parentId)))
  }

  /** What a token item becomes below the open spans `open` of a queue. */
  function BelowOpen(item: TokenItem, queue: QueueState, open: seq<nat>): TokenItem
    requires forall j :: 0 <= j < |open| ==> open[j] < |queue.spans|
  {
    if open == [] then item else item.(parentId := queue.spans[Last(open)].id)
  }

  /** A new span or line hangs below the innermost open span of the line, or below the line's own parent when none is
      open; trace, collect id and flags are the line's. */
  lemma {:induction false} CurrentTokenIsInnermost(line: LineState, open: seq<nat>)
    requires Encodes(line.queue, open)
    ensures CurrentToken(line).Some? <==> line.collectToken.Some?
    ensures line.collectToken.Some? ==>
              && |CurrentToken(line).value| == |line.collectToken.value|
              && forall i :: 0 <= i < |line.collectToken.value| ==>
                   CurrentToken(line).value[i] == BelowOpen(line.collectToken.value[i], line.queue, open)
  {
    hide Encodes;
    TopOfStack(line.queue, open);
    StackInRange(line.queue, open);
  }

  class SpanLine {
    const spanQueue: SpanQueue
    const epoch: nat
    const collectToken: Option<CollectToken>
    const isSampled: bool

    function State(): LineState
      reads spanQueue
    {
      LineState(spanQueue.State(), epoch, collectToken, isSampled)
    }

    constructor (epoch: nat, token: Option<CollectToken>)
      ensures State() == NewLine(epoch, token)
      ensures fresh(spanQueue) && spanQueue.capacity == DEFAULT_SPAN_QUEUE_SIZE
    {
      this.epoch, collectToken := epoch, token;
      isSampled := token.None? || exists item <- token.value :: item.isSampled;
      spanQueue := new SpanQueue.WithCapacity(DEFAULT_SPAN_QUEUE_SIZE);
    }

    method StartSpan(id: SpanId, now: Instant, name: string) returns (handle: Option<LocalSpanHandle>)
      requires spanQueue.capacity == DEFAULT_SPAN_QUEUE_SIZE
      modifies spanQueue
      ensures handle == StartedHandle(old(State())) && State() == Recorded(old(State()), Start(id, now, name))
      ensures isSampled && |old(State()).queue.spans| < 1024 ==>
                State().queue == QueueState(old(State()).queue.spans +
                  [RawSpan(id, old(State()).queue.ParentId(), now, name, None, SpanKind, 0)], Some(id))
    {
      if !isSampled {
        return None;
      }
      var h := spanQueue.StartSpan(id, now, name);
      if h.None? {
        return None;
      }
      return Some(LocalSpanHandle(epoch, h.value));
    }

    /** The preconditions on a handle of this line are the debug assertions of the queue. */
    method FinishSpan(handle: LocalSpanHandle, now: Instant)
      requires epoch == handle.lineEpoch ==>
                 && handle.spanHandle < |spanQueue.spanQueue|
                 && spanQueue.nextParentId == Some(spanQueue.spanQueue[handle.spanHandle].id)
      modifies spanQueue
      ensures State() == Finished(old(State()), handle, now)
    {
      if epoch == handle.lineEpoch {
        spanQueue.FinishSpan(handle.spanHandle, now);
      }
    }

    method AddEvent(id: SpanId, now: Instant, name: string, properties: Option<Properties>)
      requires spanQueue.capacity == DEFAULT_SPAN_QUEUE_SIZE
      modifies spanQueue
      ensures State() == Recorded(old(State()), Op.AddEvent(id, now, name, properties))
      ensures isSampled && |old(State()).queue.spans| < 1024 ==>
                State().queue.spans == old(State()).queue.spans +
                  [RawSpan(id, old(State()).queue.ParentId(), now, name, properties, EventKind, 0)]
    {
      if !isSampled {
        return;
      }
      spanQueue.AddEvent(id, now, name, properties);
    }

    method AddProperties(id: SpanId, properties: Properties)
      requires spanQueue.capacity == DEFAULT_SPAN_QUEUE_SIZE
      modifies spanQueue
      ensures State() == Recorded(old(State()), Op.AddProperties(id, properties))
      ensures isSampled && |old(State()).queue.spans| < 1024 ==>
                State().queue.spans == old(State()).queue.spans +
                  [RawSpan(id, old(State()).queue.ParentId(), 0, "", Some(properties), PropertiesKind, 0)]
    {
      if !isSampled {
        return;
      }
      spanQueue.AddProperties(id, properties);
      assert [] + properties == properties;
    }

    method WithProperties(handle: LocalSpanHandle, properties: Properties)
      requires epoch == handle.lineEpoch ==> handle.spanHandle < |spanQueue.spanQueue|
      modifies spanQueue
      ensures State() == Annotated(old(State()), handle, properties)
    {
      if !isSampled {
        return;
      }
      if epoch == handle.lineEpoch {
        spanQueue.WithProperties(handle.spanHandle, properties);
      }
    }

    /** Maps the line's own items to those that a span or line below it gets. */
    method CurrentCollectToken() returns (token: Option<CollectToken>)
      ensures token == CurrentToken(State())
    {
      if collectToken.None? {
        return None;
      }
      var items, current: CollectToken := collectToken.value, [];
      for i := 0 to |items|
        invariant |current| == i
        invariant forall k :: 0 <= k < i ==> current[k] == CurrentToken(State()).value[k]
      {
        var parentId := if spanQueue.nextParentId.Some? then spanQueue.nextParentId.value else items[i].parentId;
        var item := TokenItem(items[i].traceId, parentId, items[i].collectId, items[i].isRoot, items[i].isSampled);
        current := current + [item];
      }
      assert current == CurrentToken(State()).value;
      return Some(current);
    }

    /** Consumes the line; only its own epoch gets at what it recorded. */
    method Collect(epoch: nat) returns (collected: Option<(seq<RawSpan>, Option<CollectToken>)>)
      ensures collected.Some? <==> State().epoch == epoch
      ensures collected.Some? ==> collected.value == (State().queue.spans, State().collectToken)
    {
      if this.epoch == epoch {
        return Some((spanQueue.spanQueue, collectToken));
      }
      return None;
    }
  }

  class LocalSpanStack {
    var spanLines: seq<SpanLine>
    const capacity: nat
    var nextSpanLineEpoch: nat

    ghost function Queues(): set<SpanQueue>
      reads this
    {
      set line <- spanLines :: line.spanQueue
    }

    /** No two lines share a queue. */
    ghost predicate Valid()
      reads this
    {
      && (forall i :: 0 <= i < |spanLines| ==> spanLines[i].spanQueue.capacity == DEFAULT_SPAN_QUEUE_SIZE)
      && (forall i, j :: 0 <= i < j < |spanLines| ==> spanLines[i].spanQueue != spanLines[j].spanQueue)
    }

    function Lines(): seq<LineState>
      reads this, set line <- spanLines :: line.spanQueue
    {
      seq(|spanLines|, i requires 0 <= i < |spanLines| reads this, set line <- spanLines :: line.spanQueue =>
        spanLines[i].State())
    }

    constructor WithCapacity(capacity: nat)
      ensures Valid() && Lines() == [] && this.capacity == capacity && nextSpanLineEpoch == 0
    {
      this.capacity := capacity;
      spanLines, nextSpanLineEpoch := [], 0;
    }

    /** Only the innermost line records the span; without a line, or an unsampled or full one, nothing happens. */
    method EnterSpan(id: SpanId, now: Instant, name: string) returns (handle: Option<LocalSpanHandle>)
      requires Valid()
      modifies Queues()
      ensures Lines() == if old(Lines()) == [] then []
                         else Init(old(Lines())) + [Recorded(Last(old(Lines())), Start(id, now, name))]
      ensures handle == if old(Lines()) == [] then None else StartedHandle(Last(old(Lines())))
    {
      if spanLines == [] {
        return None;
      }
      handle := Last(spanLines).StartSpan(id, now, name);
    }

    /** A handle of any other line, or none to exit from, changes nothing at all. */
    method ExitSpan(handle: LocalSpanHandle, now: Instant)
      requires Valid()
      requires spanLines != [] && Last(spanLines).epoch == handle.lineEpoch ==>
                 var queue := Last(spanLines).spanQueue;
                 && handle.spanHandle < |queue.spanQueue|
                 && queue.nextParentId == Some(queue.spanQueue[handle.spanHandle].id)
      modifies Queues()
      ensures Lines() == if old(Lines()) == [] then []
                         else Init(old(Lines())) + [Finished(Last(old(Lines())), handle, now)]
      ensures old(Lines()) == [] || Last(old(Lines())).epoch != handle.lineEpoch ==> Lines() == old(Lines())
    {
      if spanLines != [] {
        Last(spanLines).FinishSpan(handle, now);
      }
    }

    /** Only a sampled innermost line records the event. */
    method AddEvent(id: SpanId, now: Instant, name: string, properties: Option<Properties>)
      requires Valid()
      modifies Queues()
      ensures Lines() == if old(Lines()) == [] then []
                         else
                           var op := Op.AddEvent(id, now, name, properties);
                           Init(old(Lines())) + [Recorded(Last(old(Lines())), op)]
      ensures old(Lines()) == [] || !Last(old(Lines())).isSampled ==> Lines() == old(Lines())
      ensures old(Lines()) != [] && Last(old(Lines())).isSampled && |Last(old(Lines())).queue.spans| < 1024 ==>
                var queue := Last(old(Lines())).queue;
                |Lines()| == |old(Lines())| &&
                Last(Lines()).queue.spans
                == queue.spans + [RawSpan(id, queue.ParentId(), now, name, properties, EventKind, 0)]
    {
      if spanLines != [] {
        Last(spanLines).AddEvent(id, now, name, properties);
      }
    }

    /** Only a sampled innermost line records the properties. */
    method AddProperties(id: SpanId, properties: Properties)
      requires Valid()
      modifies Queues()
      ensures Lines() == if old(Lines()) == [] then []
                         else Init(old(Lines())) + [Recorded(Last(old(Lines())), Op.AddProperties(id, properties))]
      ensures old(Lines()) == [] || !Last(old(Lines())).isSampled ==> Lines() == old(Lines())
    {
      if spanLines != [] {
        Last(spanLines).AddProperties(id, properties);
      }
    }

    /** The source asserts that there is a line. A handle of another line, or an unsampled line, changes nothing. */
    method WithProperties(handle: LocalSpanHandle, properties: Properties)
      requires Valid() && spanLines != []
      requires Last(spanLines).epoch == handle.lineEpoch ==>
                 handle.spanHandle < |Last(spanLines).spanQueue.spanQueue|
      modifies Queues()
      ensures Lines() == Init(old(Lines())) + [Annotated(Last(old(Lines())), handle, properties)]
      ensures Last(old(Lines())).epoch != handle.lineEpoch || !Last(old(Lines())).isSampled ==> Lines() == old(Lines())
    {
      Last(spanLines).WithProperties(handle, properties);
    }

    method RegisterSpanLine(token: Option<CollectToken>) returns (epoch: Option<nat>)
      requires Valid()
      modifies this
      ensures Valid() && fresh(Queues() - old(Queues()))
      ensures epoch == if |old(Lines())| < capacity then Some(old(nextSpanLineEpoch)) else None
      ensures Lines() == if epoch.Some? then old(Lines()) + [NewLine(epoch.value, token)] else old(Lines())
      ensures nextSpanLineEpoch
              == if epoch.Some? then (old(nextSpanLineEpoch) + 1) % EPOCH_LIMIT else old(nextSpanLineEpoch)
    {
      if |spanLines| >= capacity {
        return None;
      }
      var e := nextSpanLineEpoch;
      nextSpanLineEpoch := (nextSpanLineEpoch + 1) % EPOCH_LIMIT;
      var line := new SpanLine(e, token);
      spanLines := spanLines + [line];
      return Some(e);
    }

    /** The debug assertion of the source says that the stack is not empty; the epoch it compares decides the result. */
    method UnregisterAndCollect(epoch: nat) returns (collected: Option<(seq<RawSpan>, Option<CollectToken>)>)
      requires Valid() && spanLines != []
      modifies `spanLines
      ensures Valid() && Lines() == Init(old(Lines()))
      ensures collected.Some? <==> Last(old(Lines())).epoch == epoch
      ensures collected.Some? ==>
                collected.value == (Last(old(Lines())).queue.spans, Last(old(Lines())).collectToken)
    {
      var line := Last(spanLines);
      spanLines := Init(spanLines);
      collected := line.Collect(epoch);
    }

    /** The token of the innermost line, each item below the innermost span that is open on it. */
    method CurrentCollectToken() returns (token: Option<CollectToken>)
      ensures token.Some? <==> Lines() != [] && Last(Lines()).collectToken.Some?
      ensures token.Some? ==> token == CurrentToken(Last(Lines()))
      ensures token.Some? ==> |token.value| == |Last(Lines()).collectToken.value|
      ensures forall open :: token.Some? && Encodes(Last(Lines()).queue, open) ==>
                forall i :: 0 <= i < |token.value| ==>
                  (forall j :: 0 <= j < |open| ==> open[j] < |Last(Lines()).queue.spans|) &&
                  token.value[i] == BelowOpen(Last(Lines()).collectToken.value[i], Last(Lines()).queue, open)
    {
      if spanLines == [] {
        return None;
      }
      token := Last(spanLines).CurrentCollectToken();
      forall open | token.Some? && Encodes(Last(Lines()).queue, open)
        ensures forall j :: 0 <= j < |open| ==> open[j] < |Last(Lines()).queue.spans|
        ensures forall i :: 0 <= i < |token.value| ==>
                  token.value[i] == BelowOpen(Last(Lines()).collectToken.value[i], Last(Lines()).queue, open)
      {
        StackInRange(Last(Lines()).queue, open);
        CurrentTokenIsInnermost(Last(Lines()), open);
      }
    }
  }

  /** The entry of a recording call, field by field. */
  function EntryOf(op: Op, parentId: SpanId): RawSpan
    requires op.Start? || op.AddEvent? || op.AddProperties?
  {
    match op
    case Start(id, now, name) => RawSpan(id, parentId, now, name, None, SpanKind, 0)
    case AddEvent(id, now, name, properties) => RawSpan(id, parentId, now, name, properties, EventKind, 0)
    case AddProperties(id, properties) => RawSpan(id, parentId, 0, "", Some(properties), PropertiesKind, 0)
  }

  /** Recording on a sampled line with room appends exactly one entry, below the innermost open span, and only a new
      span becomes the parent of what follows. Otherwise the line stays as it is. */
  lemma {:induction false} RecordedExactly(line: LineState, open: seq<nat>, op: Op)
    requires Encodes(line.queue, open) && (op.Start? || op.AddEvent? || op.AddProperties?)
    ensures forall j :: 0 <= j < |open| ==> open[j] < |line.queue.spans|
    ensures var line', q := Recorded(line, op), line.queue;
            if line.isSampled && |q.spans| < 1024 then
              && line'.queue.spans == q.spans + [EntryOf(op, if open == [] then 0 else q.spans[Last(open)].id)]
              && line'.queue.nextParent == (if op.Start? then Some(op.id) else q.nextParent)
              && (line'.epoch, line'.collectToken, line'.isSampled) == (line.epoch, line.collectToken, true)
            else line' == line
  {
    hide Encodes;
    TopOfStack(line.queue, open);
    StackInRange(line.queue, open);
    if op.AddProperties? {
      assert [] + op.properties == op.properties;
    }
  }

  /** Ending the innermost open span through a handle of the line stamps that span alone and makes the one below it the
      parent of what follows; a properties update extends the properties of that span alone. */
  lemma {:induction false} HandledExactly(line: LineState, open: seq<nat>, handle: LocalSpanHandle, now: Instant,
                                          properties: Properties)
    requires Encodes(line.queue, open) && open != [] && handle == LocalSpanHandle(line.epoch, Last(open))
    ensures forall j :: 0 <= j < |open| ==> open[j] < |line.queue.spans|
    ensures var ended, spans := Finished(line, handle, now), line.queue.spans;
            && |ended.queue.spans| == |spans|
            && (forall i :: 0 <= i < |spans| && i != Last(open) ==> ended.queue.spans[i] == spans[i])
            && ended.queue.spans[Last(open)] == spans[Last(open)].(end := now)
            && ended.queue.nextParent == (if |open| == 1 then None else Some(spans[open[|open| - 2]].id))
            && (ended.epoch, ended.collectToken, ended.isSampled) == (line.epoch, line.collectToken, line.isSampled)
    ensures var annotated, spans := Annotated(line, handle, properties), line.queue.spans;
            if line.isSampled then
              var own := spans[Last(open)].OwnProperties();
              && |annotated.queue.spans| == |spans| && annotated == line.(queue := annotated.queue)
              && (forall i :: 0 <= i < |spans| && i != Last(open) ==> annotated.queue.spans[i] == spans[i])
              && annotated.queue.spans[Last(open)] == spans[Last(open)].(properties := Some(own + properties))
              && annotated.queue.nextParent == line.queue.nextParent
            else annotated == line
  {
    hide Encodes;
    StackInRange(line.queue, open);
    ParentOfTop(line.queue, open);
  }

  /** A handle that belongs to another line changes nothing, neither when its span ends nor when
      properties are added. */
  lemma {:induction false} ForeignHandle(line: LineState, handle: LocalSpanHandle, now: Instant, properties: Properties)
    requires line.epoch != handle.lineEpoch
    ensures Finished(line, handle, now) == line && Annotated(line, handle, properties) == line
  {
  }

  // Programs

  /** What a thread does between two points of its run, in last-in-first-out order. A span carries its own properties,
      set through its handle, and what happens until it is dropped; a line what happens until its guard is dropped. */
  datatype Action =
    | SpanAction(name: string, begin: Instant, end: Instant, own: Properties, body: seq<Action>)
    | LineAction(token: Option<CollectToken>, body: seq<Action>)
    | EventAction(name: string, now: Instant, eventProperties: Option<Properties>)
    | PropertiesAction(properties: Properties)

  /** `nextId` supplies fresh ids, `registered` counts the lines made so far, and `asserted` tells whether every
      assertion of the source has held. */
  datatype ThreadState = ThreadState(lines: seq<LineState>, nextId: SpanId, registered: nat, asserted: bool) {
    function NextEpoch(): nat {
      registered % EPOCH_LIMIT
    }

    function WithTop(line: LineState): ThreadState
      requires lines != []
    {
      this.(lines := Init(lines) + [line])
    }
  }

  function Perform(st: ThreadState, capacity: nat, a: Action): ThreadState
    decreases a
  {
    var advanced := st.(nextId := st.nextId + 1);
    match a
    case EventAction(name, now, properties) =>
      if st.lines == [] then advanced
      else advanced.WithTop(Recorded(Last(st.lines), Op.AddEvent(st.nextId, now, name, properties)))
    case PropertiesAction(properties) =>
      if st.lines == [] then advanced
      else advanced.WithTop(Recorded(Last(st.lines), Op.AddProperties(st.nextId, properties)))
    case SpanAction(name, begin, end, own, body) =>
      var handle := if st.lines == [] then None else StartedHandle(Last(st.lines));
      var entered := if st.lines == [] then advanced
        else advanced.WithTop(Recorded(Last(st.lines), Start(st.nextId, begin, name)));
      if handle.None? then PerformAll(entered, capacity, body)
      else Exited(PerformAll(OwnProperties(entered, handle.value, own), capacity, body), handle.value, end)
    case LineAction(token, body) =>
      if |st.lines| >= capacity then PerformAll(st, capacity, body)
      else
        var registered := st.(lines := st.lines + [NewLine(st.NextEpoch(), token)], registered := st.registered + 1);
        Unregistered(PerformAll(registered, capacity, body), st.NextEpoch(), capacity)
  }

  function PerformAll(st: ThreadState, capacity: nat, actions: seq<Action>): ThreadState
    decreases actions
  {
    if actions == [] then st else PerformAll(Perform(st, capacity, actions[0]), capacity, actions[1..])
  }

  function OwnProperties(st: ThreadState, handle: LocalSpanHandle, own: Properties): ThreadState {
    if st.lines != [] && Last(st.lines).epoch == handle.lineEpoch && handle.spanHandle < |Last(st.lines).queue.spans|
    then st.WithTop(Annotated(Last(st.lines), handle, own)) else st.(asserted := false)
  }

  /** `exit_span`, with its own debug assertion and the two of `SpanQueue::finish_span`. */
  function Exited(st: ThreadState, handle: LocalSpanHandle, now: Instant): ThreadState {
    if && st.lines != [] && Last(st.lines).epoch == handle.lineEpoch
       && handle.spanHandle < |Last(st.lines).queue.spans|
       && Last(st.lines).queue.nextParent == Some(Last(st.lines).queue.spans[handle.spanHandle].id)
    then st.WithTop(Finished(Last(st.lines), handle, now)) else st.(asserted := false)
  }

  /** `unregister_and_collect`, with its debug assertion; the stack must not have outgrown its capacity. */
  function Unregistered(st: ThreadState, epoch: nat, capacity: nat): ThreadState {
    if st.lines != [] && Last(st.lines).epoch == epoch && |st.lines| <= capacity
    then st.(lines := Init(st.lines)) else st.(asserted := false)
  }

  // What every program keeps

  /** The lines of a thread: distinct epochs below the counter while it has not wrapped around, ids below the supply. */
  ghost predicate Good(st: ThreadState) {
    && st.asserted && st.nextId > NO_ID
    && (forall i :: 0 <= i < |st.lines| ==> LineGood(st, st.lines[i]))
    && (forall i, j :: 0 <= i < j < |st.lines| ==> st.lines[i].epoch != st.lines[j].epoch)
  }

  ghost predicate LineGood(st: ThreadState, line: LineState) {
    line.epoch < st.registered && forall s <- line.queue.spans :: s.id < st.nextId
  }

  /** The innermost line encodes the stack `open` of open spans. */
  ghost predicate TopEncodes(st: ThreadState, open: seq<nat>) {
    st.lines != [] ==> Encodes(Last(st.lines).queue, open)
  }

  /** From `st` to `st'` only the queue of the innermost line has grown, and its open spans are as before. */
  ghost predicate Kept(st: ThreadState, st': ThreadState, open: seq<nat>) {
    && Good(st') && TopEncodes(st', open)
    && |st'.lines| == |st.lines| && st.registered <= st'.registered && st.nextId <= st'.nextId
    && (st.lines != [] ==> Init(st'.lines) == Init(st.lines) && LineKept(Last(st.lines), Last(st'.lines)))
  }

  ghost predicate LineKept(line: LineState, line': LineState) {
    && line' == line.(queue := line'.queue) && line'.queue.nextParent == line.queue.nextParent
    && |line.queue.spans| <= |line'.queue.spans|
    && forall i :: 0 <= i < |line.queue.spans| ==> SameSpan(line.queue.spans[i], line'.queue.spans[i])
  }

  ghost predicate SameSpan(a: RawSpan, b: RawSpan) {
    a.id == b.id && a.parentId == b.parentId && a.kind == b.kind
  }

  /** How many lines a program may register. */
  function Registrations(actions: seq<Action>): nat
    decreases actions
  {
    if actions == [] then 0 else RegistrationsOf(actions[0]) + Registrations(actions[1..])
  }

  function RegistrationsOf(a: Action): nat
    decreases a
  {
    match a
    case SpanAction(_, _, _, _, body) => Registrations(body)
    case LineAction(_, body) => 1 + Registrations(body)
    case _ => 0
  }

  lemma {:induction false} TopUpdate(st: ThreadState, st': ThreadState, line: LineState, open: seq<nat>)
    requires Good(st) && st.lines != [] && st' == st.(nextId := st'.nextId, lines := Init(st.lines) + [line])
    requires st.nextId <= st'.nextId && line == Last(st.lines).(queue := line.queue)
    requires Encodes(line.queue, open) && forall s <- line.queue.spans :: s.id < st'.nextId
    ensures Good(st') && TopEncodes(st', open)
  {
    forall i | 0 <= i < |st'.lines| ensures LineGood(st', st'.lines[i]) && st'.lines[i].epoch == st.lines[i].epoch {
      assert LineGood(st, st.lines[i]);
    }
  }

  /** A recording call on the innermost line. */
  lemma {:induction false} RecordKeeps(st: ThreadState, op: Op, open: seq<nat>)
    requires Good(st) && TopEncodes(st, open) && st.lines != []
    requires (op.Start? || op.AddEvent? || op.AddProperties?) && op.id == st.nextId
    ensures var line := Last(st.lines);
            var st' := st.(nextId := st.nextId + 1).WithTop(Recorded(line, op));
            var open' := if line.isSampled then OpenAfter(line.queue, DEFAULT_SPAN_QUEUE_SIZE, open, op) else open;
            && Good(st') && TopEncodes(st', open')
            && Init(st'.lines) == Init(st.lines)
            && |line.queue.spans| <= |Last(st'.lines).queue.spans|
            && (forall i :: 0 <= i < |line.queue.spans| ==> Last(st'.lines).queue.spans[i] == line.queue.spans[i])
            && (open' == open ==> LineKept(line, Last(st'.lines)))
  {
    hide Encodes, OpenAfter;
    var line := Last(st.lines);
    var st' := st.(nextId := st.nextId + 1).WithTop(Recorded(line, op));
    assert LineGood(st, line);
    if line.isSampled {
      assert op.id !in IdsIn(line.queue.spans);
      StepEncodes(line.queue, DEFAULT_SPAN_QUEUE_SIZE, open, op);
      OpenGrows(line.queue, DEFAULT_SPAN_QUEUE_SIZE, open, op);
      TopUpdate(st, st', Recorded(line, op), OpenAfter(line.queue, DEFAULT_SPAN_QUEUE_SIZE, open, op));
    } else {
      TopUpdate(st, st', line, open);
    }
  }

  lemma {:induction false} OpenGrows(q: QueueState, capacity: nat, open: seq<nat>, op: Op)
    requires op.Start? || op.AddEvent? || op.AddProperties?
    ensures OpenAfter(q, capacity, open, op) ==
            if op.Start? && |q.spans| < capacity then open + [|q.spans|] else open
    ensures OpenAfter(q, capacity, open, op) == open ==> AfterOp(q, capacity, op).nextParent == q.nextParent
  {
  }

  lemma {:induction false} KeptSelf(st: ThreadState, st': ThreadState, open: seq<nat>)
    requires Good(st) && TopEncodes(st, open)
    requires st' == st.(nextId := st'.nextId, registered := st'.registered)
    requires st.nextId <= st'.nextId && st.registered <= st'.registered
    ensures Kept(st, st', open)
  {
    forall i | 0 <= i < |st'.lines| ensures LineGood(st', st'.lines[i]) {
      assert LineGood(st, st.lines[i]);
    }
  }

  lemma {:induction false} KeptTrans(a: ThreadState, b: ThreadState, c: ThreadState, open: seq<nat>)
    requires Kept(a, b, open) && Kept(b, c, open)
    ensures Kept(a, c, open)
  {
    hide Good, TopEncodes;
    if a.lines != [] {
      var x, y, z := Last(a.lines).queue.spans, Last(b.lines).queue.spans, Last(c.lines).queue.spans;
      forall i | 0 <= i < |x| ensures SameSpan(x[i], z[i]) {
        assert SameSpan(x[i], y[i]) && SameSpan(y[i], z[i]);
      }
    }
  }

  /** Two encodings of the same open spans have the same innermost parent. */
  lemma {:induction false} SameParent(q: QueueState, q': QueueState, open: seq<nat>)
    requires Encodes(q, open) && Encodes(q', open) && |q.spans| <= |q'.spans|
    requires forall i :: 0 <= i < |q.spans| ==> SameSpan(q.spans[i], q'.spans[i])
    ensures q.nextParent == q'.nextParent
  {
    if open != [] {
      assert SameSpan(q.spans[Last(open)], q'.spans[Last(open)]);
    }
  }

  /** The innermost open entry of a queue. */
  lemma {:induction false} InnermostOpen(q: QueueState, open: seq<nat>)
    requires Encodes(q, open) && open != []
    ensures Last(open) < |q.spans| && q.spans[Last(open)].kind.SpanKind?
    ensures q.nextParent == Some(q.spans[Last(open)].id)
  {
  }

  /** Setting the properties of the innermost open span. */
  lemma {:induction false} OwnKeeps(st: ThreadState, handle: LocalSpanHandle, own: Properties, open: seq<nat>)
    requires Good(st) && TopEncodes(st, open) && st.lines != [] && open != []
    requires handle == LocalSpanHandle(Last(st.lines).epoch, Last(open))
    ensures Kept(st, OwnProperties(st, handle, own), open)
  {
    hide Encodes;
    var line := Last(st.lines);
    assert LineGood(st, line);
    InnermostOpen(line.queue, open);
    if line.isSampled {
      var op := Op.WithProperties(handle.spanHandle, own);
      var line' := line.(queue := AfterOp(line.queue, DEFAULT_SPAN_QUEUE_SIZE, op));
      StepEncodes(line.queue, DEFAULT_SPAN_QUEUE_SIZE, open, op);
      assert OpenAfter(line.queue, DEFAULT_SPAN_QUEUE_SIZE, open, op) == open;
      TopUpdate(st, st.WithTop(line'), line', open);
    } else {
      TopUpdate(st, st.WithTop(line), line, open);
    }
  }

  /** Leaving the innermost open span: all assertions hold and the stack below it is restored. */
  lemma {:induction false} ExitKeeps(st: ThreadState, st': ThreadState, handle: LocalSpanHandle, now: Instant,
                                     open: seq<nat>)
    requires Good(st) && TopEncodes(st, open) && st.lines != []
    requires handle == LocalSpanHandle(Last(st.lines).epoch, |Last(st.lines).queue.spans|)
    requires Good(st') && TopEncodes(st', open + [handle.spanHandle]) && |st'.lines| == |st.lines|
    requires st.registered <= st'.registered && st.nextId <= st'.nextId && Init(st'.lines) == Init(st.lines)
    requires var line, line' := Last(st.lines), Last(st'.lines);
             && line' == line.(queue := line'.queue) && |line.queue.spans| <= |line'.queue.spans|
             && forall i :: 0 <= i < |line.queue.spans| ==> SameSpan(line.queue.spans[i], line'.queue.spans[i])
    ensures Kept(st, Exited(st', handle, now), open)
  {
    hide Encodes;
    var line, line', open' := Last(st.lines), Last(st'.lines), open + [handle.spanHandle];
    var op := Finish(handle.spanHandle, now);
    assert LineGood(st', line');
    InnermostOpen(line'.queue, open');
    StepEncodes(line'.queue, DEFAULT_SPAN_QUEUE_SIZE, open', op);
    assert Init(open') == open;
    var after := Finished(line', handle, now);
    assert forall i :: 0 <= i < |line'.queue.spans| ==> SameSpan(line'.queue.spans[i], after.queue.spans[i]);
    FinishKeepsIds(line'.queue, handle.spanHandle, now, st'.nextId);
    TopUpdate(st', st'.WithTop(after), after, open);
    SameParent(line.queue, after.queue, open);
  }

  lemma {:induction false} FinishKeepsIds(q: QueueState, handle: nat, now: Instant, bound: nat)
    requires handle < |q.spans| && forall s <- q.spans :: s.id < bound
    ensures forall s <- AfterOp(q, DEFAULT_SPAN_QUEUE_SIZE, Finish(handle, now)).spans :: s.id < bound
  {
  }

  /** Starting a span that the line accepts. */
  lemma {:induction false} EnterKeeps(st: ThreadState, begin: Instant, name: string, open: seq<nat>)
    requires Good(st) && TopEncodes(st, open) && st.lines != [] && StartedHandle(Last(st.lines)).Some?
    ensures var line := Last(st.lines);
            var st' := st.(nextId := st.nextId + 1).WithTop(Recorded(line, Start(st.nextId, begin, name)));
            && Good(st') && TopEncodes(st', open + [|line.queue.spans|]) && Init(st'.lines) == Init(st.lines)
            && |line.queue.spans| < |Last(st'.lines).queue.spans|
            && Last(st'.lines) == line.(queue := Last(st'.lines).queue)
            && forall i :: 0 <= i < |line.queue.spans| ==> Last(st'.lines).queue.spans[i] == line.queue.spans[i]
  {
    hide Encodes;
    RecordKeeps(st, Start(st.nextId, begin, name), open);
    OpenGrows(Last(st.lines).queue, DEFAULT_SPAN_QUEUE_SIZE, open, Start(st.nextId, begin, name));
  }

  lemma {:induction false} RegisterKeeps(st: ThreadState, token: Option<CollectToken>)
    requires Good(st) && st.registered < EPOCH_LIMIT
    ensures var st' := st.(lines := st.lines + [NewLine(st.NextEpoch(), token)], registered := st.registered + 1);
            Good(st') && TopEncodes(st', [])
  {
    var st' := st.(lines := st.lines + [NewLine(st.NextEpoch(), token)], registered := st.registered + 1);
    assert st.NextEpoch() == st.registered;
    forall i | 0 <= i < |st'.lines|
      ensures LineGood(st', st'.lines[i]) && (i < |st.lines| ==> st'.lines[i].epoch < st.registered)
    {
      if i < |st.lines| {
        assert LineGood(st, st.lines[i]);
      }
    }
    EmptyEncodes();
  }

  lemma {:induction false} ActionKeeps(st: ThreadState, capacity: nat, a: Action, open: seq<nat>)
    requires Good(st) && TopEncodes(st, open) && |st.lines| <= capacity
    requires st.registered + RegistrationsOf(a) <= EPOCH_LIMIT
    ensures Kept(st, Perform(st, capacity, a), open)
    ensures Perform(st, capacity, a).registered <= st.registered + RegistrationsOf(a)
    ensures a.LineAction? && |st.lines| < capacity ==> Perform(st, capacity, a).lines == st.lines
    decreases a
  {
    hide Encodes, Recorded, Finished, Annotated, LineGood, OwnProperties, Exited, Good, TopEncodes;
    var advanced := st.(nextId := st.nextId + 1);
    match a
    case EventAction(name, now, properties) =>
      if st.lines == [] {
        KeptSelf(st, advanced, open);
      } else {
        RecordOnly(st, Op.AddEvent(st.nextId, now, name, properties), open);
      }
    case PropertiesAction(properties) =>
      if st.lines == [] {
        KeptSelf(st, advanced, open);
      } else {
        RecordOnly(st, Op.AddProperties(st.nextId, properties), open);
      }
    case SpanAction(name, begin, end, own, body) =>
      SpanKeeps(st, capacity, name, begin, end, own, body, open);
    case LineAction(token, body) =>
      LineKeeps(st, capacity, token, body, open);
  }

  lemma {:induction false} RecordOnly(st: ThreadState, op: Op, open: seq<nat>)
    requires Good(st) && TopEncodes(st, open) && st.lines != []
    requires op.Start? ==> StartedHandle(Last(st.lines)).None?
    requires (op.Start? || op.AddEvent? || op.AddProperties?) && op.id == st.nextId
    ensures Kept(st, st.(nextId := st.nextId + 1).WithTop(Recorded(Last(st.lines), op)), open)
  {
    hide Encodes, Good, TopEncodes;
    RecordKeeps(st, op, open);
    OpenGrows(Last(st.lines).queue, DEFAULT_SPAN_QUEUE_SIZE, open, op);
  }

  lemma {:induction false} SpanKeeps(st: ThreadState, capacity: nat, name: string, begin: Instant, end: Instant,
                                     own: Properties, body: seq<Action>, open: seq<nat>)
    requires Good(st) && TopEncodes(st, open) && |st.lines| <= capacity
    requires st.registered + Registrations(body) <= EPOCH_LIMIT
    ensures var a := SpanAction(name, begin, end, own, body);
            Kept(st, Perform(st, capacity, a), open)
              && Perform(st, capacity, a).registered <= st.registered + Registrations(body)
    decreases body, 1
  {
    hide Encodes, Recorded, Finished, Annotated, LineGood, OwnProperties, Exited, Good, TopEncodes;
    var advanced := st.(nextId := st.nextId + 1);
    if st.lines == [] {
      KeptSelf(st, advanced, open);
      ProgramKeeps(advanced, capacity, body, open);
      KeptTrans(st, advanced, PerformAll(advanced, capacity, body), open);
    } else {
      var line := Last(st.lines);
      var entered := advanced.WithTop(Recorded(line, Start(st.nextId, begin, name)));
      var handle := StartedHandle(line);
      if handle.None? {
        RecordOnly(st, Start(st.nextId, begin, name), open);
        ProgramKeeps(entered, capacity, body, open);
        KeptTrans(st, entered, PerformAll(entered, capacity, body), open);
      } else {
        EnterKeeps(st, begin, name, open);
        var open' := open + [|line.queue.spans|];
        var annotated := OwnProperties(entered, handle.value, own);
        OwnKeeps(entered, handle.value, own, open');
        OwnRegistered(entered, handle.value, own);
        ProgramKeeps(annotated, capacity, body, open');
        var done := PerformAll(annotated, capacity, body);
        KeptTrans(entered, annotated, done, open');
        SpansKept(line, Last(entered.lines), Last(done.lines));
        ExitKeeps(st, done, handle.value, end, open);
        ExitRegistered(done, handle.value, end);
      }
    }
  }

  lemma {:induction false} OwnRegistered(st: ThreadState, handle: LocalSpanHandle, own: Properties)
    ensures OwnProperties(st, handle, own).registered == st.registered
  {
  }

  lemma {:induction false} ExitRegistered(st: ThreadState, handle: LocalSpanHandle, now: Instant)
    ensures Exited(st, handle, now).registered == st.registered
  {
  }

  lemma {:induction false} SpansKept(line: LineState, entered: LineState, done: LineState)
    requires |line.queue.spans| <= |entered.queue.spans| && LineKept(entered, done)
    requires forall i :: 0 <= i < |line.queue.spans| ==> entered.queue.spans[i] == line.queue.spans[i]
    ensures |line.queue.spans| <= |done.queue.spans|
    ensures forall i :: 0 <= i < |line.queue.spans| ==> SameSpan(line.queue.spans[i], done.queue.spans[i])
  {
    forall i | 0 <= i < |line.queue.spans| ensures SameSpan(line.queue.spans[i], done.queue.spans[i]) {
      assert SameSpan(entered.queue.spans[i], done.queue.spans[i]);
    }
  }

  /** Unregistering a line restores the lines that were there before it was registered. */
  lemma {:induction false} LineKeeps(st: ThreadState, capacity: nat, token: Option<CollectToken>, body: seq<Action>,
                                     open: seq<nat>)
    requires Good(st) && TopEncodes(st, open) && |st.lines| <= capacity
    requires st.registered + 1 + Registrations(body) <= EPOCH_LIMIT
    ensures var a := LineAction(token, body);
            && Kept(st, Perform(st, capacity, a), open)
            && Perform(st, capacity, a).registered <= st.registered + 1 + Registrations(body)
            && (|st.lines| < capacity ==> Perform(st, capacity, a).lines == st.lines)
    decreases body, 1
  {
    hide Encodes, Recorded, LineGood, NewLine, TopEncodes;
    if |st.lines| >= capacity {
      ProgramKeeps(st, capacity, body, open);
    } else {
      var registered := st.(lines := st.lines + [NewLine(st.NextEpoch(), token)], registered := st.registered + 1);
      RegisterKeeps(st, token);
      LineEpoch(st.NextEpoch(), token);
      ProgramKeeps(registered, capacity, body, []);
      var done := PerformAll(registered, capacity, body);
      assert Init(registered.lines) == st.lines;
      var after := Unregistered(done, st.NextEpoch(), capacity);
      KeptSelf(st, st.(nextId := done.nextId, registered := done.registered), open);
      assert after == st.(nextId := done.nextId, registered := done.registered);
    }
  }

  lemma {:induction false} LineEpoch(epoch: nat, token: Option<CollectToken>)
    ensures NewLine(epoch, token).epoch == epoch
  {
  }

  /** Every program, begun on any good state, meets all assertions of the source, keeps live epochs distinct and the
      stack within its capacity, and changes nothing but the queue of the innermost line, whose open spans it
      restores. */
  lemma {:induction false} ProgramKeeps(st: ThreadState, capacity: nat, actions: seq<Action>, open: seq<nat>)
    requires Good(st) && TopEncodes(st, open) && |st.lines| <= capacity
    requires st.registered + Registrations(actions) <= EPOCH_LIMIT
    ensures Kept(st, PerformAll(st, capacity, actions), open)
    ensures PerformAll(st, capacity, actions).registered <= st.registered + Registrations(actions)
    decreases actions, 0
  {
    hide Encodes, Recorded, Good, TopEncodes;
    if actions == [] {
      KeptSelf(st, st, open);
    } else {
      var next := Perform(st, capacity, actions[0]);
      ActionKeeps(st, capacity, actions[0], open);
      KeptGood(st, next, open);
      ProgramKeeps(next, capacity, actions[1..], open);
      KeptTrans(st, next, PerformAll(next, capacity, actions[1..]), open);
    }
  }

  lemma {:induction false} KeptGood(st: ThreadState, st': ThreadState, open: seq<nat>)
    requires Kept(st, st', open)
    ensures Good(st') && TopEncodes(st', open) && |st'.lines| == |st.lines|
  {
  }

  /** After any last-in-first-out program, the collect token that new spans and lines inherit is the one from before
      it. */
  lemma {:induction false} TokenRestored(st: ThreadState, capacity: nat, actions: seq<Action>, open: seq<nat>)
    requires Good(st) && TopEncodes(st, open) && |st.lines| <= capacity && st.lines != []
    requires st.registered + Registrations(actions) <= EPOCH_LIMIT
    ensures var st' := PerformAll(st, capacity, actions);
            && st'.asserted && st'.lines != []
            && CurrentToken(Last(st'.lines)) == CurrentToken(Last(st.lines))
            && (forall i, j :: 0 <= i < j < |st'.lines| ==> st'.lines[i].epoch != st'.lines[j].epoch)
            && Chain(Last(st'.lines).queue.spans, |Last(st'.lines).queue.spans|, Last(st'.lines).queue.ParentId())
               == Chain(Last(st.lines).queue.spans, |Last(st.lines).queue.spans|, Last(st.lines).queue.ParentId())
  {
    hide Encodes, Chain, PerformAll, LineGood;
    ProgramKeeps(st, capacity, actions, open);
    var st' := PerformAll(st, capacity, actions);
    var q, q' := Last(st.lines).queue, Last(st'.lines).queue;
    StackInRange(q, open);
    StackInRange(q', open);
    ChainIsStack(q, open, |q.spans|);
    ChainIsStack(q', open, |q'.spans|);
    forall j | 0 <= j < |open| ensures q.spans[open[j]].id == q'.spans[open[j]].id {
      assert SameSpan(q.spans[open[j]], q'.spans[open[j]]);
    }
    assert IdsAt(q.spans, open) == IdsAt(q'.spans, open);
  }
}

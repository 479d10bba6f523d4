/** Programs on the local span stack (fastrace/src/local/local_span_stack.rs) against a direct meaning that has neither
    stack nor queue: what a line records while it is registered is read off the text of the program. */
module LocalPrograms {
  import opened Records
  import opened Postprocess
  import opened SpanQueues
  import opened LocalStack
  import opened LocalRecords

  /** What a program adds to the line it runs on: the slots it fills in order, and the items noted on the span that is
      open around it. */
  datatype Told = Told(slots: seq<Slot>, items: seq<DanglingItem>)

  const NOTHING := Told([], [])

  /** How many ids a program takes from the supply. */
  function IdCount(actions: seq<Action>): nat
    decreases actions
  {
    if actions == [] then 0 else IdCountOf(actions[0]) + IdCount(actions[1..])
  }

  function IdCountOf(a: Action): nat
    decreases a
  {
    match a
    case SpanAction(_, _, _, _, body) => 1 + IdCount(body)
    case LineAction(_, body) => IdCount(body)
    case _ => 1
  }

  /** The direct meaning of an action with the next id, the span around it and the room that the line has left. A span
      stands before what happens in it; in a nested line nothing happens to this one. A span that finds no room is
      left out, and so is what happens in it, for which there is no room either. */
  function Tell(a: Action, id: SpanId, parentId: SpanId, room: nat, nests: bool, anchor: Anchor): (told: Told)
    ensures |told.slots| <= room
    decreases a
  {
    match a
    case EventAction(name, now, properties) =>
      if room == 0 then NOTHING
      else
        var event := EventRecord(name, anchor(now), if properties.Some? then properties.value else []);
        Told([ItemSlot], [EventItem(event)])
    case PropertiesAction(properties) =>
      if room == 0 then NOTHING else Told([ItemSlot], [PropertiesItem(properties)])
    case SpanAction(name, begin, end, own, body) =>
      if room == 0 then NOTHING
      else
        var inside := TellAll(body, id + 1, id, room - 1, nests, anchor);
        Told([SpanSlot(Node(id, parentId, begin, Some(end), name, own, inside.items))] + inside.slots, [])
    case LineAction(_, body) => if nests then NOTHING else TellAll(body, id, parentId, room, nests, anchor)
  }

  function TellAll(actions: seq<Action>, id: SpanId, parentId: SpanId, room: nat, nests: bool, anchor: Anchor)
    : (told: Told)
    ensures |told.slots| <= room
    decreases actions
  {
    if actions == [] then NOTHING
    else
      var first := Tell(actions[0], id, parentId, room, nests, anchor);
      var rest := TellAll(actions[1..], id + IdCountOf(actions[0]), parentId, room - |first.slots|, nests, anchor);
      Told(first.slots + rest.slots, first.items + rest.items)
  }

  /** The clock never shows the zero instant. */
  predicate Clocked(actions: seq<Action>)
    decreases actions
  {
    actions == [] || (ClockedOne(actions[0]) && Clocked(actions[1..]))
  }

  predicate ClockedOne(a: Action)
    decreases a
  {
    match a
    case SpanAction(_, _, end, _, body) => end != ZERO && Clocked(body)
    case LineAction(_, body) => Clocked(body)
    case _ => true
  }

  // Ids

  lemma {:induction false} OneTakesIds(st: ThreadState, capacity: nat, a: Action)
    ensures Perform(st, capacity, a).nextId == st.nextId + IdCountOf(a)
    decreases a
  {
    hide Recorded, Finished, Annotated, NewLine;
    var advanced := st.(nextId := st.nextId + 1);
    match a
    case SpanAction(name, begin, end, own, body) =>
      var handle := if st.lines == [] then None else StartedHandle(Last(st.lines));
      var entered := if st.lines == [] then advanced
        else advanced.WithTop(Recorded(Last(st.lines), Start(st.nextId, begin, name)));
      TakesIds(if handle.None? then entered else OwnProperties(entered, handle.value, own), capacity, body);
    case LineAction(token, body) =>
      var registered := st.(lines := st.lines + [NewLine(st.NextEpoch(), token)], registered := st.registered + 1);
      TakesIds(if |st.lines| >= capacity then st else registered, capacity, body);
    case _ =>
  }

  lemma {:induction false} TakesIds(st: ThreadState, capacity: nat, actions: seq<Action>)
    ensures PerformAll(st, capacity, actions).nextId == st.nextId + IdCount(actions)
    decreases actions
  {
    hide Perform;
    if actions != [] {
      OneTakesIds(st, capacity, actions[0]);
      TakesIds(Perform(st, capacity, actions[0]), capacity, actions[1..]);
    }
  }

  // Growth of the direct state

  function Grown(d: Direct, told: Told): Direct
    requires d.Valid()
  {
    if d.open == [] then d.(slots := d.slots + told.slots)
    else
      var node := d.slots[Last(d.open)].node;
      d.(slots := d.slots[Last(d.open) := SpanSlot(node.(items := node.items + told.items))] + told.slots)
  }

  function Around(d: Direct, external: SpanId): SpanId
    requires d.Valid()
  {
    if d.open == [] then external else d.slots[Last(d.open)].node.id
  }

  lemma {:induction false} GrownNothing(d: Direct)
    requires d.Valid()
    ensures Grown(d, NOTHING) == d
  {
    if d.open != [] {
      var node := d.slots[Last(d.open)].node;
      assert node.items + [] == node.items;
      assert d.slots[Last(d.open) := d.slots[Last(d.open)]] == d.slots;
    }
    assert d.slots + [] == d.slots;
  }

  lemma {:induction false} GrownShape(d: Direct, told: Told, external: SpanId)
    requires d.Valid()
    ensures Grown(d, told).Valid() && Grown(d, told).open == d.open
    ensures |Grown(d, told).slots| == |d.slots| + |told.slots|
    ensures Around(Grown(d, told), external) == Around(d, external)
  {
  }

  lemma {:induction false} GrownTwice(d: Direct, first: Told, rest: Told)
    requires d.Valid() && Grown(d, first).Valid()
    ensures Grown(Grown(d, first), rest) == Grown(d, Told(first.slots + rest.slots, first.items + rest.items))
  {
    if d.open == [] {
      assert d.slots + first.slots + rest.slots == d.slots + (first.slots + rest.slots);
    } else {
      var top := Last(d.open);
      var node := d.slots[top].node;
      var once := Grown(d, first);
      assert once.slots[top] == SpanSlot(node.(items := node.items + first.items));
      assert node.items + first.items + rest.items == node.items + (first.items + rest.items);
      assert Grown(once, rest).slots
          == Grown(d, Told(first.slots + rest.slots, first.items + rest.items)).slots;
    }
  }

  lemma {:induction false} GrownByItem(d: Direct, item: DanglingItem)
    requires d.Valid()
    ensures d.Noted(item) == Grown(d, Told([ItemSlot], [item]))
  {
    if d.open != [] {
      assert d.Noted(item).slots == Grown(d, Told([ItemSlot], [item])).slots;
    }
  }

  /** Starting a span and giving it properties. */
  lemma {:induction false} StartedBySpan(d: Direct, external: SpanId, anchor: Anchor, capacity: nat, id: SpanId,
                                         name: string, begin: Instant, own: Properties)
    requires d.Valid() && |d.slots| < capacity
    ensures var started := DirectAfter(d, capacity, external, anchor, Start(id, begin, name));
            && started.Valid() && |d.slots| < |started.slots| && started.slots[|d.slots|].SpanSlot?
            && started.open == d.open + [|d.slots|]
            && var annotated := DirectAfter(started, capacity, external, anchor, Op.WithProperties(|d.slots|, own));
               var node := Node(id, Around(d, external), begin, None, name, own, []);
               annotated == Direct(d.slots + [SpanSlot(node)], d.open + [|d.slots|])
  {
    var node := Node(id, Around(d, external), begin, None, name, [], []);
    assert [] + own == own;
    assert (d.slots + [SpanSlot(node)])[|d.slots| := SpanSlot(node.(own := own))]
        == d.slots + [SpanSlot(node.(own := own))];
  }

  /** What happens in a span goes to it, and its end closes it. */
  lemma {:induction false} EndedBySpan(d: Direct, external: SpanId, anchor: Anchor, capacity: nat, node: Node,
                                       end: Instant, inside: Told)
    requires d.Valid() && node.items == []
    ensures var annotated := Direct(d.slots + [SpanSlot(node)], d.open + [|d.slots|]);
            && annotated.Valid() && Around(annotated, external) == node.id
            && var grown, noted := Grown(annotated, inside), node.(items := inside.items);
               && grown == Direct(d.slots + [SpanSlot(noted)] + inside.slots, d.open + [|d.slots|])
               && grown.Valid()
               && DirectAfter(grown, capacity, external, anchor, Finish(|d.slots|, end))
                  == Direct(d.slots + [SpanSlot(noted.(end := Some(end)))] + inside.slots, d.open)
  {
    var n, noted := |d.slots|, node.(items := inside.items);
    assert [] + inside.items == inside.items;
    assert (d.slots + [SpanSlot(node)])[n := SpanSlot(noted)] == d.slots + [SpanSlot(noted)];
    assert (d.slots + [SpanSlot(noted)] + inside.slots)[n := SpanSlot(noted.(end := Some(end)))]
        == d.slots + [SpanSlot(noted.(end := Some(end)))] + inside.slots;
    assert Init(d.open + [n]) == d.open;
  }

  lemma {:induction false} GrownBySlots(d: Direct, slots: seq<Slot>)
    requires d.Valid()
    ensures Grown(d, Told(slots, [])) == Direct(d.slots + slots, d.open)
  {
    GrownNothing(d);
    assert Grown(d, Told(slots, [])).slots == Grown(d, NOTHING).slots + slots;
  }

  /** Starting a span, giving it properties, growing by what happens in it and ending it. */
  lemma {:induction false} GrownBySpan(d: Direct, external: SpanId, anchor: Anchor, capacity: nat, id: SpanId,
                                       name: string, begin: Instant, end: Instant, own: Properties, inside: Told)
    requires d.Valid() && |d.slots| < capacity
    ensures var started := DirectAfter(d, capacity, external, anchor, Start(id, begin, name));
            && started.Valid() && |d.slots| < |started.slots| && started.slots[|d.slots|].SpanSlot?
            && started.open == d.open + [|d.slots|]
            && var annotated := DirectAfter(started, capacity, external, anchor, Op.WithProperties(|d.slots|, own));
               && annotated.Valid() && annotated.open == started.open && Around(annotated, external) == id
               && |annotated.slots| == |d.slots| + 1
               && var grown := Grown(annotated, inside);
                  && grown.Valid() && grown.open == started.open
                  && |d.slots| < |grown.slots| && grown.slots[|d.slots|].SpanSlot?
                  && var ended := DirectAfter(grown, capacity, external, anchor, Finish(|d.slots|, end));
                     var node := Node(id, Around(d, external), begin, Some(end), name, own, inside.items);
                     ended == Grown(d, Told([SpanSlot(node)] + inside.slots, []))
  {
    hide DirectAfter, Grown, Around;
    var node := Node(id, Around(d, external), begin, None, name, own, []);
    var last := node.(items := inside.items, end := Some(end));
    StartedBySpan(d, external, anchor, capacity, id, name, begin, own);
    EndedBySpan(d, external, anchor, capacity, node, end, inside);
    GrownBySlots(d, [SpanSlot(last)] + inside.slots);
    assert d.slots + ([SpanSlot(last)] + inside.slots) == d.slots + [SpanSlot(last)] + inside.slots;
  }

  // What a sampled line records

  /** The innermost line is sampled and agrees with `d`; all its ids are `bound` or later ones. */
  ghost predicate Recording(st: ThreadState, d: Direct, bound: SpanId, external: SpanId, anchor: Anchor) {
    && Good(st) && st.lines != [] && Last(st.lines).isSampled && bound <= st.nextId
    && Agrees(Last(st.lines).queue, d, bound, external, anchor)
  }

  ghost predicate Agrees(q: QueueState, d: Direct, bound: SpanId, external: SpanId, anchor: Anchor) {
    && Encodes(q, d.open) && Matches(q, d, external, anchor) && d.Valid()
    && |q.spans| <= DEFAULT_SPAN_QUEUE_SIZE && forall s <- q.spans :: s.id >= bound
  }

  function RoomOf(d: Direct): nat {
    if |d.slots| >= DEFAULT_SPAN_QUEUE_SIZE then 0 else DEFAULT_SPAN_QUEUE_SIZE - |d.slots|
  }

  lemma {:induction false} IdsStayLate(q: QueueState, op: Op, bound: SpanId)
    requires (forall s <- q.spans :: s.id >= bound) && |q.spans| <= DEFAULT_SPAN_QUEUE_SIZE
    requires op.Finish? || op.WithProperties? ==> op.handle < |q.spans|
    requires op.Start? || op.AddEvent? || op.AddProperties? ==> op.id >= bound
    ensures forall s <- AfterOp(q, DEFAULT_SPAN_QUEUE_SIZE, op).spans :: s.id >= bound
    ensures |AfterOp(q, DEFAULT_SPAN_QUEUE_SIZE, op).spans| <= DEFAULT_SPAN_QUEUE_SIZE
  {
  }

  lemma {:induction false} CallAgrees(q: QueueState, d: Direct, bound: SpanId, external: SpanId, anchor: Anchor, op: Op)
    requires Agrees(q, d, bound, external, anchor) && Allowed(q, d.open, op)
    requires op.Start? || op.AddEvent? || op.AddProperties? ==> op.id >= bound
    ensures op.Finish? || op.WithProperties? ==>
              op.handle < |q.spans| == |d.slots| && d.slots[op.handle].SpanSlot?
    ensures op.Finish? ==> d.open != []
    ensures Agrees(AfterOp(q, DEFAULT_SPAN_QUEUE_SIZE, op),
                   DirectAfter(d, DEFAULT_SPAN_QUEUE_SIZE, external, anchor, op), bound, external, anchor)
  {
    hide Encodes, Matches, AfterOp, DirectAfter, OpenAfter;
    AllowedIsDefined(q, d, external, anchor, op);
    StepEncodes(q, DEFAULT_SPAN_QUEUE_SIZE, d.open, op);
    StepMatches(q, d, DEFAULT_SPAN_QUEUE_SIZE, external, anchor, op);
    IdsStayLate(q, op, bound);
    var d' := DirectAfter(d, DEFAULT_SPAN_QUEUE_SIZE, external, anchor, op);
    MatchesValid(AfterOp(q, DEFAULT_SPAN_QUEUE_SIZE, op), d', external, anchor);
  }

  lemma {:induction false} SameLength(q: QueueState, d: Direct, bound: SpanId, external: SpanId, anchor: Anchor)
    requires Agrees(q, d, bound, external, anchor)
    ensures d.Valid() && |q.spans| == |d.slots|
  {
  }

  /** A recording call with the next id. */
  lemma {:induction false} RecordTells(st: ThreadState, d: Direct, bound: SpanId, external: SpanId, anchor: Anchor,
                                       op: Op)
    requires Recording(st, d, bound, external, anchor)
    requires (op.Start? || op.AddEvent? || op.AddProperties?) && op.id == st.nextId
    ensures d.Valid()
    ensures Recording(st.(nextId := st.nextId + 1).WithTop(Recorded(Last(st.lines), op)),
                      DirectAfter(d, DEFAULT_SPAN_QUEUE_SIZE, external, anchor, op), bound, external, anchor)
  {
    hide Encodes, Matches, AfterOp, DirectAfter, OpenAfter;
    var line := Last(st.lines);
    assert LocalStack.LineGood(st, line);
    assert op.id !in IdsIn(line.queue.spans);
    RecordKeeps(st, op, d.open);
    CallAgrees(line.queue, d, bound, external, anchor, op);
  }

  lemma {:induction false} OwnTells(st: ThreadState, d: Direct, bound: SpanId, external: SpanId, anchor: Anchor,
                                    handle: LocalSpanHandle, own: Properties)
    requires Recording(st, d, bound, external, anchor) && d.open != []
    requires handle == LocalSpanHandle(Last(st.lines).epoch, Last(d.open))
    ensures d.Valid() && handle.spanHandle < |d.slots| && d.slots[handle.spanHandle].SpanSlot?
    ensures var op := Op.WithProperties(handle.spanHandle, own);
            Recording(OwnProperties(st, handle, own),
                      DirectAfter(d, DEFAULT_SPAN_QUEUE_SIZE, external, anchor, op), bound, external, anchor)
  {
    hide Encodes, Matches, AfterOp, DirectAfter, OpenAfter;
    var line := Last(st.lines);
    InnermostOpen(line.queue, d.open);
    OwnKeeps(st, handle, own, d.open);
    CallAgrees(line.queue, d, bound, external, anchor, Op.WithProperties(handle.spanHandle, own));
  }

  lemma {:induction false} ExitTells(st: ThreadState, d: Direct, bound: SpanId, external: SpanId, anchor: Anchor,
                                     handle: LocalSpanHandle, end: Instant)
    requires Recording(st, d, bound, external, anchor) && d.open != [] && end != ZERO
    requires handle == LocalSpanHandle(Last(st.lines).epoch, Last(d.open)) && Good(Exited(st, handle, end))
    ensures d.Valid() && handle.spanHandle < |d.slots| && d.slots[handle.spanHandle].SpanSlot?
    ensures var op := Finish(handle.spanHandle, end);
            Recording(Exited(st, handle, end),
                      DirectAfter(d, DEFAULT_SPAN_QUEUE_SIZE, external, anchor, op), bound, external, anchor)
  {
    hide Encodes, Matches, AfterOp, DirectAfter, OpenAfter;
    var line := Last(st.lines);
    InnermostOpen(line.queue, d.open);
    CallAgrees(line.queue, d, bound, external, anchor, Finish(handle.spanHandle, end));
  }

  lemma {:induction false} ActionTells(st: ThreadState, capacity: nat, a: Action, d: Direct, bound: SpanId,
                                       external: SpanId, anchor: Anchor)
    requires Recording(st, d, bound, external, anchor) && |st.lines| <= capacity && ClockedOne(a)
    requires st.registered + RegistrationsOf(a) <= EPOCH_LIMIT
    ensures d.Valid()
    ensures var told := Tell(a, st.nextId, Around(d, external), RoomOf(d), |st.lines| < capacity, anchor);
            Recording(Perform(st, capacity, a), Grown(d, told), bound, external, anchor)
    decreases a
  {
    hide Recorded, DirectAfter, Grown, Agrees, Good, TopEncodes, Encodes, Around;
    var line := Last(st.lines);
    SameLength(line.queue, d, bound, external, anchor);
    match a
    case EventAction(name, now, properties) => ItemTells(st, d, bound, external, anchor, a);
    case PropertiesAction(properties) => ItemTells(st, d, bound, external, anchor, a);
    case SpanAction(name, begin, end, own, body) =>
      SpanTells(st, capacity, name, begin, end, own, body, d, bound, external, anchor);
    case LineAction(token, body) =>
      if |st.lines| >= capacity {
        ProgramTells(st, capacity, body, d, bound, external, anchor);
      } else {
        RecordingEncodes(st, d, bound, external, anchor);
        ActionKeeps(st, capacity, a, d.open);
        OneTakesIds(st, capacity, a);
        GrownNothing(d);
        KeptGood(st, Perform(st, capacity, a), d.open);
      }
  }

  lemma {:induction false} RecordingEncodes(st: ThreadState, d: Direct, bound: SpanId, external: SpanId, anchor: Anchor)
    requires Recording(st, d, bound, external, anchor)
    ensures Good(st) && TopEncodes(st, d.open) && Encodes(Last(st.lines).queue, d.open)
  {
  }

  lemma {:induction false} ItemTells(st: ThreadState, d: Direct, bound: SpanId, external: SpanId, anchor: Anchor,
                                     a: Action)
    requires Recording(st, d, bound, external, anchor) && (a.EventAction? || a.PropertiesAction?)
    ensures d.Valid()
    ensures forall capacity, nests :: Recording(Perform(st, capacity, a),
      Grown(d, Tell(a, st.nextId, Around(d, external), RoomOf(d), nests, anchor)), bound, external, anchor)
  {
    hide Recorded, Grown, Agrees, Good, Recording, Around;
    SameLengthOf(st, d, bound, external, anchor);
    GrownNothing(d);
    match a
    case EventAction(name, now, properties) =>
      var event := EventRecord(name, anchor(now), if properties.Some? then properties.value else []);
      RecordTells(st, d, bound, external, anchor, Op.AddEvent(st.nextId, now, name, properties));
      GrownByItem(d, EventItem(event));
    case PropertiesAction(properties) =>
      RecordTells(st, d, bound, external, anchor, Op.AddProperties(st.nextId, properties));
      GrownByItem(d, PropertiesItem(properties));
  }

  lemma {:induction false} SameLengthOf(st: ThreadState, d: Direct, bound: SpanId, external: SpanId, anchor: Anchor)
    requires Recording(st, d, bound, external, anchor)
    ensures st.lines != [] && d.Valid() && |Last(st.lines).queue.spans| == |d.slots|
    ensures Last(st.lines).isSampled && Good(st) && TopEncodes(st, d.open)
  {
  }

  lemma {:induction false} SpanTells(st: ThreadState, capacity: nat, name: string, begin: Instant, end: Instant,
                                     own: Properties, body: seq<Action>, d: Direct, bound: SpanId, external: SpanId,
                                     anchor: Anchor)
    requires Recording(st, d, bound, external, anchor) && |st.lines| <= capacity && end != ZERO && Clocked(body)
    requires st.registered + Registrations(body) <= EPOCH_LIMIT
    ensures d.Valid()
    ensures var a := SpanAction(name, begin, end, own, body);
            var told := Tell(a, st.nextId, Around(d, external), RoomOf(d), |st.lines| < capacity, anchor);
            Recording(Perform(st, capacity, a), Grown(d, told), bound, external, anchor)
    decreases body, 1, 1
  {
    hide Recorded, Grown, Agrees, Good, Recording, Around, Encodes, TopEncodes, Exited, OwnProperties, DirectAfter;
    SameLengthOf(st, d, bound, external, anchor);
    var line := Last(st.lines);
    var entered := st.(nextId := st.nextId + 1).WithTop(Recorded(line, Start(st.nextId, begin, name)));
    RecordTells(st, d, bound, external, anchor, Start(st.nextId, begin, name));
    if |d.slots| >= DEFAULT_SPAN_QUEUE_SIZE {
      FullStart(d, external, anchor, st.nextId, begin, name);
      ProgramTells(entered, capacity, body, d, bound, external, anchor);
      FullTells(body, st.nextId + 1, Around(d, external), |st.lines| < capacity, anchor);
    } else {
      AcceptedTells(st, capacity, name, begin, end, own, body, d, bound, external, anchor, entered);
    }
  }

  lemma {:induction false} FullStart(d: Direct, external: SpanId, anchor: Anchor, id: SpanId, begin: Instant,
                                     name: string)
    requires d.Valid() && |d.slots| >= DEFAULT_SPAN_QUEUE_SIZE
    ensures DirectAfter(d, DEFAULT_SPAN_QUEUE_SIZE, external, anchor, Start(id, begin, name)) == d
  {
  }

  /** A full line records nothing of a program. */
  lemma {:induction false} FullTells(actions: seq<Action>, id: SpanId, parentId: SpanId, nests: bool, anchor: Anchor)
    ensures TellAll(actions, id, parentId, 0, nests, anchor) == NOTHING
    decreases actions
  {
    if actions != [] {
      FullTells(actions[1..], id + IdCountOf(actions[0]), parentId, nests, anchor);
      if actions[0].LineAction? {
        FullTells(actions[0].body, id, parentId, nests, anchor);
      }
    }
  }

  lemma {:induction false} AcceptedTells(st: ThreadState, capacity: nat, name: string, begin: Instant, end: Instant,
                                         own: Properties, body: seq<Action>, d: Direct, bound: SpanId,
                                         external: SpanId, anchor: Anchor, entered: ThreadState)
    requires Recording(st, d, bound, external, anchor) && |st.lines| <= capacity && end != ZERO && Clocked(body)
    requires st.registered + Registrations(body) <= EPOCH_LIMIT
    requires d.Valid() && |d.slots| < DEFAULT_SPAN_QUEUE_SIZE && st.lines != []
    requires entered
          == st.(nextId := st.nextId + 1).WithTop(Recorded(Last(st.lines), Start(st.nextId, begin, name)))
    requires Recording(entered,
      DirectAfter(d, DEFAULT_SPAN_QUEUE_SIZE, external, anchor, Start(st.nextId, begin, name)), bound, external, anchor)
    ensures var a := SpanAction(name, begin, end, own, body);
            var told := Tell(a, st.nextId, Around(d, external), RoomOf(d), |st.lines| < capacity, anchor);
            Recording(Perform(st, capacity, a), Grown(d, told), bound, external, anchor)
    decreases body, 1, 0
  {
    hide Recorded, Grown, Agrees, Good, Recording, Around, Encodes, TopEncodes, Exited, OwnProperties, DirectAfter,
         Perform, PerformAll;
    SameLengthOf(st, d, bound, external, anchor);
    var line := Last(st.lines);
    var n := |d.slots|;
    var handle := LocalSpanHandle(line.epoch, n);
    var inside := TellAll(body, st.nextId + 1, st.nextId, RoomOf(d) - 1, |st.lines| < capacity, anchor);
    GrownBySpan(d, external, anchor, DEFAULT_SPAN_QUEUE_SIZE, st.nextId, name, begin, end, own, inside);
    var started := DirectAfter(d, DEFAULT_SPAN_QUEUE_SIZE, external, anchor, Start(st.nextId, begin, name));
    EnteredTop(st, begin, name);
    OwnTells(entered, started, bound, external, anchor, handle, own);
    OwnTop(entered, handle, own);
    var owned := OwnProperties(entered, handle, own);
    var annotated := DirectAfter(started, DEFAULT_SPAN_QUEUE_SIZE, external, anchor, Op.WithProperties(n, own));
    ProgramTells(owned, capacity, body, annotated, bound, external, anchor);
    var done := PerformAll(owned, capacity, body);
    SameLengthOf(owned, annotated, bound, external, anchor);
    ProgramKeeps(owned, capacity, body, annotated.open);
    KeptTop(owned, done, annotated.open);
    SpanKeeps(st, capacity, name, begin, end, own, body, d.open);
    PerformSpan(st, capacity, name, begin, end, own, body);
    KeptGood(st, Exited(done, handle, end), d.open);
    ExitTells(done, Grown(annotated, inside), bound, external, anchor, handle, end);
  }

  lemma {:induction false} EnteredTop(st: ThreadState, begin: Instant, name: string)
    requires st.lines != []
    ensures var line := Last(st.lines);
            var entered := st.(nextId := st.nextId + 1).WithTop(Recorded(line, Start(st.nextId, begin, name)));
            && Last(entered.lines).epoch == line.epoch && |entered.lines| == |st.lines|
            && entered.nextId == st.nextId + 1 && entered.registered == st.registered
  {
  }

  lemma {:induction false} OwnTop(st: ThreadState, handle: LocalSpanHandle, own: Properties)
    requires st.lines != []
    ensures var owned := OwnProperties(st, handle, own);
            && |owned.lines| == |st.lines| && Last(owned.lines).epoch == Last(st.lines).epoch
            && owned.nextId == st.nextId && owned.registered == st.registered
  {
  }

  lemma {:induction false} KeptTop(st: ThreadState, st': ThreadState, open: seq<nat>)
    requires Kept(st, st', open) && st.lines != []
    ensures st'.lines != [] && Last(st'.lines).epoch == Last(st.lines).epoch
  {
  }

  lemma {:induction false} PerformSpan(st: ThreadState, capacity: nat, name: string, begin: Instant, end: Instant,
                                       own: Properties, body: seq<Action>)
    requires st.lines != [] && StartedHandle(Last(st.lines)).Some?
    ensures var handle := StartedHandle(Last(st.lines)).value;
            var entered := st.(nextId := st.nextId + 1)
                             .WithTop(Recorded(Last(st.lines), Start(st.nextId, begin, name)));
            Perform(st, capacity, SpanAction(name, begin, end, own, body))
            == Exited(PerformAll(OwnProperties(entered, handle, own), capacity, body), handle, end)
  {
    hide Recorded, Exited, OwnProperties;
  }

  /** On a sampled line a program does what its text says. */
  lemma {:induction false} ProgramTells(st: ThreadState, capacity: nat, actions: seq<Action>, d: Direct,
                                        bound: SpanId, external: SpanId, anchor: Anchor)
    requires Recording(st, d, bound, external, anchor) && |st.lines| <= capacity && Clocked(actions)
    requires st.registered + Registrations(actions) <= EPOCH_LIMIT
    ensures d.Valid()
    ensures var told := TellAll(actions, st.nextId, Around(d, external), RoomOf(d), |st.lines| < capacity, anchor);
            Recording(PerformAll(st, capacity, actions), Grown(d, told), bound, external, anchor)
    decreases actions, 0, 0
  {
    hide Grown, Agrees, Good, Recording, Around, Encodes, TopEncodes, Perform, Tell;
    SameLengthOf(st, d, bound, external, anchor);
    if actions == [] {
      GrownNothing(d);
    } else {
      var a, rest := actions[0], actions[1..];
      var nests := |st.lines| < capacity;
      var first := Tell(a, st.nextId, Around(d, external), RoomOf(d), nests, anchor);
      ActionTells(st, capacity, a, d, bound, external, anchor);
      var next := Perform(st, capacity, a);
      ActionKeeps(st, capacity, a, d.open);
      KeptGood(st, next, d.open);
      OneTakesIds(st, capacity, a);
      GrownShape(d, first, external);
      ProgramTells(next, capacity, rest, Grown(d, first), bound, external, anchor);
      var after := TellAll(rest, next.nextId, Around(d, external), RoomOf(d) - |first.slots|, nests, anchor);
      GrownTwice(d, first, after);
    }
  }

  // What an unsampled line records

  /** No line, or an unsampled one, is left exactly as it was. */
  lemma {:induction false} NothingTold(st: ThreadState, capacity: nat, actions: seq<Action>, open: seq<nat>)
    requires Good(st) && TopEncodes(st, open) && |st.lines| <= capacity
    requires st.registered + Registrations(actions) <= EPOCH_LIMIT
    requires st.lines != [] ==> !Last(st.lines).isSampled
    ensures PerformAll(st, capacity, actions).lines == st.lines
    decreases actions, 0
  {
    hide Good, TopEncodes, Perform;
    if actions != [] {
      var next := Perform(st, capacity, actions[0]);
      NothingToldOf(st, capacity, actions[0], open);
      ActionKeeps(st, capacity, actions[0], open);
      KeptGood(st, next, open);
      NothingTold(next, capacity, actions[1..], open);
    }
  }

  lemma {:induction false} NothingToldOf(st: ThreadState, capacity: nat, a: Action, open: seq<nat>)
    requires Good(st) && TopEncodes(st, open) && |st.lines| <= capacity
    requires st.registered + RegistrationsOf(a) <= EPOCH_LIMIT
    requires st.lines != [] ==> !Last(st.lines).isSampled
    ensures Perform(st, capacity, a).lines == st.lines
    decreases a
  {
    hide Good, TopEncodes;
    var advanced := st.(nextId := st.nextId + 1);
    assert st.lines != [] ==> Init(st.lines) + [Last(st.lines)] == st.lines;
    if a.SpanAction? {
      LaterGood(st, open);
      assert PerformAll(advanced, capacity, a.body) == Perform(st, capacity, a);
      NothingTold(advanced, capacity, a.body, open);
    } else if a.LineAction? {
      if |st.lines| >= capacity {
        NothingTold(st, capacity, a.body, open);
      } else {
        ActionKeeps(st, capacity, a, open);
      }
    }
  }

  lemma {:induction false} LaterGood(st: ThreadState, open: seq<nat>)
    requires Good(st) && TopEncodes(st, open)
    ensures Good(st.(nextId := st.nextId + 1)) && TopEncodes(st.(nextId := st.nextId + 1), open)
  {
    KeptSelf(st, st.(nextId := st.nextId + 1), open);
  }

  // What a line holds when it is unregistered

  /** A line that a token has been registered with starts out empty, and agrees with the empty direct state. */
  lemma {:induction false} RegisteredAgrees(st: ThreadState, token: Option<CollectToken>, external: SpanId,
                                            anchor: Anchor)
    requires Good(st) && st.registered < EPOCH_LIMIT
    requires token.None? || exists item <- token.value :: item.isSampled
    ensures var st' := st.(lines := st.lines + [NewLine(st.NextEpoch(), token)], registered := st.registered + 1);
            Recording(st', Direct([], []), st.nextId, external, anchor)
  {
    hide Good, Encodes, Matches;
    RegisterKeeps(st, token);
    EmptyEncodes();
    EmptyMatches(external, anchor);
  }

  lemma {:induction false} IdsAreNew(st: ThreadState, d: Direct, bound: SpanId, external: SpanId, anchor: Anchor,
                                     id: SpanId)
    requires Recording(st, d, bound, external, anchor) && (id < bound || id >= st.nextId)
    ensures id !in IdsIn(Last(st.lines).queue.spans) && DistinctIds(Last(st.lines).queue.spans)
    ensures Matches(Last(st.lines).queue, d, external, anchor)
  {
    hide Matches;
    assert LocalStack.LineGood(st, Last(st.lines));
  }

  /** The records of a line that was registered, used by any program and is about to be unregistered are the direct
      meaning of that program: for a sampled line, or one without a token, every span stands with its name, its times,
      its parent and everything noted in it, as long as there is room; any other line has recorded nothing. */
  lemma {:induction false} LineTells(st: ThreadState, capacity: nat, token: Option<CollectToken>, body: seq<Action>,
                                     parent: SpanContext, endTime: Instant, anchor: Anchor)
    requires Good(st) && |st.lines| < capacity && Clocked(body)
    requires st.registered + 1 + Registrations(body) <= EPOCH_LIMIT
    requires parent.spanId < st.nextId || parent.spanId >= st.nextId + IdCount(body)
    ensures var registered
              := st.(lines := st.lines + [NewLine(st.NextEpoch(), token)], registered := st.registered + 1);
            var done := PerformAll(registered, capacity, body);
            && done.lines != [] && Init(done.lines) == st.lines && Last(done.lines).collectToken == token
            && var spans := Last(done.lines).queue.spans;
               if token.None? || exists item <- token.value :: item.isSampled then
                 var told := TellAll(body, st.nextId, parent.spanId, 1024, |st.lines| + 1 < capacity, anchor);
                 ToRecords(LocalSpans(spans, endTime), parent, anchor)
                 == DirectRecords(told.slots, parent.traceId, endTime, anchor)
               else spans == []
  {
    hide Good, TopEncodes, Encodes, Matches, Recording, PerformAll, ToRecords, DistinctIds, Grown, Clocked, IdsIn,
         TellAll;
    var registered := st.(lines := st.lines + [NewLine(st.NextEpoch(), token)], registered := st.registered + 1);
    var done := PerformAll(registered, capacity, body);
    RegisterKeeps(st, token);
    ProgramKeeps(registered, capacity, body, []);
    KeptLines(registered, done, []);
    assert Init(registered.lines) == st.lines;
    if token.None? || exists item <- token.value :: item.isSampled {
      var d := Direct([], []);
      RegisteredAgrees(st, token, parent.spanId, anchor);
      ProgramTells(registered, capacity, body, d, st.nextId, parent.spanId, anchor);
      var told := TellAll(body, st.nextId, parent.spanId, 1024, |st.lines| + 1 < capacity, anchor);
      FromEmpty(told);
      TakesIds(registered, capacity, body);
      IdsAreNew(done, Direct(told.slots, []), st.nextId, parent.spanId, anchor, parent.spanId);
      MatchingToRecords(Last(done.lines).queue, Direct(told.slots, []), parent, endTime, anchor);
    } else {
      NothingTold(registered, capacity, body, []);
    }
  }

  lemma {:induction false} KeptLines(st: ThreadState, st': ThreadState, open: seq<nat>)
    requires Kept(st, st', open) && st.lines != []
    ensures st'.lines != [] && Init(st'.lines) == Init(st.lines)
    ensures Last(st'.lines).collectToken == Last(st.lines).collectToken
  {
  }

  lemma {:induction false} FromEmpty(told: Told)
    ensures Direct([], []).Valid() && Grown(Direct([], []), told) == Direct(told.slots, [])
  {
    assert [] + told.slots == told.slots;
  }
}

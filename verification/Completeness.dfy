/** Nothing that is recorded gets lost on the way to the collector (fastrace/src/span.rs, fastrace/src/local): in every
    run of the token protocol each span, event and properties entry with a sampled token item is in exactly one place,
    in a span that has not been dropped, on a line of some stack, or in one message to the collector. */
module Completeness {
  import opened Records
  import opened SpanQueues
  import opened Lineage

  datatype Place = InLive | OnLine(thread: nat, line: nat, at: nat) | InSent(message: nat, at: nat)

  /** What is found in a place: an entry and the token it goes with. */
  datatype Held = Held(raw: RawSpan, token: TracedToken)

  function SpansOf(spans: SpanSet): seq<RawSpan> {
    match spans
    case Single(raw) => [raw]
    case Local(local) => local.spans
    case SharedLocal(local) => local.spans
  }

  function HeldBy(spans: seq<RawSpan>, token: TracedToken, id: SpanId, j: nat): Option<Held> {
    if j < |spans| && spans[j].id == id then Some(Held(spans[j], token)) else None
  }

  ghost function At(w: World, id: SpanId, place: Place): Option<Held> {
    match place
    case InLive => if id in w.live then Some(Held(w.live[id].raw, w.live[id].token)) else None
    case OnLine(thread, i, j) =>
      if i < |Stack(w, thread)| then HeldBy(Stack(w, thread)[i].queue.spans, Stack(w, thread)[i].token, id, j) else None
    case InSent(k, j) =>
      if k < |w.sent| && w.sent[k].SentSpans? then HeldBy(SpansOf(w.sent[k].spans), w.sent[k].token, id, j) else None
  }

  ghost predicate HasSampled(token: TracedToken) {
    exists t <- token :: t.item.isSampled
  }

  /** `part` is exactly the sampled items of `whole`, in their order: item `k` of it is item `at[k]` there. */
  ghost predicate SampledOf(part: TracedToken, whole: TracedToken, at: seq<nat>) {
    && |at| == |part|
    && (forall j, k :: 0 <= j < k < |at| ==> at[j] < at[k])
    && (forall k :: 0 <= k < |at| ==> at[k] < |whole| && part[k] == whole[at[k]] && whole[at[k]].item.isSampled)
    && (forall i :: 0 <= i < |whole| && whole[i].item.isSampled ==> i in at)
  }

  /** What is held is what was made: the same name, kind, begin and parent, for an event or properties entry the same
      properties, for a span those it began with or more. Its token is its own one, and when it has been sent, the
      sampled items of that. */
  ghost predicate Faithful(made: Made, held: Held, sent: bool) {
    var raw, before := held.raw, made.raw;
    && (raw.id, raw.parentId, raw.begin, raw.name, raw.kind)
       == (before.id, before.parentId, before.begin, before.name, before.kind)
    && (if raw.kind.SpanKind? then before.OwnProperties() <= raw.OwnProperties() else raw == before)
    && (if sent then held.token != [] && exists at :: SampledOf(held.token, made.token, at)
        else held.token == made.token)
  }

  ghost predicate FaithfulAt(w: World, id: SpanId, place: Place) {
    At(w, id, place).Some? ==> id in w.made && Faithful(w.made[id], At(w, id, place).value, place.InSent?)
  }

  ghost predicate OnceAt(w: World, id: SpanId, p: Place, q: Place) {
    At(w, id, p).Some? && At(w, id, q).Some? ==> p == q
  }

  ghost predicate Somewhere(w: World, id: SpanId) {
    exists p :: At(w, id, p).Some?
  }

  /** Whatever is held is what was made, nothing is held twice, and everything with a sampled token item is held. */
  ghost predicate Complete(w: World) {
    && (forall id <- w.made :: w.made[id].raw.id == id)
    && (forall id, p :: FaithfulAt(w, id, p))
    && (forall id, p, q :: OnceAt(w, id, p, q))
    && (forall id <- w.made :: HasSampled(w.made[id].token) ==> Somewhere(w, id))
  }

  // Moving entries

  /** How entries move in a step: not at all, from the innermost line into a message, or from a dropped span. */
  datatype Move = Stay | SendLine(thread: nat, line: nat, message: nat) | SendSpan(span: SpanId, message: nat)

  function Forth(m: Move, id: SpanId, p: Place): Place {
    match m
    case Stay => p
    case SendLine(thread, line, message) =>
      if p.OnLine? && p.thread == thread && p.line == line then InSent(message, p.at) else p
    case SendSpan(span, message) => if p.InLive? && id == span then InSent(message, 0) else p
  }

  function Back(m: Move, id: SpanId, p: Place): Place {
    match m
    case Stay => p
    case SendLine(thread, line, message) =>
      if p.InSent? && p.message == message then OnLine(thread, line, p.at) else p
    case SendSpan(span, message) => if p.InSent? && p.message == message then InLive else p
  }

  /** What is held in `w'` was held in `w` before the move. */
  ghost predicate CameBack(w: World, w': World, m: Move, id: SpanId, p: Place) {
    At(w', id, p).Some? ==> At(w, id, Back(m, id, p)).Some? && Forth(m, id, Back(m, id, p)) == p
  }

  /** What is held in `w` is still held after the move, unless none of its items is sampled. */
  ghost predicate WentForth(w: World, w': World, m: Move, id: SpanId, p: Place) {
    At(w, id, p).Some? && id in w.made && HasSampled(w.made[id].token) ==> At(w', id, Forth(m, id, p)).Some?
  }

  lemma {:induction false} MovedComplete(w: World, w': World, m: Move)
    requires Complete(w) && w'.made == w.made
    requires forall id, p :: CameBack(w, w', m, id, p)
    requires forall id, p :: WentForth(w, w', m, id, p)
    requires forall id, p :: FaithfulAt(w', id, p)
    ensures Complete(w')
  {
    hide At, Faithful, Forth, Back, HasSampled;
    forall id, p, q ensures OnceAt(w', id, p, q) {
      assert CameBack(w, w', m, id, p) && CameBack(w, w', m, id, q);
      assert OnceAt(w, id, Back(m, id, p), Back(m, id, q));
    }
    forall id <- w'.made ensures HasSampled(w'.made[id].token) ==> Somewhere(w', id) {
      if HasSampled(w.made[id].token) {
        assert Somewhere(w, id);
        var p :| At(w, id, p).Some?;
        assert WentForth(w, w', m, id, p);
      }
    }
  }

  /** Nothing is held anywhere else than before. */
  ghost predicate SameHeld(w: World, w': World) {
    forall id, p :: At(w', id, p) == At(w, id, p)
  }

  lemma {:induction false} SameComplete(w: World, w': World)
    requires Complete(w) && w'.made == w.made && SameHeld(w, w')
    ensures Complete(w')
  {
    hide At, Faithful, HasSampled;
    forall id, p ensures CameBack(w, w', Stay, id, p) && WentForth(w, w', Stay, id, p) && FaithfulAt(w', id, p) {
      assert FaithfulAt(w, id, p);
      assert At(w', id, p) == At(w, id, p);
    }
    MovedComplete(w, w', Stay);
  }

  // Adding an entry

  /** Exactly `id` is new, and held in `place` alone. */
  ghost predicate AddedAt(w: World, w': World, id: SpanId, place: Place, x: SpanId, p: Place) {
    At(w', x, p).Some? <==> (if x == id then p == place else At(w, x, p).Some?)
  }

  lemma {:induction false} AddedComplete(w: World, w': World, id: SpanId, place: Place)
    requires Complete(w) && id !in w.made
    requires id in w'.made && w'.made[id].raw.id == id && w'.made == w.made[id := w'.made[id]]
    requires forall x, p :: AddedAt(w, w', id, place, x, p)
    requires forall x, p :: FaithfulAt(w', x, p)
    ensures Complete(w')
  {
    hide At, Faithful, HasSampled;
    forall x, p, q ensures OnceAt(w', x, p, q) {
      assert AddedAt(w, w', id, place, x, p) && AddedAt(w, w', id, place, x, q);
      assert OnceAt(w, x, p, q);
    }
    forall x <- w'.made ensures HasSampled(w'.made[x].token) ==> Somewhere(w', x) {
      if x == id {
        assert AddedAt(w, w', id, place, x, place);
      } else if HasSampled(w.made[x].token) {
        assert Somewhere(w, x);
        var p :| At(w, x, p).Some?;
        assert AddedAt(w, w', id, place, x, p);
      }
    }
  }

  /** What was not made before is held nowhere. */
  lemma {:induction false} NotHeld(w: World, id: SpanId, p: Place)
    requires Complete(w) && id !in w.made
    ensures At(w, id, p).None?
  {
    assert FaithfulAt(w, id, p);
  }

  // Sampling

  lemma {:induction false} SampledExactly(token: TracedToken) returns (at: seq<nat>)
    ensures SampledOf(Sampled(token), token, at)
    ensures Sampled(token) != [] <==> HasSampled(token)
  {
    if token == [] {
      at := [];
    } else {
      var before := SampledExactly(Init(token));
      at := before + if Last(token).item.isSampled then [|token| - 1] else [];
      HasSampledNext(token);
      SampledNext(token, Sampled(Init(token)), before, at);
    }
  }

  lemma {:induction false} HasSampledNext(token: TracedToken)
    requires token != []
    ensures HasSampled(token) <==> HasSampled(Init(token)) || Last(token).item.isSampled
  {
    assert token == Init(token) + [Last(token)];
  }

  lemma {:induction false} SampledNext(token: TracedToken, part: TracedToken, before: seq<nat>, at: seq<nat>)
    requires token != [] && SampledOf(part, Init(token), before)
    requires at == before + if Last(token).item.isSampled then [|token| - 1] else []
    ensures SampledOf(part + if Last(token).item.isSampled then [Last(token)] else [], token, at)
  {
    var init := Init(token);
    forall i | 0 <= i < |token| && token[i].item.isSampled ensures i in at {
      if i < |init| {
        assert init[i].item.isSampled;
      } else {
        assert at[|at| - 1] == i;
      }
    }
  }

  // Steps

  lemma {:induction false} ControlComplete(w: World, thread: nat, command: Command)
    requires Complete(w)
    ensures Complete(Control(w, thread, command))
  {
    hide Complete;
    var w' := Control(w, thread, command);
    forall id, p ensures At(w', id, p) == At(w, id, p) {
      assert forall k :: 0 <= k < |w.sent| ==> w'.sent[k] == w.sent[k];
    }
    SameComplete(w, w');
  }

  /** Roots, births, traces and counters are no places. */
  lemma {:induction false} ElsewhereComplete(w: World, w': World)
    requires Complete(w) && (w'.live, w'.stacks, w'.sent, w'.made) == (w.live, w.stacks, w.sent, w.made)
    ensures Complete(w')
  {
    hide Complete;
    SameComplete(w, w');
  }

  lemma {:induction false} WithSpanComplete(w: World, id: SpanId, name: string, token: TracedToken,
                                            collectId: Option<CollectId>)
    requires Complete(w) && Fresh(w, id)
    ensures Complete(WithSpan(w, id, name, token, collectId))
  {
    hide Complete;
    var w' := WithSpan(w, id, name, token, collectId);
    forall x, p ensures AddedAt(w, w', id, InLive, x, p) && FaithfulAt(w', x, p) {
      NotHeld(w, id, p);
      HeldFaithful(w, x, p);
    }
    AddedComplete(w, w', id, InLive);
  }

  lemma {:induction false} HeldFaithful(w: World, id: SpanId, p: Place)
    requires Complete(w)
    ensures FaithfulAt(w, id, p)
  {
  }

  lemma {:induction false} PushComplete(w: World, thread: nat, token: TracedToken)
    requires Complete(w)
    ensures Complete(w.(stacks := w.stacks[thread := Stack(w, thread) + [Line(token, QueueState([], None))]]))
  {
    hide Complete;
    var w' := w.(stacks := w.stacks[thread := Stack(w, thread) + [Line(token, QueueState([], None))]]);
    SameComplete(w, w');
  }

  /** An entry that is sent as soon as it is made: an event or properties of a span that is still alive. */
  lemma {:induction false} AddComplete(w: World, thread: nat, id: SpanId, token: TracedToken, raw: RawSpan)
    requires Complete(w) && Fresh(w, id) && raw.id == id
    ensures Complete(Submit(Noted(w, id, token, raw), thread, Single(raw), token))
  {
    hide Complete, HasSampled, SampledOf, Sampled;
    var w' := Submit(Noted(w, id, token, raw), thread, Single(raw), token);
    var at := SampledExactly(token);
    if HasSampled(token) {
      var place := InSent(|w.sent|, 0);
      forall x, p ensures AddedAt(w, w', id, place, x, p) && FaithfulAt(w', x, p) {
        NotHeld(w, id, p);
        HeldFaithful(w, x, p);
      }
      AddedComplete(w, w', id, place);
    } else {
      UnsampledComplete(w, w', id);
    }
  }

  /** What has no sampled item need not be held. */
  lemma {:induction false} UnsampledComplete(w: World, w': World, id: SpanId)
    requires Complete(w) && id !in w.made
    requires id in w'.made && w'.made[id].raw.id == id && w'.made == w.made[id := w'.made[id]]
    requires (w'.live, w'.stacks, w'.sent) == (w.live, w.stacks, w.sent) && !HasSampled(w'.made[id].token)
    ensures Complete(w')
  {
    hide Faithful, HasSampled, At;
    forall x, p ensures At(w', x, p) == At(w, x, p) && FaithfulAt(w', x, p) {
      SamePlaces(w, w', x, p);
      NotHeld(w, id, p);
      assert FaithfulAt(w, x, p);
    }
    forall x, p, q ensures OnceAt(w', x, p, q) {
      assert OnceAt(w, x, p, q);
    }
    forall x <- w'.made | x != id && HasSampled(w'.made[x].token) ensures Somewhere(w', x) {
      assert Somewhere(w, x);
      var p :| At(w, x, p).Some?;
      assert At(w', x, p).Some?;
    }
  }

  lemma {:induction false} SamePlaces(w: World, w': World, id: SpanId, p: Place)
    requires (w'.live, w'.stacks, w'.sent) == (w.live, w.stacks, w.sent)
    ensures At(w', id, p) == At(w, id, p)
  {
  }

  /** Dropping a span sends it, unless none of its items is sampled. */
  lemma {:induction false} DropSpanComplete(w: World, thread: nat, span: SpanId, now: Instant)
    requires Complete(w) && span in w.live && w.live[span].raw.kind.SpanKind?
    ensures var s := w.live[span];
            Complete(Submit(w.(live := w.live - {span}), thread, Single(s.raw.(end := now)), s.token))
  {
    hide Complete, HasSampled, SampledOf, Sampled;
    var s := w.live[span];
    var w' := Submit(w.(live := w.live - {span}), thread, Single(s.raw.(end := now)), s.token);
    HeldFaithful(w, span, InLive);
    MadeOwnId(w, span);
    var at := SampledExactly(s.token);
    var m := if HasSampled(s.token) then SendSpan(span, |w.sent|) else Stay;
    forall id, p
      ensures CameBack(w, w', m, id, p) && WentForth(w, w', m, id, p) && FaithfulAt(w', id, p)
    {
      HeldFaithful(w, id, p);
    }
    MovedComplete(w, w', m);
  }

  lemma {:induction false} MadeOwnId(w: World, id: SpanId)
    requires Complete(w) && id in w.made
    ensures w.made[id].raw.id == id
  {
  }

  lemma {:induction false} SentFaithful(made: Made, raw: RawSpan, token: TracedToken)
    requires Faithful(made, Held(raw, token), false) && HasSampled(token)
    ensures Faithful(made, Held(raw, Sampled(token)), true)
  {
    hide SampledOf, HasSampled, Sampled;
    var at := SampledExactly(token);
  }

  /** Where things are after a local parent has been dropped. */
  lemma {:induction false} AtAfterLine(w: World, thread: nat, now: Instant, id: SpanId, p: Place)
    requires Stack(w, thread) != []
    ensures var line, top := Last(Stack(w, thread)), |Stack(w, thread)| - 1;
            var popped := w.(stacks := w.stacks[thread := Init(Stack(w, thread))]);
            var w' := Submit(popped, thread, Local(LocalSpans(line.queue.spans, now)), line.token);
            At(w', id, p) ==
            if p.OnLine? && p.thread == thread && p.line == top then None
            else if p.InSent? && p.message == |w.sent| && HasSampled(line.token)
            then HeldBy(line.queue.spans, Sampled(line.token), id, p.at)
            else At(w, id, p)
  {
    hide HasSampled, SampledOf, Sampled, HeldBy;
    var at := SampledExactly(Last(Stack(w, thread)).token);
  }

  lemma {:induction false} AtLine(w: World, thread: nat, id: SpanId, j: nat)
    requires Stack(w, thread) != []
    ensures var line := Last(Stack(w, thread));
            At(w, id, OnLine(thread, |Stack(w, thread)| - 1, j)) == HeldBy(line.queue.spans, line.token, id, j)
  {
  }

  lemma {:induction false} UnsentToken(made: Made, held: Held)
    requires Faithful(made, held, false)
    ensures held.token == made.token
  {
  }

  lemma {:induction false} NothingBehind(w: World, id: SpanId, p: Place)
    ensures p.InSent? && p.message >= |w.sent| ==> At(w, id, p).None?
  {
  }

  /** Dropping a local parent sends everything its line has recorded, unless none of its items is sampled. */
  lemma {:induction false} DropLineComplete(w: World, thread: nat, now: Instant)
    requires Complete(w) && Stack(w, thread) != []
    ensures var line := Last(Stack(w, thread));
            var popped := w.(stacks := w.stacks[thread := Init(Stack(w, thread))]);
            Complete(Submit(popped, thread, Local(LocalSpans(line.queue.spans, now)), line.token))
  {
    hide Complete, HasSampled, Sampled, Faithful, At;
    var line, top := Last(Stack(w, thread)), |Stack(w, thread)| - 1;
    var popped := w.(stacks := w.stacks[thread := Init(Stack(w, thread))]);
    var w' := Submit(popped, thread, Local(LocalSpans(line.queue.spans, now)), line.token);
    var m := if HasSampled(line.token) then SendLine(thread, top, |w.sent|) else Stay;
    forall id, p
      ensures CameBack(w, w', m, id, p) && WentForth(w, w', m, id, p) && FaithfulAt(w', id, p)
    {
      AtAfterLine(w, thread, now, id, p);
      AtAfterLine(w, thread, now, id, Forth(m, id, p));
      HeldFaithful(w, id, p);
      NothingBehind(w, id, p);
      if !p.InLive? {
        AtLine(w, thread, id, p.at);
        HeldFaithful(w, id, OnLine(thread, top, p.at));
        if At(w, id, OnLine(thread, top, p.at)).Some? {
          UnsentToken(w.made[id], Held(line.queue.spans[p.at], line.token));
          if HasSampled(line.token) {
            SentFaithful(w.made[id], line.queue.spans[p.at], line.token);
          }
        }
      }
    }
    MovedComplete(w, w', m);
  }

  // Calls on a line

  function WithTop(w: World, thread: nat, queue: QueueState): World
    requires Stack(w, thread) != []
  {
    var line := Last(Stack(w, thread));
    w.(stacks := w.stacks[thread := Init(Stack(w, thread)) + [line.(queue := queue)]])
  }

  /** A call that fills the next entry of the innermost line. */
  lemma {:induction false} AppendComplete(w: World, thread: nat, queue: QueueState, raw: RawSpan)
    requires Complete(w) && Stack(w, thread) != [] && Fresh(w, raw.id)
    requires queue.spans == Last(Stack(w, thread)).queue.spans + [raw]
    ensures Complete(Noted(WithTop(w, thread, queue), raw.id, Last(Stack(w, thread)).token, raw))
  {
    hide Complete, HasSampled, SampledOf;
    var line, top := Last(Stack(w, thread)), |Stack(w, thread)| - 1;
    var w' := Noted(WithTop(w, thread, queue), raw.id, line.token, raw);
    var place := OnLine(thread, top, |line.queue.spans|);
    forall x, p ensures AddedAt(w, w', raw.id, place, x, p) && FaithfulAt(w', x, p) {
      NotHeld(w, raw.id, p);
      HeldFaithful(w, x, p);
    }
    AddedComplete(w, w', raw.id, place);
  }

  /** A call that rewrites the end or the properties of a span on the innermost line. */
  lemma {:induction false} RewriteComplete(w: World, thread: nat, queue: QueueState, handle: nat)
    requires Complete(w) && Stack(w, thread) != []
    requires handle < |Last(Stack(w, thread)).queue.spans|
    requires var before := Last(Stack(w, thread)).queue.spans[handle];
             && handle < |queue.spans|
             && queue.spans == Last(Stack(w, thread)).queue.spans[handle := queue.spans[handle]]
             && queue.spans[handle]
                == before.(end := queue.spans[handle].end, properties := queue.spans[handle].properties)
             && before.kind.SpanKind? && before.OwnProperties() <= queue.spans[handle].OwnProperties()
    ensures Complete(WithTop(w, thread, queue))
  {
    hide Complete, HasSampled, SampledOf;
    var w' := WithTop(w, thread, queue);
    forall id, p
      ensures CameBack(w, w', Stay, id, p) && WentForth(w, w', Stay, id, p) && FaithfulAt(w', id, p)
    {
      HeldFaithful(w, id, p);
    }
    MovedComplete(w, w', Stay);
  }

  lemma {:induction false} LocalCallComplete(w: World, thread: nat, op: Op, capacity: nat)
    requires Complete(w) && Enabled(w, LocalCall(thread, op))
    ensures Complete(Next(w, LocalCall(thread, op), capacity))
  {
    hide Complete;
    var line := Last(Stack(w, thread));
    var queue := AfterOp(line.queue, capacity, op);
    var w' := Next(w, LocalCall(thread, op), capacity);
    if op.Finish? || op.WithProperties? {
      RewriteComplete(w, thread, queue, op.handle);
    } else if |line.queue.spans| >= capacity {
      SameLine(w, thread);
      ElsewhereComplete(w, WithTop(w, thread, line.queue));
    } else {
      var noted := Noted(WithTop(w, thread, queue), op.id, line.token, Last(queue.spans));
      AppendComplete(w, thread, queue, Last(queue.spans));
      if op.Start? {
        ElsewhereComplete(noted, Created(noted, op.id, line.token));
      }
    }
  }

  lemma {:induction false} SameLine(w: World, thread: nat)
    requires Stack(w, thread) != []
    ensures WithTop(w, thread, Last(Stack(w, thread)).queue) == w
  {
    assert Init(Stack(w, thread)) + [Last(Stack(w, thread))] == Stack(w, thread);
    assert w.stacks[thread := Stack(w, thread)] == w.stacks;
  }

  lemma {:induction false} LiveKind(w: World, id: SpanId)
    requires Inv(w) && id in w.live
    ensures w.live[id].raw.kind.SpanKind?
  {
    assert SpanGood(w, id, w.live[id]);
  }

  lemma {:induction false} NewRootComplete(w: World, thread: nat, id: SpanId, context: SpanContext, name: string,
                                           capacity: nat)
    requires Complete(w) && Fresh(w, id)
    ensures Complete(Next(w, NewRoot(thread, id, context, name), capacity))
  {
    hide Complete;
    var collectId := if context.sampled then w.nextCollectId else NOT_SAMPLED_COLLECT_ID;
    ControlComplete(w, thread, StartCollect(collectId));
    var sent := if context.sampled then Control(w, thread, StartCollect(collectId)) else w;
    var started := if context.sampled then sent.(nextCollectId := w.nextCollectId + 1) else w;
    var item := TokenItem(context.traceId, context.spanId, collectId, true, context.sampled);
    var rooted := started.(roots := w.roots + [Root(context, collectId, id)]);
    ElsewhereComplete(sent, rooted);
    WithSpanComplete(rooted, id, name, [TracedItem(item, |w.roots|)], Some(collectId));
  }

  lemma {:induction false} StepComplete(w: World, step: Step, capacity: nat)
    requires Complete(w) && Inv(w) && Enabled(w, step)
    ensures Complete(Next(w, step, capacity))
  {
    hide Complete, Inv, Submit, Control, WithSpan, Noted, AfterOp, Issue, IssueAll, Lineage.CurrentToken;
    match step
    case NewRoot(thread, id, context, name) => NewRootComplete(w, thread, id, context, name, capacity);
    case EnterWithParents(_, id, parents, name) => WithSpanComplete(w, id, name, IssueAll(w.live, parents), None);
    case EnterWithLocalParent(thread, id, name) =>
      WithSpanComplete(w, id, name, Lineage.CurrentToken(Last(Stack(w, thread))), None);
    case SetLocalParent(thread, span) => PushComplete(w, thread, Issue(w.live[span]));
    case DropLocalParent(thread, now) => DropLineComplete(w, thread, now);
    case LocalCall(thread, op) => LocalCallComplete(w, thread, op, capacity);
    case AddToSpan(thread, id, span, kind, name, properties) =>
      var raw := BeginWith(id, NO_ID, w.clock, name, kind).(properties := properties);
      AddComplete(w, thread, id, Issue(w.live[span]), raw);
    case Cancel(thread, span) =>
      if w.live[span].collectId.Some? {
        ControlComplete(w, thread, DropCollect(w.live[span].collectId.value));
      }
    case DropSpan(thread, span, now) =>
      var s := w.live[span];
      LiveKind(w, span);
      DropSpanComplete(w, thread, span, now);
      if s.collectId.Some? {
        ControlComplete(Submit(w.(live := w.live - {span}), thread, Single(s.raw.(end := now)), s.token), thread,
                        CommitCollect(s.collectId.value));
      }
  }

  lemma {:induction false} EmptyComplete()
    ensures Complete(EMPTY_WORLD)
  {
  }

  /** In every reachable world each span, event and properties entry with a sampled token item is in exactly one place,
      as it was made, and once it has been sent it goes with exactly the sampled items of its own token. */
  lemma {:induction false} ReachableComplete(capacity: nat, steps: seq<Step>, w: World)
    requires Lineage.Reaches(capacity, steps, w)
    ensures Complete(w)
    decreases |steps|
  {
    hide Complete, Inv, Next, Permitted, Fresh;
    if steps == [] {
      EmptyComplete();
    } else {
      var w0 :|
        && Lineage.Reaches(capacity, Init(steps), w0) && Enabled(w0, Last(steps))
        && w == Next(w0, Last(steps), capacity);
      ReachableComplete(capacity, Init(steps), w0);
      ReachableInv(capacity, Init(steps), w0);
      StepComplete(w0, Last(steps), capacity);
    }
  }

  // What each step makes

  /** The children of span `id` get each of its items, below `id` and no longer as a root's. */
  ghost predicate IssuedFrom(child: TracedItem, parent: TracedItem, id: SpanId) {
    && child.root == parent.root
    && child.item.traceId == parent.item.traceId && child.item.collectId == parent.item.collectId
    && child.item.isSampled == parent.item.isSampled
    && child.item.parentId == id && !child.item.isRoot
  }

  /** How many items the first `n` parents have between them. */
  function ItemsOf(live: map<SpanId, Span>, parents: seq<SpanId>, n: nat): nat
    requires n <= |parents|
  {
    if n == 0 then 0
    else ItemsOf(live, parents, n - 1) + if parents[n - 1] in live then |live[parents[n - 1]].token| else 0
  }

  /** One item for each item of each live parent, parent by parent, and no others. */
  ghost predicate IssuedFromAll(token: TracedToken, live: map<SpanId, Span>, parents: seq<SpanId>) {
    && |token| == ItemsOf(live, parents, |parents|)
    && forall k, i {:trigger ParentItem(token, live, parents, k, i)} :: ParentItem(token, live, parents, k, i)
  }

  ghost predicate ParentItem(token: TracedToken, live: map<SpanId, Span>, parents: seq<SpanId>, k: nat, i: nat) {
    k < |parents| && parents[k] in live && i < |live[parents[k]].token| ==>
      var n := ItemsOf(live, parents, k) + i;
      n < |token| && IssuedFrom(token[n], live[parents[k]].token[i], parents[k])
  }

  lemma {:induction false} ItemsOfInit(live: map<SpanId, Span>, parents: seq<SpanId>, n: nat)
    requires parents != [] && n < |parents|
    ensures ItemsOf(live, Init(parents), n) == ItemsOf(live, parents, n)
  {
    if n > 0 {
      ItemsOfInit(live, parents, n - 1);
    }
  }

  lemma {:induction false} IssuedItem(w: World, id: SpanId, i: nat)
    requires Inv(w) && id in w.live && i < |w.live[id].token|
    ensures |Issue(w.live[id])| == |w.live[id].token|
    ensures IssuedFrom(Issue(w.live[id])[i], w.live[id].token[i], id)
  {
    assert SpanGood(w, id, w.live[id]);
  }

  /** A span below several parents holds one item for each item of each parent that is alive. */
  lemma {:induction false} IssueAllExactly(w: World, parents: seq<SpanId>)
    requires Inv(w)
    ensures IssuedFromAll(IssueAll(w.live, parents), w.live, parents)
  {
    hide Inv, Issue, IssuedFrom;
    var token := IssueAll(w.live, parents);
    if parents != [] {
      var n := |parents| - 1;
      IssueAllExactly(w, Init(parents));
      ItemsOfInit(w.live, parents, n);
      IssueLength(w.live, Last(parents));
      forall k: nat, i: nat ensures ParentItem(token, w.live, parents, k, i) {
        if k < n {
          assert ParentItem(IssueAll(w.live, Init(parents)), w.live, Init(parents), k, i);
          ItemsOfInit(w.live, parents, k);
        } else if k == n && parents[n] in w.live && i < |w.live[parents[n]].token| {
          IssuedItem(w, parents[n], i);
        }
      }
    }
  }

  lemma {:induction false} IssueLength(live: map<SpanId, Span>, id: SpanId)
    ensures id in live ==> |Issue(live[id])| == |live[id].token|
  {
  }

  /** The items of a line below its innermost open span, or below the line's own parent when none is open. */
  ghost predicate InheritedFrom(token: TracedToken, line: Line) {
    && |token| == |line.token|
    && forall i :: 0 <= i < |token| ==>
         var item, open := line.token[i].item, line.queue.nextParent;
         var parentId := if open.Some? then open.value else item.parentId;
         token[i] == TracedItem(item.(parentId := parentId), line.token[i].root)
  }

  /** Nothing but `id` is made, with the given entry. */
  ghost predicate Makes(w: World, w': World, id: SpanId, raw: RawSpan) {
    w'.made.Keys == w.made.Keys + {id} && w'.made[id].raw == raw && forall x <- w.made :: w'.made[x] == w.made[x]
  }

  /** What a step makes, field by field, and the token it goes with. A call on a line with room makes an entry below
      the innermost open span with the token of the line; steps that create nothing make nothing. */
  ghost predicate MadeBy(w: World, w': World, step: Step, capacity: nat)
    requires Permitted(w, step)
  {
    match step
    case NewRoot(_, id, context, name) =>
      && Makes(w, w', id, RawSpan(id, 0, w.clock, name, None, SpanKind, 0))
      && |w'.made[id].token| == 1 && w'.made[id].token[0].root == |w.roots|
      && var item := w'.made[id].token[0].item;
         && (item.traceId, item.parentId) == (context.traceId, context.spanId)
         && item.isRoot && item.isSampled == context.sampled
         && item.collectId == if context.sampled then w.nextCollectId else 0xFFFF_FFFF_FFFF_FFFF
    case EnterWithParents(_, id, parents, name) =>
      && Makes(w, w', id, RawSpan(id, 0, w.clock, name, None, SpanKind, 0))
      && IssuedFromAll(w'.made[id].token, w.live, parents)
    case EnterWithLocalParent(thread, id, name) =>
      && Makes(w, w', id, RawSpan(id, 0, w.clock, name, None, SpanKind, 0))
      && InheritedFrom(w'.made[id].token, Last(Stack(w, thread)))
    case AddToSpan(_, id, span, kind, name, properties) =>
      && Makes(w, w', id, RawSpan(id, 0, w.clock, name, properties, kind, 0))
      && |w'.made[id].token| == |w.live[span].token|
      && forall i :: 0 <= i < |w.live[span].token| ==>
           IssuedFrom(w'.made[id].token[i], w.live[span].token[i], span)
    case LocalCall(thread, op) =>
      var line := Last(Stack(w, thread));
      if op.Finish? || op.WithProperties? || |line.queue.spans| >= capacity then w'.made == w.made
      else Makes(w, w', op.id, LocalEntry(op, line.queue.nextParent)) && w'.made[op.id].token == line.token
    case _ => w'.made == w.made
  }

  lemma {:induction false} AddMade(w: World, step: Step, capacity: nat)
    requires Inv(w) && Enabled(w, step) && step.AddToSpan?
    ensures MadeBy(w, Next(w, step, capacity), step, capacity)
  {
    hide Inv, Issue, Submit, IssuedFrom;
    var id, span, issued := step.id, step.span, Issue(w.live[step.span]);
    var raw := BeginWith(id, NO_ID, w.clock, step.name, step.kind).(properties := step.properties);
    SubmitMade(Noted(w, id, issued, raw), step.thread, Single(raw), issued);
    IssueLength(w.live, span);
    forall i: nat | i < |w.live[span].token| ensures IssuedFrom(issued[i], w.live[span].token[i], span) {
      IssuedItem(w, span, i);
    }
  }

  lemma {:induction false} CallMade(w: World, step: Step, capacity: nat)
    requires Enabled(w, step) && step.LocalCall?
    ensures MadeBy(w, Next(w, step, capacity), step, capacity)
  {
    hide AfterOp, LocalEntry;
    var line, op := Last(Stack(w, step.thread)), step.op;
    if !(op.Finish? || op.WithProperties? || |line.queue.spans| >= capacity) {
      EntryMade(line.queue, capacity, op);
      EntryId(op, line.queue.nextParent);
    }
  }

  lemma {:induction false} EntryId(op: Op, nextParent: Option<SpanId>)
    requires op.Start? || op.AddEvent? || op.AddProperties?
    ensures LocalEntry(op, nextParent).id == op.id
  {
  }

  lemma {:induction false} EnteredMade(w: World, step: Step, capacity: nat)
    requires Inv(w) && Enabled(w, step)
    requires step.NewRoot? || step.EnterWithParents? || step.EnterWithLocalParent?
    ensures MadeBy(w, Next(w, step, capacity), step, capacity)
  {
    hide Inv, IssueAll, Lineage.CurrentToken, IssuedFromAll;
    match step
    case EnterWithParents(_, id, parents, name) => IssueAllExactly(w, parents);
    case EnterWithLocalParent(thread, id, name) => InheritedExactly(Last(Stack(w, thread)));
    case _ =>
  }

  /** Every step makes exactly that. */
  lemma {:induction false} MadeExactly(w: World, step: Step, capacity: nat)
    requires Inv(w) && Enabled(w, step)
    ensures MadeBy(w, Next(w, step, capacity), step, capacity)
  {
    hide Inv, AfterOp, Issue, IssueAll, Lineage.CurrentToken, Submit, IssuedFromAll;
    match step
    case AddToSpan(_, _, _, _, _, _) => AddMade(w, step, capacity);
    case LocalCall(_, _) => CallMade(w, step, capacity);
    case DropSpan(thread, span, now) =>
      var s := w.live[span];
      SubmitMade(w.(live := w.live - {span}), thread, Single(s.raw.(end := now)), s.token);
    case DropLocalParent(thread, now) =>
      var line := Last(Stack(w, thread));
      var popped := w.(stacks := w.stacks[thread := Init(Stack(w, thread))]);
      SubmitMade(popped, thread, Local(LocalSpans(line.queue.spans, now)), line.token);
    case Cancel(_, _) =>
    case SetLocalParent(_, _) =>
    case _ => EnteredMade(w, step, capacity);
  }

  /** The entry of a local call, field by field. */
  function LocalEntry(op: Op, nextParent: Option<SpanId>): RawSpan
    requires op.Start? || op.AddEvent? || op.AddProperties?
  {
    var parentId := if nextParent.Some? then nextParent.value else 0;
    match op
    case Start(id, now, name) => RawSpan(id, parentId, now, name, None, SpanKind, 0)
    case AddEvent(id, now, name, properties) => RawSpan(id, parentId, now, name, properties, EventKind, 0)
    case AddProperties(id, properties) => RawSpan(id, parentId, 0, "", Some(properties), PropertiesKind, 0)
  }

  lemma {:induction false} EntryMade(q: QueueState, capacity: nat, op: Op)
    requires op.Start? || op.AddEvent? || op.AddProperties?
    requires |q.spans| < capacity
    ensures AfterOp(q, capacity, op).spans == q.spans + [LocalEntry(op, q.nextParent)]
  {
    if op.AddProperties? {
      assert [] + op.properties == op.properties;
    }
  }

  lemma {:induction false} InheritedExactly(line: Line)
    ensures InheritedFrom(Lineage.CurrentToken(line), line)
  {
  }

  lemma {:induction false} SubmitMade(w: World, thread: nat, spans: SpanSet, token: TracedToken)
    ensures Submit(w, thread, spans, token).made == w.made
  {
  }

  ghost predicate MadeStays(w: World, w': World) {
    forall id <- w.made :: id in w'.made && w'.made[id] == w.made[id]
  }

  lemma {:induction false} StepStays(w: World, step: Step, capacity: nat)
    requires Inv(w) && Enabled(w, step)
    ensures MadeStays(w, Next(w, step, capacity))
  {
    hide Inv, Next, IssuedFromAll, IssuedFrom, InheritedFrom, LocalEntry;
    MadeExactly(w, step, capacity);
  }

  /** What a step of a run has made is still remembered at its end. */
  lemma {:induction false} MadeInRun(capacity: nat, steps: seq<Step>, w: World, k: nat) returns (w0: World, w1: World)
    requires Lineage.Reaches(capacity, steps, w) && k < |steps|
    ensures Lineage.Reaches(capacity, steps[..k], w0) && Lineage.Reaches(capacity, steps[..k + 1], w1)
    ensures Enabled(w0, steps[k]) && MadeBy(w0, w1, steps[k], capacity) && MadeStays(w1, w)
    decreases |steps|
  {
    hide Inv, Next, MadeBy, Permitted, Fresh;
    var before :|
      && Lineage.Reaches(capacity, Init(steps), before) && Enabled(before, Last(steps))
      && w == Next(before, Last(steps), capacity);
    ReachableInv(capacity, Init(steps), before);
    if k == |steps| - 1 {
      w0, w1 := before, w;
      assert steps[..k] == Init(steps) && steps[..k + 1] == steps;
      MadeExactly(before, Last(steps), capacity);
    } else {
      w0, w1 := MadeInRun(capacity, Init(steps), before, k);
      assert Init(steps)[..k] == steps[..k] && Init(steps)[..k + 1] == steps[..k + 1];
      StepStays(before, Last(steps), capacity);
    }
  }

  // What each step does to spans and lines

  /** All threads but this one keep their lines. */
  ghost predicate OthersKeep(w: World, w': World, thread: nat) {
    forall t: nat :: t != thread ==> Stack(w', t) == Stack(w, t)
  }

  /** A new line has an empty queue, and one item for each item of the span, below that span. */
  ghost predicate LineBelow(line: Line, span: Span, id: SpanId) {
    && line.queue == QueueState([], None) && |line.token| == |span.token|
    && forall i :: 0 <= i < |span.token| ==> IssuedFrom(line.token[i], span.token[i], id)
  }

  /** A step creates the span it makes, removes the span it drops, pushes or pops one line, or changes the queue of the
      innermost line; everything else stays as it was. */
  ghost predicate PlacedBy(w: World, w': World, step: Step, capacity: nat)
    requires Permitted(w, step)
  {
    match step
    case NewRoot(_, id, context, _) =>
      && w'.stacks == w.stacks && id in w'.made
      && var collectId := if context.sampled then w.nextCollectId else 0xFFFF_FFFF_FFFF_FFFF;
         && w'.roots == w.roots + [Root(context, collectId, id)]
         && w'.nextCollectId == w.nextCollectId + (if context.sampled then 1 else 0)
         && w'.live == w.live[id := Span(w'.made[id].raw, w'.made[id].token, Some(collectId))]
    case EnterWithParents(_, id, _, _) =>
      && w'.stacks == w.stacks && id in w'.made
      && w'.live == w.live[id := Span(w'.made[id].raw, w'.made[id].token, None)]
    case EnterWithLocalParent(_, id, _) =>
      && w'.stacks == w.stacks && id in w'.made
      && w'.live == w.live[id := Span(w'.made[id].raw, w'.made[id].token, None)]
    case SetLocalParent(thread, span) =>
      && w'.live == w.live && OthersKeep(w, w', thread)
      && |Stack(w', thread)| == |Stack(w, thread)| + 1 && Init(Stack(w', thread)) == Stack(w, thread)
      && LineBelow(Last(Stack(w', thread)), w.live[span], span)
    case DropLocalParent(thread, _) =>
      w'.live == w.live && OthersKeep(w, w', thread) && Stack(w', thread) == Init(Stack(w, thread))
    case LocalCall(thread, op) =>
      && w'.live == w.live && OthersKeep(w, w', thread)
      && |Stack(w', thread)| == |Stack(w, thread)| && Init(Stack(w', thread)) == Init(Stack(w, thread))
      && var line, line' := Last(Stack(w, thread)), Last(Stack(w', thread));
         line'.token == line.token && line'.queue == AfterOp(line.queue, capacity, op)
    case DropSpan(_, span, _) => w'.stacks == w.stacks && w'.live == w.live - {span}
    case _ => w'.stacks == w.stacks && w'.live == w.live
  }

  lemma {:induction false} NewLineBelow(w: World, id: SpanId)
    requires Inv(w) && id in w.live
    ensures LineBelow(Line(Issue(w.live[id]), QueueState([], None)), w.live[id], id)
  {
    hide Inv, Issue, IssuedFrom;
    IssueLength(w.live, id);
    forall i | 0 <= i < |w.live[id].token| ensures IssuedFrom(Issue(w.live[id])[i], w.live[id].token[i], id) {
      IssuedItem(w, id, i);
    }
  }

  lemma {:induction false} PushedBelow(w: World, step: Step, capacity: nat)
    requires Inv(w) && Enabled(w, step) && step.SetLocalParent?
    ensures PlacedBy(w, Next(w, step, capacity), step, capacity)
  {
    hide Inv, Issue, LineBelow;
    var line := Line(Issue(w.live[step.span]), QueueState([], None));
    NewLineBelow(w, step.span);
    assert Next(w, step, capacity).stacks == w.stacks[step.thread := Stack(w, step.thread) + [line]];
  }

  lemma {:induction false} EnteredPlaced(w: World, step: Step, capacity: nat)
    requires Enabled(w, step)
    requires step.NewRoot? || step.EnterWithParents? || step.EnterWithLocalParent?
    ensures PlacedBy(w, Next(w, step, capacity), step, capacity)
  {
    hide IssueAll, Lineage.CurrentToken;
  }

  lemma {:induction false} SentPlaced(w: World, step: Step, capacity: nat)
    requires Enabled(w, step) && (step.DropSpan? || step.DropLocalParent? || step.AddToSpan?)
    ensures PlacedBy(w, Next(w, step, capacity), step, capacity)
  {
    hide Issue, Submit;
    match step
    case DropSpan(thread, span, now) =>
      var s := w.live[span];
      SubmitSends(w.(live := w.live - {span}), thread, Single(s.raw.(end := now)), s.token);
    case DropLocalParent(thread, now) =>
      var line := Last(Stack(w, thread));
      var popped := w.(stacks := w.stacks[thread := Init(Stack(w, thread))]);
      SubmitSends(popped, thread, Local(LocalSpans(line.queue.spans, now)), line.token);
    case AddToSpan(thread, id, span, kind, name, properties) =>
      var raw := BeginWith(id, NO_ID, w.clock, name, kind).(properties := properties);
      SubmitSends(Noted(w, id, Issue(w.live[span]), raw), thread, Single(raw), Issue(w.live[span]));
  }

  lemma {:induction false} CalledPlaced(w: World, step: Step, capacity: nat)
    requires Enabled(w, step) && step.LocalCall?
    ensures PlacedBy(w, Next(w, step, capacity), step, capacity)
  {
    hide AfterOp;
  }

  /** Every step does exactly that. */
  lemma {:induction false} PlacedExactly(w: World, step: Step, capacity: nat)
    requires Inv(w) && Enabled(w, step)
    ensures PlacedBy(w, Next(w, step, capacity), step, capacity)
  {
    if step.SetLocalParent? {
      hide PlacedBy, Inv, Next;
      PushedBelow(w, step, capacity);
    } else if step.NewRoot? || step.EnterWithParents? || step.EnterWithLocalParent? {
      hide PlacedBy, Inv, Next;
      EnteredPlaced(w, step, capacity);
    } else if step.LocalCall? {
      hide PlacedBy, Inv, Next;
      CalledPlaced(w, step, capacity);
    } else if step.Cancel? {
      assert Next(w, step, capacity).stacks == w.stacks;
    } else {
      hide PlacedBy, Inv, Next;
      SentPlaced(w, step, capacity);
    }
  }

  // What each step sends

  /** One message with `spans` and the sampled items of `token` is sent on the channel of `thread`, and nothing at all
      when there are none. */
  ghost predicate Sends(before: seq<Sent>, after: seq<Sent>, thread: nat, spans: SpanSet, token: TracedToken) {
    if HasSampled(token)
    then
      && |after| == |before| + 1 && before <= after
      && Last(after).SentSpans? && Last(after).thread == thread && Last(after).spans == spans
      && exists at :: SampledOf(Last(after).token, token, at)
    else after == before
  }

  /** What each step sends besides starts, drops and commits: a span when it is dropped, with that moment as its end;
      all entries of a line when its local parent is dropped, in order, with that moment for the spans still open;
      an event or properties entry of a span as it is made. No other step sends spans. */
  lemma {:induction false} SendsExactly(w: World, step: Step, capacity: nat)
    requires Enabled(w, step)
    ensures var w' := Next(w, step, capacity);
            match step
            case DropSpan(thread, span, now) =>
              && w'.live == w.live - {span}
              && var s := w.live[span];
                 exists sent :: Sends(w.sent, sent, thread, Single(s.raw.(end := now)), s.token) &&
                   w'.sent == sent + if s.collectId.Some?
                                     then [SentControl(thread, CommitCollect(s.collectId.value))] else []
            case DropLocalParent(thread, now) =>
              var line := Last(Stack(w, thread));
              && Stack(w', thread) == Init(Stack(w, thread))
              && Sends(w.sent, w'.sent, thread, Local(LocalSpans(line.queue.spans, now)), line.token)
            case AddToSpan(thread, id, span, kind, name, properties) =>
              Sends(w.sent, w'.sent, thread, Single(RawSpan(id, 0, w.clock, name, properties, kind, 0)),
                    w'.made[id].token)
            case NewRoot(thread, _, context, _) =>
              w'.sent == w.sent + if context.sampled then [SentControl(thread, StartCollect(w.nextCollectId))] else []
            case Cancel(thread, span) =>
              var collectId := w.live[span].collectId;
              w'.sent == w.sent + if collectId.Some? then [SentControl(thread, DropCollect(collectId.value))] else []
            case _ => w'.sent == w.sent
  {
    hide Inv, AfterOp, Issue, IssueAll, Lineage.CurrentToken, Submit, Sends;
    match step
    case DropSpan(thread, span, now) =>
      var s, dropped := w.live[span], w.(live := w.live - {span});
      SubmitSends(dropped, thread, Single(s.raw.(end := now)), s.token);
    case DropLocalParent(thread, now) =>
      var line := Last(Stack(w, thread));
      var popped := w.(stacks := w.stacks[thread := Init(Stack(w, thread))]);
      SubmitSends(popped, thread, Local(LocalSpans(line.queue.spans, now)), line.token);
    case AddToSpan(thread, id, span, kind, name, properties) =>
      var raw := BeginWith(id, NO_ID, w.clock, name, kind).(properties := properties);
      SubmitSends(Noted(w, id, Issue(w.live[span]), raw), thread, Single(raw), Issue(w.live[span]));
    case _ =>
  }

  lemma {:induction false} SubmitSends(w: World, thread: nat, spans: SpanSet, token: TracedToken)
    ensures var w' := Submit(w, thread, spans, token);
            && Sends(w.sent, w'.sent, thread, spans, token)
            && (w'.live, w'.stacks, w'.made) == (w.live, w.stacks, w.made)
  {
    hide HasSampled, SampledOf, Sampled;
    var at := SampledExactly(token);
  }
}

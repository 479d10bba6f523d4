/** The token protocol of fastrace/src/span.rs as a step system: roots, spans below one or several parents, local
    parents with their lines of local spans, and the commands that all of these send. In every run each token item
    stays tied to the root it stems from, and every span hangs below one that was created before it in the same
    trace. */
module Lineage {
  import opened Records
  import opened SpanQueues
  import opened GlobalCollectors
  import opened CollectorRuns

  // `NOT_SAMPLED_COLLECT_ID`: usize::MAX
  const NOT_SAMPLED_COLLECT_ID: CollectId := 0xFFFF_FFFF_FFFF_FFFF

  /** A root with the context it was made from. */
  datatype Root = Root(context: SpanContext, collectId: CollectId, spanId: SpanId)

  /** A token whose items carry the index of the root they stem from. */
  datatype TracedItem = TracedItem(item: TokenItem, root: nat)

  type TracedToken = seq<TracedItem>

  /** A span that has not been dropped. `collectId` is set for roots only. */
  datatype Span = Span(raw: RawSpan, token: TracedToken, collectId: Option<CollectId>)

  /** A line of local spans below a local parent, with the token of that parent. */
  datatype Line = Line(token: TracedToken, queue: QueueState)

  /** A command with the thread whose channel carries it. */
  datatype Sent =
    | SentControl(thread: nat, command: Command)
    | SentSpans(thread: nat, spans: SpanSet, token: TracedToken)

  /** A span, event or properties entry as it was when it was made, with its token at that time. */
  datatype Made = Made(token: TracedToken, raw: RawSpan)

  /** `born` numbers the spans in the order of their creation, `under` relates roots to the spans of their trace, and
      `made` remembers everything that was ever recorded. */
  datatype World = World(roots: seq<Root>, live: map<SpanId, Span>, stacks: map<nat, seq<Line>>, sent: seq<Sent>,
                         born: map<SpanId, nat>, under: set<(nat, SpanId)>, clock: nat, nextCollectId: CollectId,
                         made: map<SpanId, Made>)

  datatype Step =
    | NewRoot(thread: nat, id: SpanId, context: SpanContext, name: string)
    | EnterWithParents(thread: nat, id: SpanId, parents: seq<SpanId>, name: string)
    | EnterWithLocalParent(thread: nat, id: SpanId, name: string)
    | SetLocalParent(thread: nat, span: SpanId)
    | DropLocalParent(thread: nat, now: Instant)
    | LocalCall(thread: nat, op: Op)
    | AddToSpan(thread: nat, id: SpanId, span: SpanId, kind: RawKind, name: string, properties: Option<Properties>)
    | Cancel(thread: nat, span: SpanId)
    | DropSpan(thread: nat, span: SpanId, now: Instant)

  function Tokens(token: TracedToken): CollectToken {
    seq(|token|, i requires 0 <= i < |token| => token[i].item)
  }

  function RootsOf(token: TracedToken): set<nat> {
    set t <- token :: t.root
  }

  /** `issue_collect_token`: the token of a span's children. */
  function Issue(span: Span): TracedToken {
    seq(|span.token|, i requires 0 <= i < |span.token| =>
      TracedItem(span.token[i].item.(parentId := span.raw.id, isRoot := false), span.token[i].root))
  }

  function IssueAll(live: map<SpanId, Span>, parents: seq<SpanId>): TracedToken {
    if parents == [] then []
    else IssueAll(live, Init(parents)) + (if Last(parents) in live then Issue(live[Last(parents)]) else [])
  }

  /** `current_collect_token` of a line. */
  function CurrentToken(line: Line): TracedToken {
    seq(|line.token|, i requires 0 <= i < |line.token| =>
      var t := line.token[i];
      var parentId := if line.queue.nextParent.Some? then line.queue.nextParent.value else t.item.parentId;
      t.(item := t.item.(parentId := parentId)))
  }

  function Sampled(token: TracedToken): TracedToken {
    if token == [] then []
    else Sampled(Init(token)) + (if Last(token).item.isSampled then [Last(token)] else [])
  }

  /** `submit_spans`: keeps the sampled items and sends nothing when there are none. */
  function Submit(w: World, thread: nat, spans: SpanSet, token: TracedToken): World {
    if Sampled(token) == [] then w else w.(sent := w.sent + [SentSpans(thread, spans, Sampled(token))])
  }

  function Control(w: World, thread: nat, command: Command): World {
    w.(sent := w.sent + [SentControl(thread, command)])
  }

  /** A fresh id becomes a span of all traces its token belongs to. */
  function Created(w: World, id: SpanId, token: TracedToken): World {
    w.(born := w.born[id := w.clock], clock := w.clock + 1, under := w.under + set r <- RootsOf(token) :: (r, id))
  }

  function Noted(w: World, id: SpanId, token: TracedToken, raw: RawSpan): World {
    w.(made := w.made[id := Made(token, raw)])
  }

  function WithSpan(w: World, id: SpanId, name: string, token: TracedToken, collectId: Option<CollectId>): World {
    var raw := BeginWith(id, NO_ID, w.clock, name, SpanKind);
    Noted(Created(w, id, token), id, token, raw).(live := w.live[id := Span(raw, token, collectId)])
  }

  ghost predicate Fresh(w: World, id: SpanId) {
    id != NO_ID && id !in w.born && id !in w.made
  }

  function Stack(w: World, thread: nat): seq<Line> {
    if thread in w.stacks then w.stacks[thread] else []
  }

  /** The id that a step gives to what it creates. */
  function NewId(step: Step): Option<SpanId> {
    match step
    case NewRoot(_, id, _, _) => Some(id)
    case EnterWithParents(_, id, _, _) => Some(id)
    case EnterWithLocalParent(_, id, _) => Some(id)
    case AddToSpan(_, id, _, _, _, _) => Some(id)
    case LocalCall(_, op) => if op.Finish? || op.WithProperties? then None else Some(op.id)
    case _ => None
  }

  /** The handles that a step uses exist; a local handle is one that a span was given. */
  ghost predicate Permitted(w: World, step: Step) {
    match step
    case EnterWithLocalParent(thread, _, _) => Stack(w, thread) != []
    case SetLocalParent(_, span) => span in w.live
    case DropLocalParent(thread, _) => Stack(w, thread) != []
    case LocalCall(thread, op) =>
      && Stack(w, thread) != []
      && (exists t <- Last(Stack(w, thread)).token :: t.item.isSampled)
      && (op.Finish? || op.WithProperties? ==>
            var spans := Last(Stack(w, thread)).queue.spans; op.handle < |spans| && spans[op.handle].kind.SpanKind?)
    case AddToSpan(_, _, span, kind, _, _) => span in w.live && !kind.SpanKind?
    case Cancel(_, span) => span in w.live
    case DropSpan(_, span, _) => span in w.live
    case _ => true
  }

  ghost predicate Enabled(w: World, step: Step) {
    Permitted(w, step) && (NewId(step).Some? ==> Fresh(w, NewId(step).value))
  }

  ghost function Next(w: World, step: Step, capacity: nat): World
    requires Permitted(w, step)
  {
    match step
    case NewRoot(thread, id, context, name) =>
      var collectId := if context.sampled then w.nextCollectId else NOT_SAMPLED_COLLECT_ID;
      var started := if context.sampled
                     then Control(w, thread, StartCollect(collectId)).(nextCollectId := w.nextCollectId + 1) else w;
      var item := TokenItem(context.traceId, context.spanId, collectId, true, context.sampled);
      var rooted := started.(roots := w.roots + [Root(context, collectId, id)]);
      WithSpan(rooted, id, name, [TracedItem(item, |w.roots|)], Some(collectId))
    case EnterWithParents(_, id, parents, name) => WithSpan(w, id, name, IssueAll(w.live, parents), None)
    case EnterWithLocalParent(thread, id, name) => WithSpan(w, id, name, CurrentToken(Last(Stack(w, thread))), None)
    case SetLocalParent(thread, span) =>
      w.(stacks := w.stacks[thread := Stack(w, thread) + [Line(Issue(w.live[span]), QueueState([], None))]])
    case DropLocalParent(thread, now) =>
      var line := Last(Stack(w, thread));
      var popped := w.(stacks := w.stacks[thread := Init(Stack(w, thread))]);
      Submit(popped, thread, Local(LocalSpans(line.queue.spans, now)), line.token)
    case LocalCall(thread, op) =>
      var line := Last(Stack(w, thread));
      var queue := AfterOp(line.queue, capacity, op);
      var called := w.(stacks := w.stacks[thread := Init(Stack(w, thread)) + [line.(queue := queue)]]);
      if op.Finish? || op.WithProperties? || |line.queue.spans| >= capacity then called
      else
        var noted := Noted(called, op.id, line.token, Last(queue.spans));
        if op.Start? then Created(noted, op.id, line.token) else noted
    case AddToSpan(thread, id, span, kind, name, properties) =>
      var raw := BeginWith(id, NO_ID, w.clock, name, kind).(properties := properties);
      Submit(Noted(w, id, Issue(w.live[span]), raw), thread, Single(raw), Issue(w.live[span]))
    case Cancel(thread, span) =>
      if w.live[span].collectId.Some? then Control(w, thread, DropCollect(w.live[span].collectId.value)) else w
    case DropSpan(thread, span, now) =>
      var s := w.live[span];
      var submitted := Submit(w.(live := w.live - {span}), thread, Single(s.raw.(end := now)), s.token);
      if s.collectId.Some? then Control(submitted, thread, CommitCollect(s.collectId.value)) else submitted
  }

  // The invariant

  /** An item agrees with its root in trace id, collect id and sampling. */
  ghost predicate KeepsRoot(w: World, t: TracedItem) {
    && t.root < |w.roots|
    && var root := w.roots[t.root];
       && t.item.traceId == root.context.traceId && t.item.collectId == root.collectId
       && t.item.isSampled == root.context.sampled
  }

  /** The parent that an item names was created before moment `at` in the trace of its root. */
  ghost predicate ParentBefore(w: World, t: TracedItem, at: nat) {
    KeepsRoot(w, t) && t.item.parentId in w.born && w.born[t.item.parentId] < at && (t.root, t.item.parentId) in w.under
  }

  /** The token of span `id`: the remote parent for the root itself, an earlier span otherwise. */
  ghost predicate ItemFor(w: World, t: TracedItem, id: SpanId)
    requires id in w.born
  {
    || ParentBefore(w, t, w.born[id])
    || (KeepsRoot(w, t) && w.roots[t.root].spanId == id && t.item.parentId == w.roots[t.root].context.spanId)
  }

  /** `id` belongs to every trace of the token. */
  ghost predicate BelongsTo(w: World, id: SpanId, token: TracedToken) {
    id in w.born && forall t <- token :: (t.root, id) in w.under
  }

  ghost predicate SpanGood(w: World, id: SpanId, span: Span) {
    && span.raw.id == id && span.raw.parentId == NO_ID && span.raw.kind == SpanKind && id in w.born
    && BelongsTo(w, id, span.token)
    && forall t <- span.token :: ItemFor(w, t, id)
  }

  /** An entry of a queue is a root of the line or hangs below an earlier span of the same traces; a span entry is newer
      than the parents of the line's token. */
  ghost predicate EntryGood(w: World, token: TracedToken, s: RawSpan) {
    && (s.parentId != NO_ID ==> BelongsTo(w, s.parentId, token))
    && (s.kind.SpanKind? ==>
          && BelongsTo(w, s.id, token)
          && (s.parentId != NO_ID ==> w.born[s.parentId] < w.born[s.id])
          && forall t <- token :: ParentBefore(w, t, w.born[s.id]))
  }

  ghost predicate QueueGood(w: World, token: TracedToken, q: QueueState) {
    && (forall i :: 0 <= i < |q.spans| ==> EntryGood(w, token, q.spans[i]))
    && (q.nextParent.Some? ==> q.nextParent.value != NO_ID && BelongsTo(w, q.nextParent.value, token))
  }

  ghost predicate LineGood(w: World, line: Line) {
    (forall t <- line.token :: ParentBefore(w, t, w.clock)) && QueueGood(w, line.token, line.queue)
  }

  ghost predicate SetGood(w: World, spans: SpanSet, token: TracedToken) {
    match spans
    case Single(raw) =>
      raw.kind.SpanKind? ==>
        raw.parentId == NO_ID && BelongsTo(w, raw.id, token) && forall t <- token :: ItemFor(w, t, raw.id)
    case Local(local) => forall i :: 0 <= i < |local.spans| ==> EntryGood(w, token, local.spans[i])
    case SharedLocal(local) => false
  }

  ghost predicate SentGood(w: World, sent: Sent) {
    && (sent.SentControl? ==> !sent.command.SubmitSpans?)
    && (sent.SentSpans? ==>
          && sent.token != [] && (forall t <- sent.token :: KeepsRoot(w, t) && t.item.isSampled)
          && SetGood(w, sent.spans, sent.token))
  }

  ghost predicate Inv(w: World) {
    && (forall id <- w.born :: w.born[id] < w.clock)
    && (forall id <- w.live :: SpanGood(w, id, w.live[id]))
    && (forall thread <- w.stacks :: forall i :: 0 <= i < |w.stacks[thread]| ==> LineGood(w, w.stacks[thread][i]))
    && (forall i :: 0 <= i < |w.sent| ==> SentGood(w, w.sent[i]))
  }

  /** Nothing recorded about roots, births and traces is ever revised. */
  ghost predicate Extends(w: World, w': World) {
    && w.roots <= w'.roots && w.clock <= w'.clock && w.under <= w'.under
    && forall id <- w.born :: id in w'.born && w'.born[id] == w.born[id]
  }

  lemma {:induction false} ItemExtends(w: World, w': World, t: TracedItem, at: nat)
    requires Extends(w, w')
    ensures KeepsRoot(w, t) ==> KeepsRoot(w', t)
    ensures ParentBefore(w, t, at) ==> ParentBefore(w', t, at)
  {
  }

  lemma {:induction false} TokenExtends(w: World, w': World, token: TracedToken, id: SpanId)
    requires Extends(w, w')
    ensures BelongsTo(w, id, token) ==> BelongsTo(w', id, token)
    ensures (forall t <- token :: KeepsRoot(w, t)) ==> forall t <- token :: KeepsRoot(w', t)
    ensures (forall t <- token :: ParentBefore(w, t, w.clock)) ==> forall t <- token :: ParentBefore(w', t, w'.clock)
    ensures id in w.born && (forall t <- token :: ParentBefore(w, t, w.born[id])) ==>
              forall t <- token :: ParentBefore(w', t, w'.born[id])
    ensures id in w.born && (forall t <- token :: ItemFor(w, t, id)) ==> forall t <- token :: ItemFor(w', t, id)
  {
    forall t <- token, at: nat ensures ParentBefore(w, t, at) ==> ParentBefore(w', t, at) {
      ItemExtends(w, w', t, at);
    }
    forall t <- token ensures KeepsRoot(w, t) ==> KeepsRoot(w', t) {
      ItemExtends(w, w', t, 0);
    }
    forall t <- token ensures ParentBefore(w, t, w.clock) ==> ParentBefore(w', t, w'.clock) {
      ItemExtends(w, w', t, w.clock);
    }
  }

  lemma {:induction false} SpanExtends(w: World, w': World, id: SpanId, span: Span)
    requires Extends(w, w') && SpanGood(w, id, span)
    ensures SpanGood(w', id, span)
  {
    hide ItemFor, BelongsTo, ParentBefore, KeepsRoot;
    TokenExtends(w, w', span.token, id);
  }

  lemma {:induction false} EntryExtends(w: World, w': World, token: TracedToken, s: RawSpan)
    requires Extends(w, w') && EntryGood(w, token, s)
    ensures EntryGood(w', token, s)
  {
    hide ParentBefore, KeepsRoot;
    TokenExtends(w, w', token, s.id);
    TokenExtends(w, w', token, s.parentId);
  }

  lemma {:induction false} LineExtends(w: World, w': World, line: Line)
    requires Extends(w, w') && LineGood(w, line)
    ensures LineGood(w', line)
  {
    hide ParentBefore, KeepsRoot, EntryGood, BelongsTo;
    TokenExtends(w, w', line.token, NO_ID);
    if line.queue.nextParent.Some? {
      TokenExtends(w, w', line.token, line.queue.nextParent.value);
    }
    forall i | 0 <= i < |line.queue.spans| ensures EntryGood(w', line.token, line.queue.spans[i]) {
      EntryExtends(w, w', line.token, line.queue.spans[i]);
    }
  }

  lemma {:induction false} SentExtends(w: World, w': World, sent: Sent)
    requires Extends(w, w') && SentGood(w, sent)
    ensures SentGood(w', sent)
  {
    hide ParentBefore, KeepsRoot, EntryGood, BelongsTo, ItemFor;
    if sent.SentSpans? {
      match sent.spans
      case Single(raw) =>
        TokenExtends(w, w', sent.token, raw.id);
        if raw.kind.SpanKind? {
          BelongsBorn(w, raw.id, sent.token);
        }
      case Local(local) =>
        TokenExtends(w, w', sent.token, NO_ID);
        forall i | 0 <= i < |local.spans| ensures EntryGood(w', sent.token, local.spans[i]) {
          EntryExtends(w, w', sent.token, local.spans[i]);
        }
      case SharedLocal(_) =>
    }
  }

  lemma {:induction false} BelongsBorn(w: World, id: SpanId, token: TracedToken)
    requires BelongsTo(w, id, token)
    ensures id in w.born
  {
  }

  /** What held of spans, lines and sent messages still holds after the world has grown. */
  lemma {:induction false} InvExtends(w: World, w': World)
    requires Inv(w) && Extends(w, w') && (forall id <- w'.born :: w'.born[id] < w'.clock)
    requires w'.live == w.live && w'.stacks == w.stacks && w'.sent == w.sent
    ensures Inv(w')
  {
    hide SpanGood, LineGood, SentGood, Extends;
    forall id <- w'.live ensures SpanGood(w', id, w'.live[id]) {
      SpanExtends(w, w', id, w.live[id]);
    }
    forall thread <- w'.stacks, i: nat | i < |w'.stacks[thread]| ensures LineGood(w', w'.stacks[thread][i]) {
      LineExtends(w, w', w.stacks[thread][i]);
    }
    forall i | 0 <= i < |w'.sent| ensures SentGood(w', w'.sent[i]) {
      SentExtends(w, w', w.sent[i]);
    }
  }

  lemma {:induction false} CreatedKeeps(w: World, id: SpanId, token: TracedToken)
    requires Inv(w) && Fresh(w, id)
    ensures Inv(Created(w, id, token)) && Extends(w, Created(w, id, token))
    ensures BelongsTo(Created(w, id, token), id, token) && Created(w, id, token).born[id] == w.clock
  {
    hide SpanGood, LineGood, SentGood;
    InvExtends(w, Created(w, id, token));
  }

  /** Remembering what was made is no part of the invariant. */
  lemma {:induction false} NotedKeeps(w: World, id: SpanId, token: TracedToken, raw: RawSpan)
    requires Inv(w)
    ensures Inv(Noted(w, id, token, raw))
  {
    hide SpanGood, LineGood, SentGood;
    InvExtends(w, Noted(w, id, token, raw));
  }

  lemma {:induction false} ControlKeeps(w: World, thread: nat, command: Command)
    requires Inv(w) && !command.SubmitSpans?
    ensures Inv(Control(w, thread, command))
  {
    hide SpanGood, LineGood, SentGood;
    var w' := Control(w, thread, command);
    InvExtends(w, w'.(sent := w.sent));
    SameWorld(w, w');
    forall i | 0 <= i < |w'.sent| ensures SentGood(w', w'.sent[i]) {
      if i < |w.sent| {
        SentExtends(w, w', w.sent[i]);
      } else {
        ControlGood(w', thread, command);
      }
    }
  }

  lemma {:induction false} ControlGood(w: World, thread: nat, command: Command)
    requires !command.SubmitSpans?
    ensures SentGood(w, SentControl(thread, command))
  {
  }

  /** The invariant's parts depend only on roots, births and traces. */
  lemma {:induction false} SameWorld(w: World, w': World)
    requires Inv(w) && w'.roots == w.roots && w'.born == w.born && w'.under == w.under && w'.clock == w.clock
    ensures Extends(w, w')
    ensures forall id <- w.live :: SpanGood(w', id, w.live[id])
    ensures forall thread <- w.stacks :: forall i :: 0 <= i < |w.stacks[thread]| ==> LineGood(w', w.stacks[thread][i])
    ensures forall i :: 0 <= i < |w.sent| ==> SentGood(w', w.sent[i])
  {
    hide SpanGood, LineGood, SentGood;
    InvExtends(w, w'.(live := w.live, stacks := w.stacks, sent := w.sent));
    var same := w'.(live := w.live, stacks := w.stacks, sent := w.sent);
    forall id <- w.live ensures SpanGood(w', id, w.live[id]) {
      SpanExtends(same, w', id, w.live[id]);
    }
    forall thread <- w.stacks, i: nat | i < |w.stacks[thread]| ensures LineGood(w', w.stacks[thread][i]) {
      LineExtends(same, w', w.stacks[thread][i]);
    }
    forall i | 0 <= i < |w.sent| ensures SentGood(w', w.sent[i]) {
      SentExtends(same, w', w.sent[i]);
    }
  }

  lemma {:induction false} SampledShape(token: TracedToken)
    ensures forall t <- Sampled(token) :: t in token && t.item.isSampled
    ensures forall t <- token :: t.item.isSampled ==> t in Sampled(token)
  {
    if token != [] {
      SampledShape(Init(token));
      assert token == Init(token) + [Last(token)];
    }
  }

  lemma {:induction false} EntryNarrows(w: World, token: TracedToken, narrow: TracedToken, s: RawSpan)
    requires EntryGood(w, token, s) && forall t <- narrow :: t in token
    ensures EntryGood(w, narrow, s)
  {
    hide ParentBefore;
  }

  lemma {:induction false} SetNarrows(w: World, spans: SpanSet, token: TracedToken, narrow: TracedToken)
    requires SetGood(w, spans, token) && forall t <- narrow :: t in token
    ensures SetGood(w, spans, narrow)
  {
    hide EntryGood, ItemFor;
    if spans.Local? {
      forall i | 0 <= i < |spans.local.spans| ensures EntryGood(w, narrow, spans.local.spans[i]) {
        EntryNarrows(w, token, narrow, spans.local.spans[i]);
      }
    }
  }

  lemma {:induction false} SubmitKeeps(w: World, thread: nat, spans: SpanSet, token: TracedToken)
    requires Inv(w) && SetGood(w, spans, token) && forall t <- token :: KeepsRoot(w, t)
    ensures Inv(Submit(w, thread, spans, token))
    ensures Submit(w, thread, spans, token) == w <==> forall t <- token :: !t.item.isSampled
  {
    hide SpanGood, LineGood, SentGood, SetGood;
    var w', sent := Submit(w, thread, spans, token), SentSpans(thread, spans, Sampled(token));
    SampledShape(token);
    if Sampled(token) != [] {
      assert Sampled(token)[0] in token && |w'.sent| == |w.sent| + 1;
      SetNarrows(w, spans, token, Sampled(token));
      SpansSentGood(w, thread, spans, Sampled(token));
      SameWorld(w, w');
      SentExtends(w, w', sent);
    }
  }

  lemma {:induction false} SpansSentGood(w: World, thread: nat, spans: SpanSet, token: TracedToken)
    requires SetGood(w, spans, token) && token != [] && forall t <- token :: KeepsRoot(w, t) && t.item.isSampled
    ensures SentGood(w, SentSpans(thread, spans, token))
  {
  }

  /** A new span whose token names earlier spans of its traces, or that is itself the root of its only item. */
  lemma {:induction false} WithSpanKeeps(w: World, id: SpanId, name: string, token: TracedToken,
                                         collectId: Option<CollectId>)
    requires Inv(w) && Fresh(w, id)
    requires forall t <- token ::
               || ParentBefore(w, t, w.clock)
               || (KeepsRoot(w, t) && w.roots[t.root].spanId == id && t.item.parentId == w.roots[t.root].context.spanId)
    ensures Inv(WithSpan(w, id, name, token, collectId))
  {
    hide LineGood, SentGood;
    var created, w' := Created(w, id, token), WithSpan(w, id, name, token, collectId);
    CreatedKeeps(w, id, token);
    SameWorld(created, w');
    forall t <- token ensures ItemFor(w', t, id) {
      ItemExtends(w, w', t, w.clock);
    }
    assert SpanGood(w', id, w'.live[id]);
  }

  lemma {:induction false} IssueGood(w: World, id: SpanId)
    requires Inv(w) && id in w.live
    ensures forall t <- Issue(w.live[id]) :: ParentBefore(w, t, w.clock)
  {
    var span := w.live[id];
    assert SpanGood(w, id, span);
    forall i | 0 <= i < |span.token| ensures ParentBefore(w, Issue(span)[i], w.clock) {
      assert ItemFor(w, span.token[i], id);
    }
  }

  lemma {:induction false} IssueAllGood(w: World, parents: seq<SpanId>)
    requires Inv(w)
    ensures forall t <- IssueAll(w.live, parents) :: ParentBefore(w, t, w.clock)
  {
    hide Inv, ParentBefore, Issue;
    if parents != [] {
      IssueAllGood(w, Init(parents));
      if Last(parents) in w.live {
        IssueGood(w, Last(parents));
      }
    }
  }

  lemma {:induction false} TopLineGood(w: World, thread: nat)
    requires Inv(w) && Stack(w, thread) != []
    ensures LineGood(w, Last(Stack(w, thread)))
  {
  }

  lemma {:induction false} CurrentTokenGood(w: World, line: Line)
    requires Inv(w) && LineGood(w, line)
    ensures forall t <- CurrentToken(line) :: ParentBefore(w, t, w.clock)
  {
    forall i | 0 <= i < |line.token| ensures ParentBefore(w, CurrentToken(line)[i], w.clock) {
      assert ParentBefore(w, line.token[i], w.clock);
    }
  }

  lemma {:induction false} SetStackKeeps(w: World, thread: nat, lines: seq<Line>)
    requires Inv(w) && forall i :: 0 <= i < |lines| ==> LineGood(w, lines[i])
    ensures Inv(w.(stacks := w.stacks[thread := lines]))
  {
    hide LineGood, SentGood, SpanGood;
    var w' := w.(stacks := w.stacks[thread := lines]);
    SameWorld(w, w');
    forall i | 0 <= i < |lines| ensures LineGood(w', lines[i]) {
      LineExtends(w, w', lines[i]);
    }
  }

  lemma {:induction false} StackGood(w: World, thread: nat)
    requires Inv(w)
    ensures forall i :: 0 <= i < |Stack(w, thread)| ==> LineGood(w, Stack(w, thread)[i])
  {
  }

  /** A call on a queue keeps its entries below earlier spans; a start is told that its id has just been created. */
  lemma {:induction false} QueueKeeps(w: World, w': World, line: Line, capacity: nat, op: Op)
    requires Inv(w) && LineGood(w, line)
    requires op.Finish? || op.WithProperties? ==> op.handle < |line.queue.spans|
    requires !(op.Finish? || op.WithProperties?) ==> Fresh(w, op.id)
    requires w' == if op.Start? && |line.queue.spans| < capacity then Created(w, op.id, line.token) else w
    ensures LineGood(w', line.(queue := AfterOp(line.queue, capacity, op)))
  {
    hide Inv;
    if op.Start? && |line.queue.spans| < capacity {
      StartKeeps(w, w', line, capacity, op);
    } else {
      OtherCallKeeps(w, line, capacity, op);
    }
  }

  lemma {:induction false} StartKeeps(w: World, w': World, line: Line, capacity: nat, op: Op)
    requires Inv(w) && LineGood(w, line) && op.Start? && Fresh(w, op.id) && |line.queue.spans| < capacity
    requires w' == Created(w, op.id, line.token)
    ensures LineGood(w', line.(queue := AfterOp(line.queue, capacity, op)))
  {
    CreatedKeeps(w, op.id, line.token);
    LineExtends(w, w', line);
    var raw := BeginWith(op.id, line.queue.ParentId(), op.now, op.name, SpanKind);
    forall t <- line.token ensures ParentBefore(w', t, w'.born[op.id]) {
      assert ParentBefore(w, t, w.clock);
      ItemExtends(w, w', t, w.clock);
    }
    assert EntryGood(w', line.token, raw);
  }

  lemma {:induction false} OtherCallKeeps(w: World, line: Line, capacity: nat, op: Op)
    requires LineGood(w, line)
    requires op.Finish? || op.WithProperties? ==> op.handle < |line.queue.spans|
    requires op.Start? ==> |line.queue.spans| >= capacity
    ensures LineGood(w, line.(queue := AfterOp(line.queue, capacity, op)))
  {
    hide BelongsTo, ParentBefore;
    var queue := AfterOp(line.queue, capacity, op);
    forall i | 0 <= i < |queue.spans| ensures EntryGood(w, line.token, queue.spans[i]) {
      if i < |line.queue.spans| {
        assert EntryGood(w, line.token, line.queue.spans[i]);
      }
    }
    if op.Finish? {
      assert EntryGood(w, line.token, line.queue.spans[op.handle]);
    }
  }

  lemma {:induction false} LocalCallKeeps(w: World, thread: nat, op: Op, capacity: nat)
    requires Inv(w) && Enabled(w, LocalCall(thread, op))
    ensures Inv(Next(w, LocalCall(thread, op), capacity))
  {
    hide LineGood, SpanGood, SentGood, BelongsTo;
    var line := Last(Stack(w, thread));
    var w' := if op.Start? && |line.queue.spans| < capacity then Created(w, op.id, line.token) else w;
    var lines := Init(Stack(w, thread)) + [line.(queue := AfterOp(line.queue, capacity, op))];
    StackGood(w, thread);
    QueueKeeps(w, w', line, capacity, op);
    if op.Start? && |line.queue.spans| < capacity {
      CreatedKeeps(w, op.id, line.token);
    }
    StackGood(w', thread);
    assert Stack(w', thread) == Stack(w, thread);
    SetStackKeeps(w', thread, lines);
    var called := w'.(stacks := w'.stacks[thread := lines]);
    if op.Finish? || op.WithProperties? || |line.queue.spans| >= capacity {
      assert Next(w, LocalCall(thread, op), capacity) == called;
    } else {
      var raw := Last(AfterOp(line.queue, capacity, op).spans);
      NotedKeeps(called, op.id, line.token, raw);
      assert Next(w, LocalCall(thread, op), capacity) == Noted(called, op.id, line.token, raw);
    }
  }

  lemma {:induction false} NewRootKeeps(w: World, thread: nat, id: SpanId, context: SpanContext, name: string,
                                        capacity: nat)
    requires Inv(w) && Fresh(w, id)
    ensures Inv(Next(w, NewRoot(thread, id, context, name), capacity))
  {
    hide LineGood, SpanGood, SentGood;
    var collectId := if context.sampled then w.nextCollectId else NOT_SAMPLED_COLLECT_ID;
    ControlKeeps(w, thread, StartCollect(collectId));
    var started := if context.sampled
                   then Control(w, thread, StartCollect(collectId)).(nextCollectId := w.nextCollectId + 1) else w;
    InvExtends(if context.sampled then Control(w, thread, StartCollect(collectId)) else w, started);
    var item := TokenItem(context.traceId, context.spanId, collectId, true, context.sampled);
    var rooted := started.(roots := w.roots + [Root(context, collectId, id)]);
    InvExtends(started, rooted);
    var traced := TracedItem(item, |w.roots|);
    assert KeepsRoot(rooted, traced);
    WithSpanKeeps(rooted, id, name, [traced], Some(collectId));
  }

  lemma {:induction false} DropLocalParentKeeps(w: World, thread: nat, now: Instant, capacity: nat)
    requires Inv(w) && Enabled(w, DropLocalParent(thread, now))
    ensures Inv(Next(w, DropLocalParent(thread, now), capacity))
  {
    hide SpanGood, SentGood, LineGood;
    var line := Last(Stack(w, thread));
    var popped := w.(stacks := w.stacks[thread := Init(Stack(w, thread))]);
    StackGood(w, thread);
    SetStackKeeps(w, thread, Init(Stack(w, thread)));
    SameWorld(w, popped);
    LineExtends(w, popped, line);
    LineSendable(popped, line, now);
    SubmitKeeps(popped, thread, Local(LocalSpans(line.queue.spans, now)), line.token);
  }

  lemma {:induction false} LineSendable(w: World, line: Line, now: Instant)
    requires LineGood(w, line)
    ensures SetGood(w, Local(LocalSpans(line.queue.spans, now)), line.token)
    ensures forall t <- line.token :: KeepsRoot(w, t)
  {
    hide EntryGood;
  }

  lemma {:induction false} DropSpanKeeps(w: World, thread: nat, span: SpanId, now: Instant, capacity: nat)
    requires Inv(w) && span in w.live
    ensures Inv(Next(w, DropSpan(thread, span, now), capacity))
  {
    hide LineGood, SentGood, SpanGood;
    var s, dropped := w.live[span], w.(live := w.live - {span});
    SameWorld(w, dropped);
    SpanExtends(w, dropped, span, s);
    SpanSendable(dropped, span, s, now);
    SubmitKeeps(dropped, thread, Single(s.raw.(end := now)), s.token);
    if s.collectId.Some? {
      ControlKeeps(Submit(dropped, thread, Single(s.raw.(end := now)), s.token), thread,
        CommitCollect(s.collectId.value));
    }
  }

  lemma {:induction false} SpanSendable(w: World, id: SpanId, s: Span, now: Instant)
    requires SpanGood(w, id, s)
    ensures SetGood(w, Single(s.raw.(end := now)), s.token) && forall t <- s.token :: KeepsRoot(w, t)
  {
    forall t <- s.token ensures KeepsRoot(w, t) {
      assert ItemFor(w, t, id);
    }
  }

  lemma {:induction false} NewLineGood(w: World, token: TracedToken)
    requires forall t <- token :: ParentBefore(w, t, w.clock)
    ensures LineGood(w, Line(token, QueueState([], None)))
  {
  }

  lemma {:induction false} ItemSendable(w: World, raw: RawSpan, token: TracedToken)
    requires !raw.kind.SpanKind? && forall t <- token :: ParentBefore(w, t, w.clock)
    ensures SetGood(w, Single(raw), token) && forall t <- token :: KeepsRoot(w, t)
  {
  }

  lemma {:induction false} StepKeeps(w: World, step: Step, capacity: nat)
    requires Inv(w) && Enabled(w, step)
    ensures Inv(Next(w, step, capacity))
  {
    hide Inv, LineGood, SentGood, SpanGood, SetGood, ParentBefore, KeepsRoot, Submit, Control, WithSpan;
    match step
    case NewRoot(thread, id, context, name) => NewRootKeeps(w, thread, id, context, name, capacity);
    case EnterWithParents(_, id, parents, name) =>
      IssueAllGood(w, parents);
      WithSpanKeeps(w, id, name, IssueAll(w.live, parents), None);
    case EnterWithLocalParent(thread, id, name) =>
      TopLineGood(w, thread);
      CurrentTokenGood(w, Last(Stack(w, thread)));
      WithSpanKeeps(w, id, name, CurrentToken(Last(Stack(w, thread))), None);
    case SetLocalParent(thread, span) =>
      IssueGood(w, span);
      NewLineGood(w, Issue(w.live[span]));
      StackGood(w, thread);
      SetStackKeeps(w, thread, Stack(w, thread) + [Line(Issue(w.live[span]), QueueState([], None))]);
    case DropLocalParent(thread, now) => DropLocalParentKeeps(w, thread, now, capacity);
    case LocalCall(thread, op) => LocalCallKeeps(w, thread, op, capacity);
    case AddToSpan(thread, id, span, kind, name, properties) =>
      var raw := BeginWith(id, NO_ID, w.clock, name, kind).(properties := properties);
      var noted := Noted(w, id, Issue(w.live[span]), raw);
      NotedKeeps(w, id, Issue(w.live[span]), raw);
      IssueGood(noted, span);
      ItemSendable(noted, raw, Issue(w.live[span]));
      SubmitKeeps(noted, thread, Single(raw), Issue(w.live[span]));
    case Cancel(thread, span) =>
      if w.live[span].collectId.Some? {
        ControlKeeps(w, thread, DropCollect(w.live[span].collectId.value));
      }
    case DropSpan(thread, span, now) => DropSpanKeeps(w, thread, span, now, capacity);
  }

  // Whole runs

  const EMPTY_WORLD := World([], map[], map[], [], map[], {}, 0, 0, map[])

  ghost predicate Reaches(capacity: nat, steps: seq<Step>, w: World)
    decreases |steps|
  {
    if steps == [] then w == EMPTY_WORLD
    else
      exists w0 ::
        Reaches(capacity, Init(steps), w0) && Enabled(w0, Last(steps)) && w == Next(w0, Last(steps), capacity)
  }

  lemma {:induction false} ReachableInv(capacity: nat, steps: seq<Step>, w: World)
    requires Reaches(capacity, steps, w)
    ensures Inv(w)
    decreases |steps|
  {
    hide Inv, Next, Permitted, Fresh;
    if steps == [] {
      EmptyInv();
    } else {
      var w0 :| Reaches(capacity, Init(steps), w0) && Enabled(w0, Last(steps)) && w == Next(w0, Last(steps), capacity);
      ReachableInv(capacity, Init(steps), w0);
      StepKeeps(w0, Last(steps), capacity);
    }
  }

  lemma {:induction false} EmptyInv()
    ensures Inv(EMPTY_WORLD)
  {
  }

  // Reported records

  /** A record of the trace of root `r`: the root's own, below its remote parent, or one below a span that was created
      earlier in the same trace. */
  ghost predicate KeyGood(w: World, r: nat, key: Key) {
    && r < |w.roots| && w.roots[r].context.sampled
    && key.traceId == w.roots[r].context.traceId
    && key.spanId in w.born && (r, key.spanId) in w.under
    && (|| (key.spanId == w.roots[r].spanId && key.parentId == w.roots[r].context.spanId)
        || (key.parentId in w.born && w.born[key.parentId] < w.born[key.spanId] && (r, key.parentId) in w.under))
  }

  lemma {:induction false} LocalKeysGood(w: World, token: TracedToken, t: TracedItem, spans: seq<RawSpan>)
    requires t in token && KeepsRoot(w, t) && t.item.isSampled
    requires forall i :: 0 <= i < |spans| ==> EntryGood(w, token, spans[i])
    ensures forall key <- LocalKeys(spans, t.item.traceId, t.item.parentId) :: KeyGood(w, t.root, key)
  {
    if spans != [] {
      LocalKeysGood(w, token, t, Init(spans));
      var s := Last(spans);
      assert EntryGood(w, token, s);
      if s.kind.SpanKind? {
        assert ParentBefore(w, t, w.born[s.id]);
        var parentId := if s.parentId == NO_ID then t.item.parentId else s.parentId;
        assert KeyGood(w, t.root, Key(t.item.traceId, s.id, parentId));
      }
    }
  }

  lemma {:induction false} SetKeysGood(w: World, sent: Sent, t: TracedItem)
    requires SentGood(w, sent) && sent.SentSpans? && t in sent.token
    ensures forall key <- SetKeys(sent.spans, t.item.traceId, t.item.parentId) :: KeyGood(w, t.root, key)
  {
    match sent.spans
    case Single(raw) =>
      if raw.kind.SpanKind? {
        assert ItemFor(w, t, raw.id);
        assert KeyGood(w, t.root, Key(t.item.traceId, raw.id, t.item.parentId));
      }
    case Local(local) => LocalKeysGood(w, sent.token, t, local.spans);
    case SharedLocal(_) => assert false;
  }

  function ToCommand(sent: Sent): Command {
    match sent
    case SentControl(_, command) => command
    case SentSpans(_, spans, token) => SubmitSpans(spans, Tokens(token))
  }

  /** A record is accounted for: some sampled root of that collect id has it in its trace. */
  ghost predicate Accounted(w: World, c: CollectId, key: Key) {
    exists r :: 0 <= r < |w.roots| && w.roots[r].collectId == c && KeyGood(w, r, key)
  }

  lemma {:induction false} LabelledItemsGood(w: World, sent: Sent, n: nat)
    requires SentGood(w, sent) && sent.SentSpans? && n <= |sent.token|
    ensures forall pair <- LabelledItems(sent.spans, Tokens(sent.token)[..n]) :: Accounted(w, pair.0, pair.1)
  {
    hide SentGood, SetKeys, KeyGood;
    if n > 0 {
      var items, t := Tokens(sent.token), sent.token[n - 1];
      LabelledItemsGood(w, sent, n - 1);
      assert Init(items[..n]) == items[..n - 1] && Last(items[..n]) == t.item;
      SetKeysGood(w, sent, t);
      ItemRoot(w, sent, t);
      var keys := SetKeys(sent.spans, t.item.traceId, t.item.parentId);
      forall pair <- Label(t.item.collectId, keys) ensures Accounted(w, pair.0, pair.1) {
        assert pair.1 in keys;
        assert KeyGood(w, t.root, pair.1);
      }
    }
  }

  lemma {:induction false} ItemRoot(w: World, sent: Sent, t: TracedItem)
    requires SentGood(w, sent) && sent.SentSpans? && t in sent.token
    ensures t.root < |w.roots| && w.roots[t.root].collectId == t.item.collectId
  {
  }

  function SentCommands(w: World): seq<Command> {
    seq(|w.sent|, i requires 0 <= i < |w.sent| => ToCommand(w.sent[i]))
  }

  ghost predicate SentBy(w: World, command: Command) {
    exists i :: 0 <= i < |w.sent| && ToCommand(w.sent[i]) == command
  }

  ghost predicate AllSentBy(w: World, commands: seq<Command>) {
    forall i :: 0 <= i < |commands| ==> SentBy(w, commands[i])
  }

  lemma {:induction false} SentAccounted(w: World, command: Command)
    requires Inv(w) && SentBy(w, command) && command.SubmitSpans?
    ensures forall pair <- LabelledItems(command.spans, command.token) :: Accounted(w, pair.0, pair.1)
  {
    hide LabelledItems, Accounted;
    var i :| 0 <= i < |w.sent| && ToCommand(w.sent[i]) == command;
    var sent := w.sent[i];
    assert SentGood(w, sent);
    LabelledItemsGood(w, sent, |sent.token|);
    assert Tokens(sent.token)[..|sent.token|] == Tokens(sent.token);
  }

  /** The spans of the commands that a run has sent are all accounted for. Nothing unsampled is among them. */
  lemma {:induction false} SubmitsAccounted(w: World, commands: seq<Command>)
    requires Inv(w) && AllSentBy(w, commands)
    ensures forall pair <- LabelledSubmits(commands) :: Accounted(w, pair.0, pair.1)
  {
    hide Inv, LabelledItems, Accounted, SentBy;
    if commands != [] {
      assert SentBy(w, commands[|commands| - 1]);
      SubmitsAccounted(w, Init(commands));
      if Last(commands).SubmitSpans? {
        SentAccounted(w, Last(commands));
      }
    }
  }

  ghost predicate BatchesSentBy(w: World, batches: seq<Batch>) {
    forall k :: 0 <= k < |batches| ==> AllSentBy(w, batches[k].commands)
  }

  lemma {:induction false} BatchesAccounted(w: World, batches: seq<Batch>)
    requires Inv(w) && BatchesSentBy(w, batches)
    ensures forall pair <- Submitted(batches) :: Accounted(w, pair.0, pair.1)
  {
    hide Inv, LabelledSubmits, Accounted, AllSentBy;
    if batches != [] {
      assert AllSentBy(w, batches[|batches| - 1].commands);
      BatchesAccounted(w, Init(batches));
      SubmitsAccounted(w, Last(batches).commands);
    }
  }

  lemma {:induction false} SameMembers<T>(a: seq<T>, b: seq<T>)
    requires multiset(a) == multiset(b)
    ensures forall x <- a :: x in b
  {
    forall x <- a ensures x in b {
      assert x in multiset(a);
    }
  }

  /** Each sent command is drained at most once, which is what the channels provide. Some may be lost. */
  ghost predicate DrainedFrom(w: World, batches: seq<Batch>) {
    multiset(Concat(batches)) <= multiset(SentCommands(w))
  }

  lemma {:induction false} BatchInConcat(batches: seq<Batch>, k: nat)
    requires k < |batches|
    ensures multiset(batches[k].commands) <= multiset(Concat(batches))
  {
    if k < |batches| - 1 {
      BatchInConcat(Init(batches), k);
    }
  }

  lemma {:induction false} TwoInConcat(batches: seq<Batch>, j: nat, k: nat)
    requires j < k < |batches|
    ensures multiset(batches[j].commands) + multiset(batches[k].commands) <= multiset(Concat(batches))
  {
    if k < |batches| - 1 {
      TwoInConcat(Init(batches), j, k);
    } else {
      BatchInConcat(Init(batches), j);
    }
  }

  lemma {:induction false} DrainedIsSent(w: World, batches: seq<Batch>)
    requires DrainedFrom(w, batches)
    ensures BatchesSentBy(w, batches)
  {
    hide Concat;
    forall k, i | 0 <= k < |batches| && 0 <= i < |batches[k].commands| ensures SentBy(w, batches[k].commands[i]) {
      BatchInConcat(batches, k);
      assert batches[k].commands[i] in multiset(batches[k].commands);
      assert batches[k].commands[i] in SentCommands(w);
    }
  }

  /** From the threads to the reporter: whatever order the collector drains the commands of a run in, and however it
      cuts them into batches, each record it reports belongs to a sampled root of that collect id and trace id, and its
      parent is that root's remote parent or a span created earlier in the same trace. */
  lemma {:induction false} ReportedAccounted(capacity: nat, steps: seq<Step>, w: World, batches: seq<Batch>,
                                             states: seq<map<CollectId, ActiveCollector>>, groups: seq<seq<Group>>)
    requires Reaches(capacity, steps, w) && DrainedFrom(w, batches)
    requires IsRun(false, batches, states, groups)
    ensures forall pair <- Reported(groups) :: Accounted(w, pair.0, pair.1)
  {
    hide Inv, Reaches, IsRun, Reported, Submitted, Accounted, BatchesSentBy, DrainedFrom;
    ReachableInv(capacity, steps, w);
    DrainedIsSent(w, batches);
    BatchesAccounted(w, batches);
    Conservation(batches, states, groups);
    SameMembers(Reported(groups), Submitted(batches));
  }

  lemma {:induction false} ConcatSent(w: World, batches: seq<Batch>)
    requires BatchesSentBy(w, batches)
    ensures AllSentBy(w, Concat(batches))
  {
    hide SentBy;
    if batches != [] {
      ConcatSent(w, Init(batches));
      assert AllSentBy(w, batches[|batches| - 1].commands);
    }
  }

  lemma {:induction false} SubmittedLabelled(commands: seq<Command>, c: CollectId, key: Key)
    requires key in SubmittedKeys(commands, c)
    ensures (c, key) in LabelledSubmits(commands)
  {
    hide LabelledSubmits, Project, SubmittedKeys;
    ProjectSubmits(commands, c);
    CountByProjection(LabelledSubmits(commands), c, key);
    assert multiset(SubmittedKeys(commands, c))[key] > 0;
    assert multiset(LabelledSubmits(commands))[(c, key)] > 0;
  }

  lemma {:induction false} CancelableAccounted(w: World, batches: seq<Batch>,
                                               states: seq<map<CollectId, ActiveCollector>>,
                                               groups: seq<seq<Group>>, c: CollectId, s: nat, k: nat)
    requires Inv(w) && BatchesSentBy(w, batches)
    requires IsRun(true, batches, states, groups) && StartedOnlyIn(batches, c, s)
    requires k < |batches| == |groups|
    ensures forall group <- GroupsFor(groups[k], c), key <- Keys(group) :: Accounted(w, c, key)
  {
    hide Inv, IsRun, Accounted, StartedOnlyIn, GroupsFor, Keys, SubmittedKeys, LabelledSubmits, AllSentBy, StartIds,
         DropIds, CommitIds;
    ReportedOnce(batches, states, groups, c, s);
    if CommitBatch(batches, c, s, k) {
      var drained := Concat(batches[s..k + 1]);
      ConcatSent(w, batches[s..k + 1]);
      SubmitsAccounted(w, drained);
      forall key | key in SubmittedKeys(drained, c) ensures Accounted(w, c, key) {
        SubmittedLabelled(drained, c, key);
      }
    }
  }

  // Every collect id is started once

  ghost predicate StartsAt(w: World, i: nat, c: CollectId) {
    i < |w.sent| && w.sent[i].SentControl? && w.sent[i].command == StartCollect(c)
  }

  ghost predicate StartsNumbered(w: World) {
    && (forall i: nat, c: CollectId :: StartsAt(w, i, c) ==> c < w.nextCollectId)
    && (forall i: nat, j: nat, c: CollectId :: StartsAt(w, i, c) && StartsAt(w, j, c) ==> i == j)
  }

  /** Only a root sends a start. */
  lemma {:induction false} OthersAppend(w: World, step: Step, capacity: nat)
    requires Enabled(w, step) && !step.NewRoot?
    ensures var w' := Next(w, step, capacity);
            && w.sent <= w'.sent && w'.nextCollectId == w.nextCollectId && w'.roots == w.roots
            && forall i :: |w.sent| <= i < |w'.sent| && w'.sent[i].SentControl? ==> !w'.sent[i].command.StartCollect?
  {
    hide Fresh, AfterOp, Issue, IssueAll, CurrentToken, Sampled;
  }

  /** A step appends to what was sent, and a start only with the next collect id. */
  lemma {:induction false} StepAppends(w: World, step: Step, capacity: nat)
    requires Enabled(w, step)
    ensures var w' := Next(w, step, capacity);
            && w.sent <= w'.sent && w.nextCollectId <= w'.nextCollectId
            && forall i: nat, c: CollectId :: i >= |w.sent| && StartsAt(w', i, c) ==>
                 i == |w.sent| && c == w.nextCollectId < w'.nextCollectId
  {
    if !step.NewRoot? {
      hide Next;
      OthersAppend(w, step, capacity);
    }
  }

  lemma {:induction false} StepStarts(w: World, step: Step, capacity: nat)
    requires StartsNumbered(w) && Enabled(w, step)
    ensures StartsNumbered(Next(w, step, capacity))
  {
    hide Next, Permitted, Fresh;
    StepAppends(w, step, capacity);
    var w' := Next(w, step, capacity);
    assert forall i: nat, c: CollectId :: i < |w.sent| ==> (StartsAt(w', i, c) <==> StartsAt(w, i, c));
  }

  lemma {:induction false} ReachableStarts(capacity: nat, steps: seq<Step>, w: World)
    requires Reaches(capacity, steps, w)
    ensures StartsNumbered(w)
    decreases |steps|
  {
    hide StartsNumbered, Next, Permitted, Fresh;
    if steps == [] {
      EmptyStarts();
    } else {
      var w0 :| Reaches(capacity, Init(steps), w0) && Enabled(w0, Last(steps)) && w == Next(w0, Last(steps), capacity);
      ReachableStarts(capacity, Init(steps), w0);
      StepStarts(w0, Last(steps), capacity);
    }
  }

  lemma {:induction false} EmptyStarts()
    ensures StartsNumbered(EMPTY_WORLD)
  {
  }

  lemma {:induction false} CountAtMostOnce<T>(s: seq<T>, x: T)
    requires forall i, j :: 0 <= i < j < |s| && s[i] == x ==> s[j] != x
    ensures multiset(s)[x] <= 1
  {
    if s != [] {
      assert s == Init(s) + [Last(s)];
      CountAtMostOnce(Init(s), x);
      if Last(s) == x {
        assert x !in Init(s);
        assert multiset(Init(s))[x] == 0;
      }
    }
  }

  lemma {:induction false} StartSentOnce(w: World, c: CollectId)
    requires StartsNumbered(w) && Inv(w)
    ensures multiset(SentCommands(w))[StartCollect(c)] <= 1
  {
    var commands := SentCommands(w);
    forall i: nat | i < |commands| && commands[i] == StartCollect(c) ensures StartsAt(w, i, c) {
      assert SentGood(w, w.sent[i]);
    }
    CountAtMostOnce(commands, StartCollect(c));
  }

  /** No two batches start the same collect id. */
  lemma {:induction false} StartedInOneBatch(w: World, batches: seq<Batch>, c: CollectId) returns (s: nat)
    requires StartsNumbered(w) && Inv(w) && DrainedFrom(w, batches)
    ensures StartedOnlyIn(batches, c, s)
  {
    hide Inv, StartsNumbered, StartIds, DropIds, CommitIds, Concat, SentCommands;
    StartSentOnce(w, c);
    s := 0;
    if k: nat :| k < |batches| && c in StartIds(batches[k].commands) {
      s := k;
      forall j | 0 <= j < |batches| && j != s ensures c !in StartIds(batches[j].commands) {
        CommandKinds(batches[j].commands, c);
        CommandKinds(batches[s].commands, c);
        TwoInConcat(batches, if j < s then j else s, if j < s then s else j);
        BothContain(batches[j].commands, batches[s].commands, StartCollect(c));
      }
    }
  }

  lemma {:induction false} BothContain(a: seq<Command>, b: seq<Command>, command: Command)
    requires command in b && (multiset(a) + multiset(b))[command] <= 1
    ensures command !in a
  {
    assert command in multiset(b);
    assert command in a ==> command in multiset(a);
  }

  /** With `cancelable` on, from the threads to the reporter: the records of a trace appear in at most one report, once
      its commit is handled, and each of them belongs to a sampled root and hangs below an earlier span as above. */
  lemma {:induction false} OneReportPerTrace(capacity: nat, steps: seq<Step>, w: World, batches: seq<Batch>,
                                             states: seq<map<CollectId, ActiveCollector>>, groups: seq<seq<Group>>,
                                             c: CollectId)
    requires Reaches(capacity, steps, w) && DrainedFrom(w, batches)
    requires IsRun(true, batches, states, groups)
    ensures forall k :: 0 <= k < |groups| ==> |GroupsFor(groups[k], c)| <= 1
    ensures forall j, k :: 0 <= j < k < |groups| && GroupsFor(groups[j], c) != [] ==> GroupsFor(groups[k], c) == []
    ensures forall k :: 0 <= k < |groups| ==>
              forall group <- GroupsFor(groups[k], c), key <- Keys(group) :: Accounted(w, c, key)
  {
    hide Inv, Reaches, IsRun, Accounted, StartedOnlyIn, GroupsFor, Keys, BatchesSentBy, DrainedFrom, StartsNumbered,
         CommitsNow;
    ReachableInv(capacity, steps, w);
    ReachableStarts(capacity, steps, w);
    DrainedIsSent(w, batches);
    RunLengths(true, batches, states, groups);
    var s := StartedInOneBatch(w, batches, c);
    ReportedOnce(batches, states, groups, c, s);
    forall k | 0 <= k < |groups|
      ensures |GroupsFor(groups[k], c)| <= 1
      ensures forall group <- GroupsFor(groups[k], c), key <- Keys(group) :: Accounted(w, c, key)
    {
      CancelableAccounted(w, batches, states, groups, c, s, k);
      assert CommitBatch(batches, c, s, k) || !CommitBatch(batches, c, s, k);
    }
  }

  // One sampled root for each collect id

  ghost predicate RootsNumbered(w: World) {
    && (forall i :: 0 <= i < |w.roots| && w.roots[i].context.sampled ==> w.roots[i].collectId < w.nextCollectId)
    && (forall i, j :: 0 <= i < j < |w.roots| && w.roots[i].context.sampled && w.roots[j].context.sampled ==>
          w.roots[i].collectId < w.roots[j].collectId)
  }

  lemma {:induction false} StepNumbers(w: World, step: Step, capacity: nat)
    requires RootsNumbered(w) && Enabled(w, step)
    ensures RootsNumbered(Next(w, step, capacity))
  {
    if step.NewRoot? {
      var w' := Next(w, step, capacity);
      assert w'.roots == w.roots + [Last(w'.roots)];
    } else {
      hide Next;
      OthersAppend(w, step, capacity);
    }
  }

  lemma {:induction false} ReachableNumbered(capacity: nat, steps: seq<Step>, w: World)
    requires Reaches(capacity, steps, w)
    ensures RootsNumbered(w)
    decreases |steps|
  {
    hide RootsNumbered, Next, Permitted, Fresh;
    if steps == [] {
      EmptyNumbered();
    } else {
      var w0 :| Reaches(capacity, Init(steps), w0) && Enabled(w0, Last(steps)) && w == Next(w0, Last(steps), capacity);
      ReachableNumbered(capacity, Init(steps), w0);
      StepNumbers(w0, Last(steps), capacity);
    }
  }

  lemma {:induction false} EmptyNumbered()
    ensures RootsNumbered(EMPTY_WORLD)
  {
  }

  /** Records with the same collect id belong to the trace of the same root. */
  lemma {:induction false} OneTracePerCollectId(capacity: nat, steps: seq<Step>, w: World, c: CollectId)
    returns (r: nat)
    requires Reaches(capacity, steps, w)
    ensures forall key :: Accounted(w, c, key) ==> KeyGood(w, r, key)
  {
    hide Reaches;
    ReachableNumbered(capacity, steps, w);
    r := 0;
    if i: nat :| i < |w.roots| && w.roots[i].collectId == c && w.roots[i].context.sampled {
      r := i;
    }
  }

  // No cycles

  /** Records of one trace, each below the next. Only the last may be the root's own, whose parent is remote. */
  ghost predicate Climbs(w: World, r: nat, keys: seq<Key>) {
    && (forall i :: 0 <= i < |keys| ==> KeyGood(w, r, keys[i]))
    && (forall i :: 0 <= i < |keys| - 1 ==>
          keys[i].parentId == keys[i + 1].spanId && keys[i].spanId != w.roots[r].spanId)
  }

  /** Climbing from record to parent record never meets the same span twice. */
  lemma {:induction false} NoCycle(w: World, r: nat, keys: seq<Key>, i: nat, j: nat)
    requires Climbs(w, r, keys) && i < j < |keys|
    ensures w.born[keys[j].spanId] < w.born[keys[i].spanId] && keys[i].spanId != keys[j].spanId
    decreases j
  {
    assert KeyGood(w, r, keys[j - 1]);
    if i < j - 1 {
      NoCycle(w, r, keys, i, j - 1);
    }
  }
}

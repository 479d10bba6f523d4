/** The commands that the root of a trace sends over its life (fastrace/src/span.rs): its start, its own span when it is
    dropped, and then its commit, once each and in this order, whatever all other spans and threads do. */
module RootCommands {
  import opened Records
  import opened SpanQueues
  import opened Lineage

  ghost predicate CommitsAt(w: World, j: nat, c: CollectId) {
    j < |w.sent| && w.sent[j].SentControl? && w.sent[j].command == CommitCollect(c)
  }

  ghost predicate DropsAt(w: World, j: nat, c: CollectId) {
    j < |w.sent| && w.sent[j].SentControl? && w.sent[j].command == DropCollect(c)
  }

  ghost predicate StartsBefore(w: World, j: nat, c: CollectId) {
    exists i: nat :: i < j && StartsAt(w, i, c)
  }

  /** Root `r` is the span `id`, with one token item of its own. */
  ghost predicate RootOf(w: World, r: nat, id: SpanId, span: Span) {
    && r < |w.roots| && w.roots[r].spanId == id && span.collectId == Some(w.roots[r].collectId)
    && span.raw.id == id && |span.token| == 1 && span.token[0].root == r
    && span.token[0].item == RootItem(w.roots[r]) && span.raw.kind.SpanKind?
  }

  /** The one token item of a root's own span. */
  function RootItem(root: Root): TokenItem {
    TokenItem(root.context.traceId, root.context.spanId, root.collectId, true, root.context.sampled)
  }

  /** Command `k` submits the span of root `r` for its own collect id. */
  ghost predicate OwnSpanAt(w: World, k: nat, r: nat) {
    && k < |w.sent| && r < |w.roots| && w.sent[k].SentSpans? && w.sent[k].spans.Single?
    && w.sent[k].spans.span.id == w.roots[r].spanId && w.sent[k].spans.span.kind.SpanKind?
    && |w.sent[k].token| == 1 && w.sent[k].token[0].item == RootItem(w.roots[r])
  }

  /** Commit `j` comes from root `r`, which is gone. */
  ghost predicate CommitOf(w: World, j: nat, c: CollectId, r: nat) {
    && r < |w.roots| && w.roots[r].collectId == c
    && w.roots[r].spanId in w.born && w.roots[r].spanId !in w.live
    && (w.roots[r].context.sampled ==>
          0 < j < |w.sent| && OwnSpanAt(w, j - 1, r) && w.sent[j - 1].thread == w.sent[j].thread
          && StartsBefore(w, j - 1, c))
  }

  ghost predicate HasRoot(w: World, id: SpanId, span: Span) {
    exists r: nat :: RootOf(w, r, id, span)
  }

  ghost predicate FromRoot(w: World, j: nat, c: CollectId) {
    exists r: nat :: CommitOf(w, j, c, r)
  }

  ghost predicate Disciplined(w: World) {
    && (forall id <- w.live :: w.live[id].collectId.Some? ==> HasRoot(w, id, w.live[id]))
    && (forall id <- w.live :: id in w.born)
    && (forall r :: 0 <= r < |w.roots| && w.roots[r].context.sampled ==>
         StartsBefore(w, |w.sent|, w.roots[r].collectId))
    && (forall r :: 0 <= r < |w.roots| && !w.roots[r].context.sampled ==>
         w.roots[r].collectId == NOT_SAMPLED_COLLECT_ID)
    && (forall j: nat, c: CollectId :: CommitsAt(w, j, c) ==> FromRoot(w, j, c))
    && (forall j: nat, k: nat, c: CollectId ::
          CommitsAt(w, j, c) && CommitsAt(w, k, c) && c != NOT_SAMPLED_COLLECT_ID ==> j == k)
    && (forall d: nat, c: CollectId :: DropsAt(w, d, c) && c != NOT_SAMPLED_COLLECT_ID ==> StartsBefore(w, d, c))
    && (forall d: nat, j: nat, c: CollectId ::
          DropsAt(w, d, c) && CommitsAt(w, j, c) && c != NOT_SAMPLED_COLLECT_ID ==> d < j)
  }

  /** Roots and sent commands are only appended to, and roots that are gone stay gone. */
  ghost predicate Later(w: World, w': World) {
    && w.roots <= w'.roots && w.sent <= w'.sent
    && (forall id <- w.born :: id in w'.born && (id !in w.live ==> id !in w'.live))
  }

  lemma {:induction false} StartsLater(w: World, w': World, j: nat, c: CollectId)
    requires Later(w, w') && StartsBefore(w, j, c)
    ensures StartsBefore(w', j, c)
  {
    var i: nat :| i < j && StartsAt(w, i, c);
    assert StartsAt(w', i, c);
  }

  lemma {:induction false} CommitLater(w: World, w': World, j: nat, c: CollectId)
    requires Later(w, w') && FromRoot(w, j, c)
    ensures FromRoot(w', j, c)
  {
    var r: nat :| CommitOf(w, j, c, r);
    if w.roots[r].context.sampled {
      StartsLater(w, w', j - 1, c);
    }
    assert CommitOf(w', j, c, r);
  }

  lemma {:induction false} RootLater(w: World, w': World, id: SpanId, span: Span)
    requires Later(w, w') && HasRoot(w, id, span)
    ensures HasRoot(w', id, span)
  {
    var r: nat :| RootOf(w, r, id, span);
    assert RootOf(w', r, id, span);
  }

  /** A step that makes no root and sends no commit and no drop: live spans are old ones, or new ones that are no
      roots. */
  ghost predicate Plain(w: World, w': World) {
    && w'.roots == w.roots
    && (forall id <- w'.live ::
          id in w'.born && (if id in w.live then w'.live[id] == w.live[id] else w'.live[id].collectId == None))
    && (forall j: nat, c: CollectId :: j >= |w.sent| ==> !CommitsAt(w', j, c) && !DropsAt(w', j, c))
  }

  lemma {:induction false} PlainKeeps(w: World, w': World)
    requires Disciplined(w) && Later(w, w') && Plain(w, w')
    ensures Disciplined(w')
  {
    hide HasRoot, FromRoot, StartsBefore;
    forall id <- w'.live | w'.live[id].collectId.Some? ensures HasRoot(w', id, w'.live[id]) {
      RootLater(w, w', id, w.live[id]);
    }
    forall j: nat, c: CollectId | CommitsAt(w', j, c) ensures CommitsAt(w, j, c) && FromRoot(w', j, c) {
      assert CommitsAt(w, j, c);
      CommitLater(w, w', j, c);
    }
    forall r | 0 <= r < |w'.roots| && w'.roots[r].context.sampled
      ensures StartsBefore(w', |w'.sent|, w'.roots[r].collectId)
    {
      StartsLater(w, w', |w.sent|, w.roots[r].collectId);
      MoreStarts(w', |w.sent|, |w'.sent|, w.roots[r].collectId);
    }
    OldDrops(w, w');
  }

  lemma {:induction false} OldDrops(w: World, w': World)
    requires Disciplined(w) && Later(w, w')
    ensures forall d: nat, c: CollectId :: d < |w.sent| ==> (DropsAt(w', d, c) <==> DropsAt(w, d, c))
    ensures forall d: nat, c: CollectId ::
              d < |w.sent| && DropsAt(w', d, c) && c != NOT_SAMPLED_COLLECT_ID ==> StartsBefore(w', d, c)
    ensures forall d: nat, j: nat, c: CollectId ::
              d < |w.sent| && DropsAt(w', d, c) && CommitsAt(w', j, c) && c != NOT_SAMPLED_COLLECT_ID ==> d < j
  {
    hide HasRoot, FromRoot, StartsBefore;
    assert forall d: nat, c: CollectId :: d < |w.sent| ==> (DropsAt(w', d, c) <==> DropsAt(w, d, c));
    assert forall j: nat, c: CollectId :: j < |w.sent| ==> (CommitsAt(w', j, c) <==> CommitsAt(w, j, c));
    forall d: nat, c: CollectId | d < |w.sent| && DropsAt(w', d, c) && c != NOT_SAMPLED_COLLECT_ID
      ensures StartsBefore(w', d, c)
    {
      StartsLater(w, w', d, c);
    }
  }

  lemma {:induction false} MoreStarts(w: World, j: nat, k: nat, c: CollectId)
    requires StartsBefore(w, j, c) && j <= k
    ensures StartsBefore(w, k, c)
  {
  }

  lemma {:induction false} StepIsPlain(w: World, step: Step, capacity: nat)
    requires Enabled(w, step) && (forall id <- w.live :: id in w.born) && !step.NewRoot?
    requires step.DropSpan? || step.Cancel? ==> w.live[step.span].collectId == None
    ensures Later(w, Next(w, step, capacity)) && Plain(w, Next(w, step, capacity))
  {
    hide AfterOp, Issue, IssueAll, CurrentToken, Sampled, RootsOf;
  }

  // A new root

  lemma {:induction false} NewRootDisciplined(w: World, thread: nat, id: SpanId, context: SpanContext, name: string,
                                              capacity: nat)
    requires Disciplined(w) && Fresh(w, id)
    ensures Disciplined(Next(w, NewRoot(thread, id, context, name), capacity))
  {
    hide HasRoot, FromRoot, StartsBefore;
    var w' := Next(w, NewRoot(thread, id, context, name), capacity);
    NewRootLater(w, thread, id, context, name, capacity);
    assert RootOf(w', |w.roots|, id, w'.live[id]);
    assert HasRoot(w', id, w'.live[id]) by { Witness(w', id, w'.live[id], |w.roots|); }
    forall other <- w'.live | w'.live[other].collectId.Some? ensures HasRoot(w', other, w'.live[other]) {
      if other != id {
        RootLater(w, w', other, w.live[other]);
      }
    }
    forall j: nat, c: CollectId | CommitsAt(w', j, c) ensures CommitsAt(w, j, c) && FromRoot(w', j, c) {
      assert CommitsAt(w, j, c);
      CommitLater(w, w', j, c);
    }
    forall r | 0 <= r < |w'.roots| && w'.roots[r].context.sampled
      ensures StartsBefore(w', |w'.sent|, w'.roots[r].collectId)
    {
      if r < |w.roots| {
        StartsLater(w, w', |w.sent|, w.roots[r].collectId);
        MoreStarts(w', |w.sent|, |w'.sent|, w.roots[r].collectId);
      } else {
        assert StartsAt(w', |w.sent|, w.nextCollectId);
        StartWitness(w', |w.sent|, |w'.sent|, w.nextCollectId);
      }
    }
    OldDrops(w, w');
  }

  lemma {:induction false} StartWitness(w: World, i: nat, j: nat, c: CollectId)
    requires StartsAt(w, i, c) && i < j
    ensures StartsBefore(w, j, c)
  {
  }

  lemma {:induction false} Witness(w: World, id: SpanId, span: Span, r: nat)
    requires RootOf(w, r, id, span)
    ensures HasRoot(w, id, span)
  {
  }

  lemma {:induction false} NewRootLater(w: World, thread: nat, id: SpanId, context: SpanContext, name: string,
                                        capacity: nat)
    requires Fresh(w, id)
    ensures var w' := Next(w, NewRoot(thread, id, context, name), capacity);
            && Later(w, w') && |w'.roots| == |w.roots| + 1 && Last(w'.roots).context == context
            && Last(w'.roots).collectId == (if context.sampled then w.nextCollectId else NOT_SAMPLED_COLLECT_ID)
            && w'.live.Keys == w.live.Keys + {id}
               && (forall other <- w.live :: other != id ==> w'.live[other] == w.live[other])
            && w'.born.Keys == w.born.Keys + {id} && RootOf(w', |w.roots|, id, w'.live[id])
            && w'.sent == if context.sampled then w.sent + [SentControl(thread, StartCollect(w.nextCollectId))]
               else w.sent
  {
  }

  // Dropping a root

  lemma {:induction false} RootDropSends(w: World, thread: nat, id: SpanId, now: Instant, capacity: nat, r: nat)
    requires id in w.live && RootOf(w, r, id, w.live[id]) && id in w.born
    ensures var w' := Next(w, DropSpan(thread, id, now), capacity);
            && Later(w, w') && w'.roots == w.roots && w'.live == w.live - {id} && w'.born == w.born
            && w'.sent != [] && CommitsAt(w', |w'.sent| - 1, w.roots[r].collectId)
            && |w'.sent| == |w.sent| + (if w.roots[r].context.sampled then 2 else 1)
            && (forall d: nat, c: CollectId :: d >= |w.sent| ==> !DropsAt(w', d, c))
            && (w.roots[r].context.sampled ==>
                  OwnSpanAt(w', |w.sent|, r) && w'.sent[|w.sent|].thread == Last(w'.sent).thread)
  {
    var token := w.live[id].token;
    assert Init(token) == [] && token == [Last(token)];
    assert Sampled(Init(token)) == [];
    assert Sampled(token) == if token[0].item.isSampled then token else [];
  }

  lemma {:induction false} DropRootDisciplined(w: World, thread: nat, id: SpanId, now: Instant, capacity: nat)
    requires Disciplined(w) && RootsNumbered(w) && w.nextCollectId <= NOT_SAMPLED_COLLECT_ID
    requires id in w.live && w.live[id].collectId.Some?
    ensures Disciplined(Next(w, DropSpan(thread, id, now), capacity))
  {
    hide FromRoot, StartsBefore, Next;
    assert HasRoot(w, id, w.live[id]);
    var r: nat :| RootOf(w, r, id, w.live[id]);
    var w' := Next(w, DropSpan(thread, id, now), capacity);
    RootDropSends(w, thread, id, now, capacity, r);
    var c, last := w.roots[r].collectId, |w'.sent| - 1;
    forall other <- w'.live | w'.live[other].collectId.Some? ensures HasRoot(w', other, w'.live[other]) {
      RootLater(w, w', other, w.live[other]);
    }
    forall q | 0 <= q < |w'.roots| && w'.roots[q].context.sampled
      ensures StartsBefore(w', |w'.sent|, w'.roots[q].collectId)
    {
      StartsLater(w, w', |w.sent|, w.roots[q].collectId);
      MoreStarts(w', |w.sent|, |w'.sent|, w.roots[q].collectId);
    }
    CommitIsFromRoot(w, w', r, id, last);
    OldDrops(w, w');
    forall j: nat, d: CollectId | CommitsAt(w', j, d)
      ensures FromRoot(w', j, d)
      ensures if j == last then d == c else CommitsAt(w, j, d) && (d == c ==> c == NOT_SAMPLED_COLLECT_ID)
    {
      if j != last {
        assert CommitsAt(w, j, d);
        CommitLater(w, w', j, d);
        if d == c {
          NotYetCommitted(w, r, id, j);
        }
      }
    }
  }

  lemma {:induction false} CommitIsFromRoot(w: World, w': World, r: nat, id: SpanId, last: nat)
    requires Disciplined(w) && Later(w, w') && r < |w.roots| && w'.roots == w.roots
    requires w.roots[r].spanId == id && id in w'.born && id !in w'.live
    requires w.roots[r].context.sampled ==>
               && last == |w.sent| + 1 < |w'.sent| && OwnSpanAt(w', |w.sent|, r)
               && w'.sent[|w.sent|].thread == w'.sent[last].thread
    ensures FromRoot(w', last, w.roots[r].collectId)
  {
    hide StartsBefore, HasRoot;
    if w.roots[r].context.sampled {
      StartsLater(w, w', |w.sent|, w.roots[r].collectId);
    }
    assert CommitOf(w', last, w.roots[r].collectId, r);
  }

  /** A live root has not committed its collect id. */
  lemma {:induction false} NotYetCommitted(w: World, r: nat, id: SpanId, j: nat)
    requires Disciplined(w) && RootsNumbered(w) && w.nextCollectId <= NOT_SAMPLED_COLLECT_ID
    requires id in w.live && r < |w.roots| && w.roots[r].spanId == id && CommitsAt(w, j, w.roots[r].collectId)
    ensures w.roots[r].collectId == NOT_SAMPLED_COLLECT_ID
  {
    hide StartsBefore, HasRoot, OwnSpanAt;
    var c := w.roots[r].collectId;
    assert FromRoot(w, j, c);
    var q: nat :| CommitOf(w, j, c, q);
    SameRoot(w, q, r);
  }

  lemma {:induction false} SameRoot(w: World, q: nat, r: nat)
    requires RootsNumbered(w) && q < |w.roots| && r < |w.roots| && w.roots[q].collectId == w.roots[r].collectId
    ensures w.roots[q].context.sampled && w.roots[r].context.sampled ==> q == r
  {
  }

  // Cancelling a root

  lemma {:induction false} CancelDisciplined(w: World, thread: nat, id: SpanId, capacity: nat)
    requires Disciplined(w) && RootsNumbered(w) && w.nextCollectId <= NOT_SAMPLED_COLLECT_ID
    requires id in w.live && w.live[id].collectId.Some?
    ensures Disciplined(Next(w, Cancel(thread, id), capacity))
  {
    hide FromRoot, StartsBefore, HasRoot;
    var w', c := Next(w, Cancel(thread, id), capacity), w.live[id].collectId.value;
    var r := RootBehind(w, id);
    forall other <- w'.live | w'.live[other].collectId.Some? ensures HasRoot(w', other, w'.live[other]) {
      RootLater(w, w', other, w.live[other]);
    }
    forall q | 0 <= q < |w'.roots| && w'.roots[q].context.sampled
      ensures StartsBefore(w', |w'.sent|, w'.roots[q].collectId)
    {
      StartsLater(w, w', |w.sent|, w.roots[q].collectId);
      MoreStarts(w', |w.sent|, |w'.sent|, w.roots[q].collectId);
    }
    forall j: nat, d: CollectId | CommitsAt(w', j, d)
      ensures CommitsAt(w, j, d) && FromRoot(w', j, d) && (d == c ==> c == NOT_SAMPLED_COLLECT_ID)
    {
      assert CommitsAt(w, j, d);
      CommitLater(w, w', j, d);
      if d == c {
        NotYetCommitted(w, r, id, j);
      }
    }
    OldDrops(w, w');
    if c != NOT_SAMPLED_COLLECT_ID {
      StartsLater(w, w', |w.sent|, c);
    }
  }

  lemma {:induction false} RootBehind(w: World, id: SpanId) returns (r: nat)
    requires Disciplined(w) && id in w.live && w.live[id].collectId.Some?
    ensures RootOf(w, r, id, w.live[id])
    ensures w.roots[r].collectId != NOT_SAMPLED_COLLECT_ID ==> w.roots[r].context.sampled
  {
    hide RootOf, FromRoot, StartsBefore;
    assert HasRoot(w, id, w.live[id]);
    r :| RootOf(w, r, id, w.live[id]);
    RootInRange(w, r, id);
  }

  lemma {:induction false} RootInRange(w: World, r: nat, id: SpanId)
    requires id in w.live && RootOf(w, r, id, w.live[id])
    ensures r < |w.roots|
  {
  }

  // Runs

  lemma {:induction false} StepDisciplined(w: World, step: Step, capacity: nat)
    requires Disciplined(w) && RootsNumbered(w) && w.nextCollectId <= NOT_SAMPLED_COLLECT_ID && Enabled(w, step)
    ensures Disciplined(Next(w, step, capacity))
  {
    hide Next, Later, Plain, RootsNumbered, Disciplined;
    LiveAreBorn(w);
    if step.NewRoot? {
      NewRootDisciplined(w, step.thread, step.id, step.context, step.name, capacity);
    } else if step.DropSpan? && w.live[step.span].collectId.Some? {
      DropRootDisciplined(w, step.thread, step.span, step.now, capacity);
    } else if step.Cancel? && w.live[step.span].collectId.Some? {
      CancelDisciplined(w, step.thread, step.span, capacity);
    } else {
      StepIsPlain(w, step, capacity);
      PlainKeeps(w, Next(w, step, capacity));
    }
  }

  lemma {:induction false} LiveAreBorn(w: World)
    requires Disciplined(w)
    ensures forall id <- w.live :: id in w.born
  {
  }

  lemma {:induction false} ReachableDisciplined(capacity: nat, steps: seq<Step>, w: World)
    requires Lineage.Reaches(capacity, steps, w) && w.nextCollectId <= NOT_SAMPLED_COLLECT_ID
    ensures Disciplined(w)
    decreases |steps|
  {
    hide Disciplined, RootsNumbered, Next, Permitted, Fresh;
    if steps == [] {
      EmptyDisciplined();
    } else {
      var w0 :| Lineage.Reaches(capacity, Init(steps), w0) && Enabled(w0, Last(steps))
        && w == Next(w0, Last(steps), capacity);
      StepAppends(w0, Last(steps), capacity);
      ReachableDisciplined(capacity, Init(steps), w0);
      ReachableNumbered(capacity, Init(steps), w0);
      StepDisciplined(w0, Last(steps), capacity);
    }
  }

  lemma {:induction false} EmptyDisciplined()
    ensures Disciplined(EMPTY_WORLD)
  {
  }

  /** In every run, before the counter of collect ids reaches its last value: a collect id is committed at most once, on
      the channel and right after the submit of the root's own span, after its only start and after every cancel. */
  lemma {:induction false} CommitFollowsOwnSpan(capacity: nat, steps: seq<Step>, w: World, c: CollectId, j: nat)
    returns (i: nat, r: nat)
    requires Lineage.Reaches(capacity, steps, w) && w.nextCollectId <= NOT_SAMPLED_COLLECT_ID
    requires CommitsAt(w, j, c) && c != NOT_SAMPLED_COLLECT_ID
    ensures i < j - 1 && StartsAt(w, i, c)
    ensures OwnSpanAt(w, j - 1, r) && w.roots[r].collectId == c && w.roots[r].context.sampled
    ensures w.sent[j - 1].thread == w.sent[j].thread
    ensures forall k: nat :: CommitsAt(w, k, c) ==> k == j
    ensures forall k: nat :: StartsAt(w, k, c) ==> k == i
    ensures forall d: nat :: DropsAt(w, d, c) ==> i < d < j
  {
    hide Lineage.Reaches, OwnSpanAt;
    ReachableDisciplined(capacity, steps, w);
    ReachableStarts(capacity, steps, w);
    assert FromRoot(w, j, c);
    r :| CommitOf(w, j, c, r);
    assert StartsBefore(w, j - 1, c);
    i :| i < j - 1 && StartsAt(w, i, c);
    forall d: nat | DropsAt(w, d, c) ensures i < d < j {
      assert StartsBefore(w, d, c);
      var k: nat :| k < d && StartsAt(w, k, c);
    }
  }
}

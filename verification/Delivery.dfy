/** From the threads to the reporter, without loss and without repetition: with `cancelable` off, the records of a span
    are one for each sampled item of the token it was made with. */
module Delivery {
  import opened Records
  import opened GlobalCollectors
  import opened CollectorRuns
  import opened Lineage
  import opened Completeness
  import opened TreeOrder

  type Labelled = (CollectId, Key)

  /** The records a span ought to have: one for each sampled item, below its local parent or below the item's. */
  function Due(token: TracedToken, raw: RawSpan): seq<Labelled> {
    if token == [] then []
    else
      Due(Init(token), raw) +
      if Last(token).item.isSampled then [DueItem(Last(token).item, raw)] else []
  }

  function DueItem(item: TokenItem, raw: RawSpan): Labelled {
    (item.collectId, Key(item.traceId, raw.id, if raw.parentId == NO_ID then item.parentId else raw.parentId))
  }

  // Counting over commands

  function SubmitOf(command: Command): seq<Labelled> {
    match command
    case SubmitSpans(spans, token) => LabelledItems(spans, token)
    case _ => []
  }

  function CountIn(commands: seq<Command>, x: Labelled): nat {
    if commands == [] then 0 else CountIn(Init(commands), x) + multiset(SubmitOf(Last(commands)))[x]
  }

  lemma {:induction false} CountIsLabelled(commands: seq<Command>, x: Labelled)
    ensures CountIn(commands, x) == multiset(LabelledSubmits(commands))[x]
  {
    hide LabelledItems;
    if commands != [] {
      CountIsLabelled(Init(commands), x);
      assert LabelledSubmits(commands) == LabelledSubmits(Init(commands)) + SubmitOf(Last(commands));
    }
  }

  lemma {:induction false} CountConcat(a: seq<Command>, b: seq<Command>, x: Labelled)
    ensures CountIn(a + b, x) == CountIn(a, x) + CountIn(b, x)
  {
    hide SubmitOf;
    if b == [] {
      assert a + b == a;
    } else {
      InitOfConcat(a, b);
      CountConcat(a, Init(b), x);
    }
  }

  lemma {:induction false} CountWithout(commands: seq<Command>, j: nat, x: Labelled)
    requires j < |commands|
    ensures CountIn(commands, x) == CountIn(Without(commands, j), x) + multiset(SubmitOf(commands[j]))[x]
  {
    hide SubmitOf;
    var head, tail := commands[..j], commands[j + 1..];
    assert commands == head + [commands[j]] + tail;
    CountConcat(head + [commands[j]], tail, x);
    assert Init(head + [commands[j]]) == head && Last(head + [commands[j]]) == commands[j];
    CountConcat(head, tail, x);
  }

  /** The count does not depend on the order, and fewer commands do not count more. */
  lemma {:induction false} CountMonotone(a: seq<Command>, b: seq<Command>, x: Labelled)
    requires multiset(a) <= multiset(b)
    ensures CountIn(a, x) <= CountIn(b, x)
    decreases |a|
  {
    hide SubmitOf;
    if a != [] {
      InitMultiset(a);
      assert Last(a) in multiset(b);
      var j :| 0 <= j < |b| && b[j] == Last(a);
      WithoutMultiset(b, j);
      assert multiset(Init(a)) == multiset(a) - multiset{Last(a)};
      assert multiset(Without(b, j)) == multiset(b) - multiset{Last(a)};
      CountMonotone(Init(a), Without(b, j), x);
      CountWithout(b, j, x);
    }
  }

  lemma {:induction false} CountBatches(batches: seq<Batch>, x: Labelled)
    ensures multiset(Submitted(batches))[x] == CountIn(Concat(batches), x)
  {
    hide SubmitOf, LabelledSubmits;
    if batches != [] {
      CountBatches(Init(batches), x);
      CountIsLabelled(Last(batches).commands, x);
      CountConcat(Concat(Init(batches)), Last(batches).commands, x);
    }
  }

  /** When only command `k` speaks of `x`, it alone counts. */
  lemma {:induction false} OnlyOneCounts(commands: seq<Command>, k: nat, x: Labelled)
    requires forall i :: 0 <= i < |commands| && i != k ==> multiset(SubmitOf(commands[i]))[x] == 0
    ensures CountIn(commands, x) == if k < |commands| then multiset(SubmitOf(commands[k]))[x] else 0
  {
    hide SubmitOf;
    if commands != [] {
      assert forall i :: 0 <= i < |commands| - 1 ==> Init(commands)[i] == commands[i];
      OnlyOneCounts(Init(commands), k, x);
    }
  }

  // One message

  lemma {:induction false} LocalKeysCount(spans: seq<RawSpan>, traceId: TraceId, parentId: SpanId, key: Key)
    requires forall i :: 0 <= i < |spans| ==> spans[i].id != key.spanId
    ensures key !in LocalKeys(spans, traceId, parentId)
  {
    if spans != [] {
      LocalKeysCount(Init(spans), traceId, parentId, key);
    }
  }

  /** A span that occurs once among local spans has one key. */
  lemma {:induction false} LocalKeyOnce(spans: seq<RawSpan>, j: nat, traceId: TraceId, parentId: SpanId, key: Key)
    requires j < |spans| && spans[j].id == key.spanId && spans[j].kind.SpanKind?
    requires forall i :: 0 <= i < |spans| && i != j ==> spans[i].id != key.spanId
    ensures var own := Key(traceId, key.spanId, if spans[j].parentId == NO_ID then parentId else spans[j].parentId);
            multiset(LocalKeys(spans, traceId, parentId))[key] == if key == own then 1 else 0
  {
    var n := |spans| - 1;
    if j == n {
      LocalKeysCount(Init(spans), traceId, parentId, key);
    } else {
      LocalKeyOnce(Init(spans), j, traceId, parentId, key);
      assert spans[n].id != key.spanId;
    }
  }

  lemma {:induction false} LabelCount(c: CollectId, keys: seq<Key>, x: Labelled)
    ensures multiset(Label(c, keys))[x] == if x.0 == c then multiset(keys)[x.1] else 0
  {
    if keys != [] {
      LabelCount(c, Init(keys), x);
      assert keys == Init(keys) + [Last(keys)];
      assert Label(c, keys) == Label(c, Init(keys)) + [(c, Last(keys))];
    }
  }

  /** `id` occurs in the set at place `j` and nowhere else. */
  ghost predicate OnlyAt(spans: SpanSet, id: SpanId, j: nat) {
    && j < |SpansOf(spans)| && SpansOf(spans)[j].id == id
    && forall i :: 0 <= i < |SpansOf(spans)| && i != j ==> SpansOf(spans)[i].id != id
  }

  ghost predicate NotIn(spans: SpanSet, id: SpanId) {
    forall i :: 0 <= i < |SpansOf(spans)| ==> SpansOf(spans)[i].id != id
  }

  lemma {:induction false} SetKeyOnce(spans: SpanSet, j: nat, item: TokenItem, x: Labelled)
    requires OnlyAt(spans, x.1.spanId, j) && SpansOf(spans)[j].kind.SpanKind?
    requires spans.Single? ==> SpansOf(spans)[j].parentId == NO_ID
    ensures multiset(Label(item.collectId, SetKeys(spans, item.traceId, item.parentId)))[x]
            == if x == DueItem(item, SpansOf(spans)[j]) then 1 else 0
  {
    LabelCount(item.collectId, SetKeys(spans, item.traceId, item.parentId), x);
    if !spans.Single? {
      LocalKeyOnce(SpansOf(spans), j, item.traceId, item.parentId, x.1);
    }
  }

  lemma {:induction false} SetKeyNever(spans: SpanSet, item: TokenItem, x: Labelled)
    requires NotIn(spans, x.1.spanId)
    ensures multiset(Label(item.collectId, SetKeys(spans, item.traceId, item.parentId)))[x] == 0
  {
    LabelCount(item.collectId, SetKeys(spans, item.traceId, item.parentId), x);
    var raws := SpansOf(spans);
    assert forall i :: 0 <= i < |raws| ==> raws[i].id != x.1.spanId;
    match spans
    case Single(raw) => assert SpansOf(spans)[0].id != x.1.spanId;
    case Local(local) => LocalKeysCount(local.spans, item.traceId, item.parentId, x.1);
    case SharedLocal(local) => LocalKeysCount(local.spans, item.traceId, item.parentId, x.1);
  }

  lemma {:induction false} TokensInit(token: TracedToken)
    requires token != []
    ensures Tokens(token) != [] && Init(Tokens(token)) == Tokens(Init(token)) && Last(Tokens(token)) == Last(token).item
  {
  }

  /** A message with sampled items only holds what is due for the span. */
  lemma {:induction false} MessageDue(spans: SpanSet, j: nat, token: TracedToken, x: Labelled)
    requires OnlyAt(spans, x.1.spanId, j) && SpansOf(spans)[j].kind.SpanKind?
    requires spans.Single? ==> SpansOf(spans)[j].parentId == NO_ID
    requires forall t <- token :: t.item.isSampled
    ensures multiset(LabelledItems(spans, Tokens(token)))[x] == multiset(Due(token, SpansOf(spans)[j]))[x]
  {
    hide SetKeys, Label, DueItem;
    if token == [] {
      assert Tokens(token) == [];
    } else {
      TokensInit(token);
      assert Last(token) in token && forall t <- Init(token) :: t in token;
      MessageDue(spans, j, Init(token), x);
      SetKeyOnce(spans, j, Last(token).item, x);
    }
  }

  lemma {:induction false} MessageNothing(spans: SpanSet, items: seq<TokenItem>, x: Labelled)
    requires NotIn(spans, x.1.spanId)
    ensures multiset(LabelledItems(spans, items))[x] == 0
  {
    hide SetKeys, Label;
    if items != [] {
      MessageNothing(spans, Init(items), x);
      SetKeyNever(spans, Last(items), x);
    }
  }

  /** What is due for a token is due for its sampled items. */
  lemma {:induction false} DueSampled(part: TracedToken, whole: TracedToken, at: seq<nat>, raw: RawSpan)
    requires SampledOf(part, whole, at)
    ensures Due(part, raw) == Due(whole, raw)
    decreases |whole|
  {
    hide DueItem;
    if whole == [] {
      assert part == [];
    } else if Last(whole).item.isSampled {
      LastSampled(part, whole, at);
      DueSampled(Init(part), Init(whole), Init(at), raw);
    } else {
      LastUnsampled(part, whole, at);
      DueSampled(part, Init(whole), at, raw);
    }
  }

  lemma {:induction false} LastSampled(part: TracedToken, whole: TracedToken, at: seq<nat>)
    requires SampledOf(part, whole, at) && whole != [] && Last(whole).item.isSampled
    ensures part != [] && at != [] && Last(part) == Last(whole) && SampledOf(Init(part), Init(whole), Init(at))
  {
    var n := |whole| - 1;
    assert whole[n].item.isSampled;
    var k :| 0 <= k < |at| && at[k] == n;
    assert at[|at| - 1] <= n;
    forall i | 0 <= i < n && whole[i].item.isSampled ensures i in Init(at) {
      var l :| 0 <= l < |at| && at[l] == i;
      assert Init(at)[l] == i;
    }
  }

  lemma {:induction false} LastUnsampled(part: TracedToken, whole: TracedToken, at: seq<nat>)
    requires SampledOf(part, whole, at) && whole != [] && !Last(whole).item.isSampled
    ensures SampledOf(part, Init(whole), at)
  {
    forall i | 0 <= i < |whole| - 1 && whole[i].item.isSampled ensures i in at {
    }
  }

  lemma {:induction false} DueSameSpan(token: TracedToken, a: RawSpan, b: RawSpan)
    requires a.id == b.id && a.parentId == b.parentId
    ensures Due(token, a) == Due(token, b)
  {
    if token != [] {
      DueSameSpan(Init(token), a, b);
    }
  }

  lemma {:induction false} NothingDue(token: TracedToken, raw: RawSpan)
    requires !HasSampled(token)
    ensures Due(token, raw) == []
  {
    if token != [] {
      HasSampledNext(token);
      NothingDue(Init(token), raw);
    }
  }

  // Whole runs

  /** Span `id` has been dropped, or its line has been sent. */
  ghost predicate Ended(w: World, id: SpanId) {
    forall p: Place :: At(w, id, p).Some? ==> p.InSent?
  }

  lemma {:induction false} ControlCounts(w: World, i: nat)
    requires Inv(w) && i < |w.sent| && w.sent[i].SentControl?
    ensures SubmitOf(SentCommands(w)[i]) == []
  {
    assert SentGood(w, w.sent[i]);
  }

  /** A message that does not hold a span does not count for it. */
  lemma {:induction false} ElsewhereCounts(w: World, i: nat, x: Labelled)
    requires Inv(w) && i < |w.sent| && forall j :: At(w, x.1.spanId, InSent(i, j)).None?
    ensures multiset(SubmitOf(SentCommands(w)[i]))[x] == 0
  {
    hide Inv, LabelledItems;
    if w.sent[i].SentControl? {
      ControlCounts(w, i);
    } else {
      var spans := w.sent[i].spans;
      forall j | 0 <= j < |SpansOf(spans)| ensures SpansOf(spans)[j].id != x.1.spanId {
        assert At(w, x.1.spanId, InSent(i, j)).None?;
      }
      MessageNothing(spans, Tokens(w.sent[i].token), x);
    }
  }

  lemma {:induction false} SentSampled(w: World, k: nat, id: SpanId, j: nat)
    requires Inv(w) && At(w, id, InSent(k, j)).Some?
    ensures forall t <- w.sent[k].token :: t.item.isSampled
    ensures w.sent[k].spans.Single? && w.sent[k].spans.span.kind.SpanKind? ==> w.sent[k].spans.span.parentId == NO_ID
  {
    assert SentGood(w, w.sent[k]);
  }

  lemma {:induction false} HeldOnlyAt(w: World, k: nat, id: SpanId, j: nat)
    requires Complete(w) && At(w, id, InSent(k, j)).Some?
    ensures OnlyAt(w.sent[k].spans, id, j)
    ensures forall i, l :: i != k ==> At(w, id, InSent(i, l)).None?
  {
    var spans := w.sent[k].spans;
    forall l | 0 <= l < |SpansOf(spans)| && l != j ensures SpansOf(spans)[l].id != id {
      assert OnceAt(w, id, InSent(k, j), InSent(k, l));
    }
    forall i, l | i != k ensures At(w, id, InSent(i, l)).None? {
      assert OnceAt(w, id, InSent(k, j), InSent(i, l));
    }
  }

  /** The one message that holds a span counts for exactly what is due for it. */
  lemma {:induction false} HolderCounts(w: World, k: nat, id: SpanId, j: nat, x: Labelled)
    requires Inv(w) && Complete(w) && At(w, id, InSent(k, j)).Some? && x.1.spanId == id
    requires id in w.made && w.made[id].raw.kind.SpanKind?
    ensures multiset(SubmitOf(SentCommands(w)[k]))[x] == multiset(Due(w.made[id].token, w.made[id].raw))[x]
  {
    hide Inv, Complete, LabelledItems, SampledOf, OnlyAt;
    var sent, made := w.sent[k], w.made[id];
    var raw := SpansOf(sent.spans)[j];
    HeldFaithful(w, id, InSent(k, j));
    SentSampled(w, k, id, j);
    HeldOnlyAt(w, k, id, j);
    MessageDue(sent.spans, j, sent.token, x);
    var at :| SampledOf(sent.token, made.token, at);
    DueSampled(sent.token, made.token, at, raw);
    DueSameSpan(made.token, raw, made.raw);
  }

  /** All that threads have sent counts for what is due for a span that has ended, and for no more than that while it
      has not. */
  lemma {:induction false} SentCounts(w: World, id: SpanId, x: Labelled)
    requires Inv(w) && Complete(w) && x.1.spanId == id && id in w.made && w.made[id].raw.kind.SpanKind?
    ensures var due := multiset(Due(w.made[id].token, w.made[id].raw))[x];
            CountIn(SentCommands(w), x) <= due && (Ended(w, id) ==> CountIn(SentCommands(w), x) == due)
  {
    hide Inv, Complete, SubmitOf, At;
    var commands := SentCommands(w);
    if k: nat, j: nat :| At(w, id, InSent(k, j)).Some? {
      HeldOnlyAt(w, k, id, j);
      forall i | 0 <= i < |commands| && i != k ensures multiset(SubmitOf(commands[i]))[x] == 0 {
        ElsewhereCounts(w, i, x);
      }
      InRange(w, id, k, j);
      OnlyOneCounts(commands, k, x);
      HolderCounts(w, k, id, j, x);
    } else {
      forall i | 0 <= i < |commands| ensures multiset(SubmitOf(commands[i]))[x] == 0 {
        ElsewhereCounts(w, i, x);
      }
      OnlyOneCounts(commands, |commands|, x);
      if Ended(w, id) {
        NowhereDue(w, id);
      }
    }
  }

  lemma {:induction false} InRange(w: World, id: SpanId, k: nat, j: nat)
    requires At(w, id, InSent(k, j)).Some?
    ensures k < |w.sent|
  {
  }

  lemma {:induction false} NowhereDue(w: World, id: SpanId)
    requires Complete(w) && id in w.made && Ended(w, id) && forall k, j :: At(w, id, InSent(k, j)).None?
    ensures Due(w.made[id].token, w.made[id].raw) == []
  {
    hide At, HasSampled, Faithful;
    assert !Somewhere(w, id);
    NothingDue(w.made[id].token, w.made[id].raw);
  }

  /** From the threads to the reporter, with `cancelable` off: whatever order the collector drains the commands of a run
      in, and however it cuts them into batches, a span is reported at most once for each sampled item of the token it
      was made with; and exactly once for each when it has ended and everything that was sent is drained. */
  lemma {:induction false} Delivered(capacity: nat, steps: seq<Step>, w: World, batches: seq<Batch>,
                                     states: seq<map<CollectId, ActiveCollector>>, groups: seq<seq<Group>>, id: SpanId)
    requires Lineage.Reaches(capacity, steps, w) && DrainedFrom(w, batches) && IsRun(false, batches, states, groups)
    requires id in w.made && w.made[id].raw.kind.SpanKind?
    ensures forall x: Labelled :: x.1.spanId == id ==>
              var reported, due := multiset(Reported(groups))[x], multiset(Due(w.made[id].token, w.made[id].raw))[x];
              && reported <= due
              && (Ended(w, id) && multiset(Concat(batches)) == multiset(SentCommands(w)) ==> reported == due)
  {
    hide Inv, Complete, Lineage.Reaches, IsRun, Reported, Submitted, Ended, Due, SentCommands;
    ReachableInv(capacity, steps, w);
    ReachableComplete(capacity, steps, w);
    Conservation(batches, states, groups);
    forall x: Labelled | x.1.spanId == id
      ensures var reported, due := multiset(Reported(groups))[x], multiset(Due(w.made[id].token, w.made[id].raw))[x];
              && reported <= due
              && (Ended(w, id) && multiset(Concat(batches)) == multiset(SentCommands(w)) ==> reported == due)
    {
      CountBatches(batches, x);
      CountMonotone(Concat(batches), SentCommands(w), x);
      SentCounts(w, id, x);
      if multiset(Concat(batches)) == multiset(SentCommands(w)) {
        CountMonotone(SentCommands(w), Concat(batches), x);
      }
    }
  }
}

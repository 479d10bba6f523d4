/** Span ids come from the generator of the thread that creates the span (fastrace/src/collector/id.rs). This discharges
    what the queue and the token protocol assume of new ids: they are not zero and not in use. */
module GeneratedIds {
  import opened Records
  import opened SpanIds
  import SpanQueues
  import Lineage

  /** Fewer than 2^32 consecutive ids of a generator are distinct, and none is zero unless the prefix is zero and the
      suffix wraps around among them. */
  lemma {:induction false} WindowDistinct(prefix: nat, from: nat, to: nat)
    requires prefix < SUFFIX_LIMIT && from <= to < from + SUFFIX_LIMIT
    ensures forall i, j :: from < i < j <= to ==> IdAt(prefix, i) != IdAt(prefix, j)
    ensures (forall i :: from < i <= to ==> IdAt(prefix, i) != 0)
            <==> prefix != 0 || from / SUFFIX_LIMIT == to / SUFFIX_LIMIT
  {
    forall i, j | from < i < j <= to ensures IdAt(prefix, i) != IdAt(prefix, j) {
      IdsCoincide(prefix, i, prefix, j);
      CloseSuffixes(i, j);
    }
    forall i | from < i <= to
      ensures IdAt(prefix, i) == 0 <==> prefix == 0 && i % SUFFIX_LIMIT == 0
      ensures i % SUFFIX_LIMIT == 0 ==> from / SUFFIX_LIMIT != to / SUFFIX_LIMIT
    {
      IdIsZero(prefix, i);
      Wraps(from, i, to);
    }
    if prefix == 0 && from / SUFFIX_LIMIT != to / SUFFIX_LIMIT {
      var i := to / SUFFIX_LIMIT * SUFFIX_LIMIT;
      assert from < i <= to && i % SUFFIX_LIMIT == 0;
    }
  }

  lemma {:induction false} CloseSuffixes(i: nat, j: nat)
    requires i < j < i + SUFFIX_LIMIT
    ensures i % SUFFIX_LIMIT != j % SUFFIX_LIMIT
  {
  }

  lemma {:induction false} Wraps(from: nat, i: nat, to: nat)
    requires from < i <= to
    ensures i % SUFFIX_LIMIT == 0 ==> from / SUFFIX_LIMIT != to / SUFFIX_LIMIT
  {
  }

  // A queue

  /** The handles of a call are well nested; nothing is said of its id. */
  ghost predicate HandlesNested(q: SpanQueues.QueueState, open: seq<nat>, op: SpanQueues.Op) {
    match op
    case Finish(handle, _) => open != [] && handle == Last(open) && handle < |q.spans|
    case WithProperties(handle, _) => handle < |q.spans| && q.spans[handle].kind.SpanKind?
    case _ => true
  }

  predicate TakesId(op: SpanQueues.Op) {
    op.Start? || op.AddEvent? || op.AddProperties?
  }

  /** One call, whose id is drawn at position `p`; other uses of the thread's generator may lie in between. A full queue
      draws nothing. */
  ghost predicate DrawnStep(prefix: nat, to: nat, capacity: nat, op: SpanQueues.Op, p: nat, q0: SpanQueues.QueueState,
                            open0: seq<nat>, last0: nat, q: SpanQueues.QueueState, open: seq<nat>, last: nat)
  {
    && HandlesNested(q0, open0, op)
    && (TakesId(op) ==> last0 < p <= to && op.id == IdAt(prefix, p))
    && q == SpanQueues.AfterOp(q0, capacity, op) && open == SpanQueues.OpenAfter(q0, capacity, open0, op)
    && last == if TakesId(op) && |q0.spans| < capacity then p else last0
  }

  /** A run on one queue with ids from the generator, the first of them after position `from`, the newest at `last`. The
      window of positions that it looks at ends at `to`. */
  ghost predicate DrawnRun(prefix: nat, from: nat, to: nat, capacity: nat, ops: seq<SpanQueues.Op>,
                           q: SpanQueues.QueueState, open: seq<nat>, last: nat)
    decreases |ops|
  {
    if ops == [] then q == SpanQueues.QueueState([], None) && open == [] && last == from
    else
      exists q0, open0, last0, p: nat ::
        && DrawnRun(prefix, from, to, capacity, Init(ops), q0, open0, last0)
        && DrawnStep(prefix, to, capacity, Last(ops), p, q0, open0, last0, q, open, last)
  }

  ghost predicate DrawnIds(prefix: nat, from: nat, q: SpanQueues.QueueState, last: nat) {
    from <= last && forall i :: 0 <= i < |q.spans| ==> DrawnBy(prefix, from, q.spans[i].id, last)
  }

  ghost predicate DrawnBy(prefix: nat, from: nat, id: SpanId, last: nat) {
    exists p :: from < p <= last && id == IdAt(prefix, p)
  }

  lemma {:induction false} NewIdUnused(prefix: nat, from: nat, to: nat, q: SpanQueues.QueueState, last: nat, p: nat)
    requires prefix < SUFFIX_LIMIT && to < from + SUFFIX_LIMIT
    requires prefix != 0 || from / SUFFIX_LIMIT == to / SUFFIX_LIMIT
    requires DrawnIds(prefix, from, q, last) && last < p <= to
    ensures IdAt(prefix, p) != NO_ID && IdAt(prefix, p) !in SpanQueues.IdsIn(q.spans)
  {
    WindowDistinct(prefix, from, to);
    forall s <- q.spans ensures s.id != IdAt(prefix, p) {
      var i :| 0 <= i < |q.spans| && q.spans[i] == s;
      assert DrawnBy(prefix, from, q.spans[i].id, last);
    }
  }

  lemma {:induction false} DrawnStepKeeps(prefix: nat, from: nat, to: nat, capacity: nat, op: SpanQueues.Op, p: nat,
                                          q0: SpanQueues.QueueState, open0: seq<nat>, last0: nat,
                                          q: SpanQueues.QueueState, open: seq<nat>, last: nat)
    requires DrawnIds(prefix, from, q0, last0)
    requires DrawnStep(prefix, to, capacity, op, p, q0, open0, last0, q, open, last)
    ensures DrawnIds(prefix, from, q, last)
  {
    forall i | 0 <= i < |q.spans| ensures DrawnBy(prefix, from, q.spans[i].id, last) {
      if i < |q0.spans| {
        assert q.spans[i].id == q0.spans[i].id && DrawnBy(prefix, from, q0.spans[i].id, last0);
      }
    }
  }

  /** Every run on a queue that draws its ids from a generator is well nested, provided its handles are: all results
      about reachable queues hold of it. */
  lemma {:induction false} DrawnReaches(prefix: nat, from: nat, to: nat, capacity: nat, ops: seq<SpanQueues.Op>,
                                        q: SpanQueues.QueueState, open: seq<nat>, last: nat)
    requires prefix < SUFFIX_LIMIT && from <= to < from + SUFFIX_LIMIT
    requires prefix != 0 || from / SUFFIX_LIMIT == to / SUFFIX_LIMIT
    requires DrawnRun(prefix, from, to, capacity, ops, q, open, last)
    ensures SpanQueues.Reaches(capacity, ops, q, open) && DrawnIds(prefix, from, q, last)
    decreases |ops|
  {
    hide SpanQueues.AfterOp, SpanQueues.OpenAfter, IdAt, DrawnIds, SpanQueues.IdsIn;
    if ops == [] {
      NothingDrawn(prefix, from);
    } else {
      var q0, open0, last0, p: nat :|
        && DrawnRun(prefix, from, to, capacity, Init(ops), q0, open0, last0)
        && DrawnStep(prefix, to, capacity, Last(ops), p, q0, open0, last0, q, open, last);
      DrawnReaches(prefix, from, to, capacity, Init(ops), q0, open0, last0);
      DrawnStepKeeps(prefix, from, to, capacity, Last(ops), p, q0, open0, last0, q, open, last);
      if TakesId(Last(ops)) {
        NewIdUnused(prefix, from, to, q0, last0, p);
      }
      assert SpanQueues.WellNested(q0, open0, Last(ops));
    }
  }

  lemma {:induction false} NothingDrawn(prefix: nat, from: nat)
    ensures DrawnIds(prefix, from, SpanQueues.QueueState([], None), from)
  {
  }

  // All threads together

  type Prefixes = map<nat, nat>

  /** Each thread has a prefix of its own. */
  ghost predicate Apart(prefixes: Prefixes) {
    && (forall t <- prefixes :: prefixes[t] < SUFFIX_LIMIT)
    && forall t, u :: t in prefixes && u in prefixes && t != u ==> prefixes[t] != prefixes[u]
  }

  function Issued(issued: map<nat, nat>, t: nat): nat {
    if t in issued then issued[t] else 0
  }

  /** A step whose new id is the thread's next one or a later one. Each thread draws fewer than 2^32 ids. */
  ghost predicate Drawn(prefixes: Prefixes, issued: map<nat, nat>, step: Lineage.Step, p: nat) {
    && step.thread in prefixes
    && (Lineage.NewId(step).Some? ==>
          Issued(issued, step.thread) < p < SUFFIX_LIMIT && Lineage.NewId(step).value == IdAt(prefixes[step.thread], p))
  }

  /** A run of all threads with ids from their generators. `issued` is the newest position used by each thread; a call
      that records nothing, because its queue is full, draws nothing. */
  ghost predicate DrawnWorld(capacity: nat, prefixes: Prefixes, steps: seq<Lineage.Step>, w: Lineage.World,
                             issued: map<nat, nat>)
    decreases |steps|
  {
    if steps == [] then w == Lineage.EMPTY_WORLD && issued == map[]
    else
      exists w0, issued0, p: nat ::
        && DrawnWorld(capacity, prefixes, Init(steps), w0, issued0)
        && Lineage.Permitted(w0, Last(steps)) && Drawn(prefixes, issued0, Last(steps), p)
        && w == Lineage.Next(w0, Last(steps), capacity)
        && (issued == issued0[Last(steps).thread := p] || (issued == issued0 && (w.born, w.made) == (w0.born, w0.made)))
        && (Lineage.NewId(Last(steps)) == None ==> issued == issued0)
  }

  ghost predicate BornDrawn(prefixes: Prefixes, issued: map<nat, nat>, w: Lineage.World) {
    forall id <- w.born.Keys + w.made.Keys :: IdDrawn(prefixes, issued, id)
  }

  ghost predicate IdDrawn(prefixes: Prefixes, issued: map<nat, nat>, id: SpanId) {
    exists t, p: nat :: t in prefixes && 1 <= p <= Issued(issued, t) && p < SUFFIX_LIMIT && id == IdAt(prefixes[t], p)
  }

  /** The next id of a thread is not zero and was not given to any span before, by whatever thread. */
  lemma {:induction false} DrawnIsFresh(prefixes: Prefixes, issued: map<nat, nat>, w: Lineage.World, step: Lineage.Step,
                                        p: nat)
    requires Apart(prefixes) && BornDrawn(prefixes, issued, w) && Drawn(prefixes, issued, step, p)
    requires Lineage.NewId(step).Some?
    ensures Lineage.Fresh(w, Lineage.NewId(step).value)
  {
    IdIsZero(prefixes[step.thread], p);
    forall id <- w.born.Keys + w.made.Keys ensures id != Lineage.NewId(step).value {
      LaterDiffers(prefixes, issued, id, step.thread, p);
    }
    var newId := Lineage.NewId(step).value;
    assert newId !in w.born.Keys + w.made.Keys;
  }

  lemma {:induction false} LaterDiffers(prefixes: Prefixes, issued: map<nat, nat>, id: SpanId, t: nat, p: nat)
    requires Apart(prefixes) && IdDrawn(prefixes, issued, id)
    requires t in prefixes && Issued(issued, t) < p < SUFFIX_LIMIT
    ensures id != IdAt(prefixes[t], p)
  {
    hide IdAt;
    var u, o: nat :| u in prefixes && 1 <= o <= Issued(issued, u) && o < SUFFIX_LIMIT && id == IdAt(prefixes[u], o);
    IdsCoincide(prefixes[t], p, prefixes[u], o);
  }

  lemma {:induction false} OnlyNewIdBorn(w: Lineage.World, step: Lineage.Step, capacity: nat)
    requires Lineage.Enabled(w, step)
    ensures var w' := Lineage.Next(w, step, capacity);
            && (forall id <- w'.born.Keys + w'.made.Keys ::
                  id in w.born.Keys + w.made.Keys || Lineage.NewId(step) == Some(id))
            && (Lineage.NewId(step) == None ==> (w'.born, w'.made) == (w.born, w.made))
  {
    hide SpanQueues.AfterOp, Lineage.Issue, Lineage.IssueAll, Lineage.CurrentToken, Lineage.Sampled;
  }

  lemma {:induction false} BornStaysDrawn(prefixes: Prefixes, issued: map<nat, nat>, w: Lineage.World,
                                          step: Lineage.Step,
                                          p: nat, w': Lineage.World, issued': map<nat, nat>)
    requires BornDrawn(prefixes, issued, w) && Drawn(prefixes, issued, step, p)
    requires forall id <- w'.born.Keys + w'.made.Keys ::
               id in w.born.Keys + w.made.Keys || Lineage.NewId(step) == Some(id)
    requires issued' == issued[step.thread := p] || (issued' == issued && (w'.born, w'.made) == (w.born, w.made))
    requires Lineage.NewId(step) == None ==> issued' == issued
    ensures BornDrawn(prefixes, issued', w')
  {
    hide IdAt;
    forall id <- w'.born.Keys + w'.made.Keys ensures IdDrawn(prefixes, issued', id) {
      if id in w.born.Keys + w.made.Keys {
        assert IdDrawn(prefixes, issued, id);
        var u, o: nat :| u in prefixes && 1 <= o <= Issued(issued, u) && o < SUFFIX_LIMIT && id == IdAt(prefixes[u], o);
        assert 1 <= o <= Issued(issued', u);
      } else {
        assert 1 <= p <= Issued(issued', step.thread);
      }
    }
  }

  /** Every run of all threads that draws its ids from generators with different prefixes, fewer than 2^32 a thread,
      is a run of the token protocol: new ids are fresh, so that all results about reachable worlds hold of it. */
  lemma {:induction false} DrawnWorldReaches(capacity: nat, prefixes: Prefixes, steps: seq<Lineage.Step>,
                                             w: Lineage.World, issued: map<nat, nat>)
    requires Apart(prefixes) && DrawnWorld(capacity, prefixes, steps, w, issued)
    ensures Lineage.Reaches(capacity, steps, w) && BornDrawn(prefixes, issued, w)
    decreases |steps|
  {
    hide Apart, Drawn, BornDrawn, Lineage.Permitted, Lineage.Next, Lineage.Fresh, Lineage.NewId;
    if steps == [] {
      NobodyBorn(prefixes);
    } else {
      var step := Last(steps);
      var w0, issued0, p: nat :|
        && DrawnWorld(capacity, prefixes, Init(steps), w0, issued0)
        && Lineage.Permitted(w0, step) && Drawn(prefixes, issued0, step, p)
        && w == Lineage.Next(w0, step, capacity)
        && (issued == issued0[step.thread := p] || (issued == issued0 && (w.born, w.made) == (w0.born, w0.made)))
        && (Lineage.NewId(step) == None ==> issued == issued0);
      DrawnWorldReaches(capacity, prefixes, Init(steps), w0, issued0);
      if Lineage.NewId(step).Some? {
        DrawnIsFresh(prefixes, issued0, w0, step, p);
      }
      OnlyNewIdBorn(w0, step, capacity);
      BornStaysDrawn(prefixes, issued0, w0, step, p, w, issued);
    }
  }

  lemma {:induction false} NobodyBorn(prefixes: Prefixes)
    ensures BornDrawn(prefixes, map[], Lineage.EMPTY_WORLD)
  {
  }
}

/** `JaegerReporter::try_report` of fastrace-jaeger/src/lib.rs: spans are sent in UDP datagrams below a size limit,
    and the number of spans in a datagram is halved whenever one turns out too large. */
module Jaeger {
  import opened Records

  const MAX_UDP_PACKAGE_SIZE := 8000

  /** Converting and encoding a batch gives a number of bytes, or an error. */
  type Encoder<!T> = seq<T> -> Option<nat>

  predicate Fits<T>(encode: Encoder<T>, batch: seq<T>) {
    encode(batch).Some? && encode(batch).value < MAX_UDP_PACKAGE_SIZE
  }

  /** The elements of `s` whose flag is set. */
  function Select<T>(s: seq<T>, flags: seq<bool>): seq<T>
    requires |s| == |flags|
  {
    if s == [] then [] else Select(Init(s), Init(flags)) + (if Last(flags) then [Last(s)] else [])
  }

  /** The spans that fit into a datagram of their own. */
  function Sendable<T>(encode: Encoder<T>, spans: seq<T>): seq<T> {
    if spans == [] then []
    else Sendable(encode, Init(spans)) + (if Fits(encode, [Last(spans)]) then [Last(spans)] else [])
  }

  function Log2(n: nat): nat {
    if n <= 1 then 0 else 1 + Log2(n / 2)
  }

  function Pow2(n: nat): nat {
    if n == 0 then 1 else 2 * Pow2(n - 1)
  }

  /** `Log2` is the binary logarithm, rounded down. */
  lemma {:induction false} Log2Bounds(n: nat)
    requires n >= 1
    ensures Pow2(Log2(n)) <= n < Pow2(Log2(n) + 1)
  {
    if n > 1 {
      Log2Bounds(n / 2);
    }
  }

  /** A consecutive batch that fits has only members that would fit alone. An encoder whose output for a batch is
      at least as long as for each of its members has this property. */
  ghost predicate BatchesBoundMembers<T>(encode: Encoder<T>, spans: seq<T>) {
    forall lo, i, hi {:trigger spans[lo..hi], spans[i]} ::
      0 <= lo <= i < hi <= |spans| && Fits(encode, spans[lo..hi]) ==> Fits(encode, [spans[i]])
  }

  lemma {:induction false} SelectConcat<T>(a: seq<T>, f: seq<bool>, b: seq<T>, g: seq<bool>)
    requires |a| == |f| && |b| == |g|
    ensures Select(a + b, f + g) == Select(a, f) + Select(b, g)
  {
    if b == [] {
      assert a + b == a && f + g == f;
    } else {
      assert Init(a + b) == a + Init(b) && Init(f + g) == f + Init(g);
      SelectConcat(a, f, Init(b), Init(g));
    }
  }

  lemma {:induction false} SelectAll<T>(s: seq<T>, flags: seq<bool>)
    requires |s| == |flags| && forall i :: 0 <= i < |flags| ==> flags[i]
    ensures Select(s, flags) == s
  {
    if s != [] {
      SelectAll(Init(s), Init(flags));
      assert s == Init(s) + [Last(s)];
    }
  }

  lemma {:induction false} SelectSendable<T>(encode: Encoder<T>, s: seq<T>, flags: seq<bool>)
    requires |s| == |flags| && forall i :: 0 <= i < |s| ==> (flags[i] <==> Fits(encode, [s[i]]))
    ensures Select(s, flags) == Sendable(encode, s)
  {
    if s != [] {
      SelectSendable(encode, Init(s), Init(flags));
    }
  }

  function Flags(n: nat, value: bool): seq<bool> {
    seq(n, _ => value)
  }

  /** Datagrams `sent` so far, with flags for the spans dealt with so far: each one was sent once and in order, unless
      it is too large for any datagram. */
  ghost predicate Progress<T>(encode: Encoder<T>, spans: seq<T>, sent: seq<seq<T>>, kept: seq<bool>) {
    && (forall batch <- sent :: batch != [] && Fits(encode, batch))
    && |kept| <= |spans| && Flatten(sent) == Select(spans[..|kept|], kept)
    && (forall i :: 0 <= i < |kept| && !kept[i] ==> !Fits(encode, [spans[i]]))
    && (BatchesBoundMembers(encode, spans) ==> forall i :: 0 <= i < |kept| && kept[i] ==> Fits(encode, [spans[i]]))
  }

  lemma {:induction false} NoProgress<T>(encode: Encoder<T>, spans: seq<T>)
    ensures Progress(encode, spans, [], [])
  {
  }

  lemma {:induction false} SkipOne<T>(encode: Encoder<T>, spans: seq<T>, sent: seq<seq<T>>, kept: seq<bool>)
    requires Progress(encode, spans, sent, kept) && |kept| < |spans| && !Fits(encode, [spans[|kept|]])
    ensures Progress(encode, spans, sent, kept + [false])
  {
    var span := [spans[|kept|]];
    assert spans[..|kept| + 1] == spans[..|kept|] + span;
    SelectConcat(spans[..|kept|], kept, span, [false]);
    assert Select(span, [false]) == [] by { assert Init(span) == []; }
  }

  lemma {:induction false} SendBatch<T>(encode: Encoder<T>, spans: seq<T>, sent: seq<seq<T>>, kept: seq<bool>, n: nat)
    requires Progress(encode, spans, sent, kept) && 0 < n <= |spans| - |kept|
    requires Fits(encode, spans[|kept|..|kept| + n])
    ensures Progress(encode, spans, sent + [spans[|kept|..|kept| + n]], kept + Flags(n, true))
  {
    hide Select, Flatten, Fits, BatchesBoundMembers;
    var batch := spans[|kept|..|kept| + n];
    assert spans[..|kept| + n] == spans[..|kept|] + batch;
    SelectConcat(spans[..|kept|], kept, batch, Flags(n, true));
    SelectAll(batch, Flags(n, true));
    FlattenAppend(sent, batch);
    if BatchesBoundMembers(encode, spans) {
      MembersFit(encode, spans, |kept|, |kept| + n);
    }
  }

  lemma {:induction false} MembersFit<T>(encode: Encoder<T>, spans: seq<T>, lo: nat, hi: nat)
    requires BatchesBoundMembers(encode, spans) && lo <= hi <= |spans| && Fits(encode, spans[lo..hi])
    ensures forall i :: lo <= i < hi ==> Fits(encode, [spans[i]])
  {
    hide Fits;
  }

  /** When batches bound their members, the spans sent are exactly those that fit alone. */
  lemma {:induction false} SentAreSendable<T>(encode: Encoder<T>, spans: seq<T>, sent: seq<seq<T>>, kept: seq<bool>)
    requires Progress(encode, spans, sent, kept) && BatchesBoundMembers(encode, spans)
    ensures Flatten(sent) == Sendable(encode, spans[..|kept|])
  {
    SelectSendable(encode, spans[..|kept|], kept);
  }

  lemma {:induction false} Halving(n: nat)
    requires n >= 2
    ensures 1 <= n / 2 < n && Log2(n) == 1 + Log2(n / 2)
  {
  }

  /** `sent` are the datagrams handed to the socket, `delivers(k)` says whether the socket accepts the k-th.
      `kept` flags the spans dealt with that were sent; the others were dropped. */
  method TryReport<T>(spans: seq<T>, encode: Encoder<T>, delivers: nat -> bool)
    returns (ok: bool, sent: seq<seq<T>>, ghost kept: seq<bool>, ghost iterations: nat)
    // At most one iteration a span, and one more for each halving.
    ensures iterations <= |spans| + Log2(|spans|)
    ensures forall batch <- sent :: batch != [] && encode(batch).Some? && encode(batch).value < 8000
    ensures forall k :: 0 <= k < |sent| ==> delivers(k)
    ensures Progress(encode, spans, sent, kept)
    ensures BatchesBoundMembers(encode, spans) ==> Flatten(sent) == Sendable(encode, spans[..|kept|])
    // Spans that fit together share one datagram. Otherwise no datagram holds more spans than the one before, and each
    // but the last is only as small as it is because about twice as many spans were too large somewhere.
    ensures spans != [] && Fits(encode, spans) && delivers(0) ==> ok && sent == [spans]
    ensures forall k :: 0 <= k < |sent| - 1 ==>
              || |sent[k]| == |spans|
              || exists lo, hi ::
                   0 <= lo < hi <= |spans| && hi - lo <= 2 * |sent[k]| + 1 && !Fits(encode, spans[lo..hi])
    ensures forall j, k :: 0 <= j < k < |sent| ==> |sent[j]| >= |sent[k]|
    // All spans are dealt with exactly when no batch fails to encode and the socket accepts every datagram.
    ensures ok ==> |kept| == |spans|
    ensures !ok ==> |kept| < |spans|
    ensures !ok && delivers(|sent|) ==> exists hi :: |kept| < hi <= |spans| && encode(spans[|kept|..hi]).None?
  {
    hide Progress, Sendable, Flatten, Log2, Flags, BatchesBoundMembers, Sizes, SizeDue, Together;
    Untouched(encode, spans);
    var spansPerBatch: nat := |spans|;
    var sentSpans := 0;
    ok, sent, kept, iterations := true, [], [], 0;
    NoProgress(encode, spans);
    while sentSpans < |spans|
      invariant sentSpans == |kept| <= |spans|
      invariant spansPerBatch <= |spans| && (|spans| > 0 ==> 1 <= spansPerBatch)
      invariant iterations + Log2(spansPerBatch) <= sentSpans + Log2(|spans|)
      invariant forall k :: 0 <= k < |sent| ==> delivers(k)
      invariant SizeDue(encode, spans, spansPerBatch)
      invariant Sizes(encode, spans, sent, spansPerBatch, sentSpans == |spans|)
      invariant Fits(encode, spans) ==> Together(spans, sent, sentSpans, spansPerBatch)
      invariant Progress(encode, spans, sent, kept)
      decreases |spans| - sentSpans, spansPerBatch
    {
      iterations := iterations + 1;
      var batchSize := if spansPerBatch < |spans| - sentSpans then spansPerBatch else |spans| - sentSpans;
      var batch := spans[sentSpans..sentSpans + batchSize];
      var bytes := encode(batch);
      if Fits(encode, spans) {
        OneBatch(spans, sent, sentSpans, spansPerBatch);
      }
      if bytes.None? {
        ok := false;
        break;
      }
      if bytes.value >= MAX_UDP_PACKAGE_SIZE {
        if batchSize <= 1 {
          assert batch == [spans[sentSpans]];
          SkipOne(encode, spans, sent, kept);
          FewerSizes(encode, spans, sent, spansPerBatch, spansPerBatch, sentSpans + 1 == |spans|);
          kept := kept + [false];
          sentSpans := sentSpans + 1;
        } else {
          Halving(spansPerBatch);
          FewerSizes(encode, spans, sent, spansPerBatch, spansPerBatch / 2, false);
          HalfDue(encode, spans, sentSpans, sentSpans + batchSize, spansPerBatch);
          spansPerBatch := spansPerBatch / 2;
        }
        continue;
      }
      if !delivers(|sent|) {
        ok := false;
        break;
      }
      SendBatch(encode, spans, sent, kept, batchSize);
      MoreSizes(encode, spans, sent, batch, spansPerBatch, sentSpans + batchSize == |spans|);
      sent := sent + [batch];
      FlagCount(batchSize);
      kept := kept + Flags(batchSize, true);
      sentSpans := sentSpans + batchSize;
    }
    EachFits(encode, spans, sent, kept);
    SizesMean(encode, spans, sent, spansPerBatch, sentSpans == |spans|);
    if spans != [] && Fits(encode, spans) {
      OneDatagram(spans, sent, sentSpans, spansPerBatch);
    }
    if BatchesBoundMembers(encode, spans) {
      SentAreSendable(encode, spans, sent, kept);
    }
  }

  lemma {:induction false} Untouched<T>(encode: Encoder<T>, spans: seq<T>)
    ensures Together(spans, [], 0, |spans|)
    ensures Sizes(encode, spans, [], |spans|, |spans| == 0) && SizeDue(encode, spans, |spans|)
  {
  }

  /** Spans that fit together are sent together. */
  ghost predicate Together<T>(spans: seq<T>, sent: seq<seq<T>>, n: nat, size: nat) {
    size == |spans| && (spans != [] ==> (n == 0 && sent == []) || (n == |spans| && sent == [spans]))
  }

  lemma {:induction false} OneBatch<T>(spans: seq<T>, sent: seq<seq<T>>, n: nat, size: nat)
    requires Together(spans, sent, n, size) && n < |spans|
    ensures n == 0 && size == |spans| && spans[0..|spans|] == spans && sent == []
    ensures Together(spans, sent + [spans], |spans|, size)
  {
  }

  lemma {:induction false} OneDatagram<T>(spans: seq<T>, sent: seq<seq<T>>, n: nat, size: nat)
    requires Together(spans, sent, n, size) && spans != []
    ensures n == |spans| ==> sent == [spans]
    ensures n != |spans| ==> sent == []
  {
  }

  /** No more than `n` consecutive spans were too many for a datagram. */
  ghost predicate TooLarge<T>(encode: Encoder<T>, spans: seq<T>, n: nat) {
    exists lo, hi :: 0 <= lo < hi <= |spans| && hi - lo <= n && !Fits(encode, spans[lo..hi])
  }

  /** Datagrams of this size are due: that of all spans, unless about twice the size was too large somewhere. */
  ghost predicate SizeDue<T>(encode: Encoder<T>, spans: seq<T>, size: nat) {
    size == |spans| || TooLarge(encode, spans, 2 * size + 1)
  }

  /** All datagrams so far, up to the last one when it was the rest, have a size that was due, and at least `size`. */
  ghost predicate Sizes<T>(encode: Encoder<T>, spans: seq<T>, sent: seq<seq<T>>, size: nat, done: bool) {
    && (forall k :: 0 <= k < |sent| && (!done || k < |sent| - 1) ==>
          |sent[k]| >= size && SizeDue(encode, spans, |sent[k]|))
    && (forall j, k :: 0 <= j < k < |sent| ==> |sent[j]| >= |sent[k]|)
  }

  lemma {:induction false} MoreSizes<T>(encode: Encoder<T>, spans: seq<T>, sent: seq<seq<T>>, batch: seq<T>, size: nat,
                                        done: bool)
    requires Sizes(encode, spans, sent, size, false) && SizeDue(encode, spans, size)
    requires |batch| <= size && (!done ==> |batch| == size)
    ensures Sizes(encode, spans, sent + [batch], size, done)
  {
    hide SizeDue;
  }

  lemma {:induction false} FewerSizes<T>(encode: Encoder<T>, spans: seq<T>, sent: seq<seq<T>>, size: nat, less: nat,
                                         done: bool)
    requires Sizes(encode, spans, sent, size, false) && less <= size
    ensures Sizes(encode, spans, sent, less, done)
  {
    hide SizeDue;
  }

  lemma {:induction false} HalfDue<T>(encode: Encoder<T>, spans: seq<T>, lo: nat, hi: nat, size: nat)
    requires lo < hi <= |spans| && hi - lo <= size && !Fits(encode, spans[lo..hi])
    ensures SizeDue(encode, spans, size / 2)
  {
    hide Fits;
  }

  lemma {:induction false} SizesMean<T>(encode: Encoder<T>, spans: seq<T>, sent: seq<seq<T>>, size: nat, done: bool)
    requires Sizes(encode, spans, sent, size, done)
    ensures forall k :: 0 <= k < |sent| - 1 ==>
              || |sent[k]| == |spans|
              || exists lo, hi ::
                   0 <= lo < hi <= |spans| && hi - lo <= 2 * |sent[k]| + 1 && !Fits(encode, spans[lo..hi])
    ensures forall j, k :: 0 <= j < k < |sent| ==> |sent[j]| >= |sent[k]|
  {
    forall k | 0 <= k < |sent| - 1
      ensures |sent[k]| == |spans| || TooLarge(encode, spans, 2 * |sent[k]| + 1)
    {
      assert SizeDue(encode, spans, |sent[k]|);
    }
  }

  lemma {:induction false} FlagCount(n: nat)
    ensures |Flags(n, true)| == n
  {
  }

  lemma {:induction false} EachFits<T>(encode: Encoder<T>, spans: seq<T>, sent: seq<seq<T>>, kept: seq<bool>)
    requires Progress(encode, spans, sent, kept)
    ensures forall batch <- sent :: batch != [] && Fits(encode, batch)
  {
  }
}

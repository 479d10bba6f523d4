/** The values that travel through the tracing pipeline: raw spans as a thread records them,
    tokens that route them to traces, commands sent to the collector, and the records handed
    to the reporter. */
module Records {
  datatype Option<+T> = None | Some(value: T)

  type SpanId = nat
  type TraceId = nat
  type CollectId = nat
  type Instant = nat
  type Properties = seq<(string, string)>

  /** Turns a monotonic instant into Unix nanoseconds. The conversion is uninterpreted. */
  type Anchor = Instant -> nat

  // `SpanId::default()`: the parent id of a span that is a root within its span set.
  const NO_ID: SpanId := 0

  // `Instant::ZERO`: the end instant of a span that was never finished.
  const ZERO: Instant := 0

  datatype RawKind = SpanKind | EventKind | PropertiesKind

  datatype RawSpan = RawSpan(id: SpanId, parentId: SpanId, begin: Instant, name: string,
                             properties: Option<Properties>, kind: RawKind, end: Instant)
  {
    function OwnProperties(): Properties {
      if properties.Some? then properties.value else []
    }

    /** `get_or_insert_with(default).extend(more)`. */
    function Extended(more: Properties): RawSpan {
      this.(properties := Some(OwnProperties() + more))
    }
  }

  function BeginWith(id: SpanId, parentId: SpanId, begin: Instant, name: string, kind: RawKind): RawSpan {
    RawSpan(id, parentId, begin, name, None, kind, ZERO)
  }

  datatype LocalSpans = LocalSpans(spans: seq<RawSpan>, endTime: Instant)

  datatype SpanSet =
    | Single(span: RawSpan)
    | Local(local: LocalSpans)
    | SharedLocal(local: LocalSpans)

  datatype TokenItem = TokenItem(traceId: TraceId, parentId: SpanId, collectId: CollectId,
                                 isRoot: bool, isSampled: bool)

  type CollectToken = seq<TokenItem>

  datatype SpanContext = SpanContext(traceId: TraceId, spanId: SpanId, sampled: bool)

  datatype EventRecord = EventRecord(name: string, timestamp: nat, properties: Properties)

  datatype SpanRecord = SpanRecord(traceId: TraceId, spanId: SpanId, parentId: SpanId,
                                   beginTime: nat, duration: nat, name: string,
                                   properties: Properties, events: seq<EventRecord>)

  datatype Command =
    | StartCollect(collectId: CollectId)
    | DropCollect(collectId: CollectId)
    | CommitCollect(collectId: CollectId)
    | SubmitSpans(spans: SpanSet, token: CollectToken)

  datatype SpanCollection =
    | Owned(spans: SpanSet, traceId: TraceId, parentId: SpanId)
    | Shared(spans: SpanSet, traceId: TraceId, parentId: SpanId)

  function SaturatingSub(a: nat, b: nat): nat {
    if a < b then 0 else a - b
  }

  function Last<T>(s: seq<T>): T
    requires s != []
  {
    s[|s| - 1]
  }

  function Init<T>(s: seq<T>): seq<T>
    requires s != []
  {
    s[..|s| - 1]
  }

  lemma {:induction false} InitOfConcat<T>(a: seq<T>, b: seq<T>)
    requires b != []
    ensures Init(a + b) == a + Init(b) && Last(a + b) == Last(b)
  {
  }

  lemma {:induction false} InitOfPrefix<T>(s: seq<T>, n: nat)
    requires 0 < n <= |s|
    ensures Init(s[..n]) == s[..n - 1] && Last(s[..n]) == s[n - 1]
  {
  }

  function Flatten<T>(batches: seq<seq<T>>): seq<T> {
    if batches == [] then [] else Flatten(Init(batches)) + Last(batches)
  }

  lemma {:induction false} FlattenAppend<T>(batches: seq<seq<T>>, batch: seq<T>)
    ensures Flatten(batches + [batch]) == Flatten(batches) + batch
  {
    assert Init(batches + [batch]) == batches;
  }
}

/** A whole flush of the rt-trace crate, from the ring of the global consumer (rt-trace/src/consumer.rs) to the bytes
    of the Perfetto reporter (rt-trace/src/backend/perfetto.rs): every batch that the queues emit fits the packet
    buffer. */
module RtReport {
  import opened Records
  import opened Perfetto
  import RtTrace

  /** The buffer holds every batch of up to the batch size exactly as long as no more than twice as many descriptors
      come with it. */
  lemma {:induction false} BatchesFitExactly(descriptors: nat)
    ensures (forall spans: nat :: spans <= RtTrace.DEFAULT_BATCH_SIZE ==> PacketCount(descriptors, spans) <= BUF_SIZE)
            <==> descriptors <= 2 * RtTrace.DEFAULT_BATCH_SIZE
  {
    if descriptors > 2 * RtTrace.DEFAULT_BATCH_SIZE {
      assert PacketCount(descriptors, RtTrace.DEFAULT_BATCH_SIZE) > BUF_SIZE;
    }
  }

  function PacketCount(descriptors: nat, spans: nat): nat {
    descriptors + 2 * spans
  }

  /** What one report describes: the packets behind its bytes and the descriptors among them. */
  datatype Written = Written(packets: seq<Packet>, descriptors: seq<RtSpan>)

  ghost predicate Reports(output: seq<bv8>, written: Written, spans: seq<RtSpan>, pid: int, anchor: Anchor,
                          encode: Encoder)
  {
    output == encode(written.packets) && Layout(written.packets, written.descriptors, spans, pid, anchor)
  }

  function DescriptorsIn(written: seq<Written>): seq<RtSpan> {
    if written == [] then [] else DescriptorsIn(Init(written)) + Last(written).descriptors
  }

  lemma {:induction false} DescriptorsAppend(written: seq<Written>, more: Written)
    ensures DescriptorsIn(written + [more]) == DescriptorsIn(written) + more.descriptors
  {
    assert Init(written + [more]) == written;
  }

  /** One batch fits: all unchecked indices of its report are in range. */
  method WriteBatch(pool: Pool, store: DescriptorStore, batch: seq<RtSpan>, pid: int, anchor: Anchor, encode: Encoder)
    returns (output: seq<bv8>, ghost report: Written)
    requires pool.Valid() && store.Valid() && |store.Unflushed()| <= 2 * RtTrace.DEFAULT_BATCH_SIZE
    requires |batch| <= RtTrace.DEFAULT_BATCH_SIZE && forall span <- batch :: span.typ.IsSlice()
    modifies pool`objects, pool`buffer, store, pool.Owned(), pool.Stores()
    ensures pool.Valid() && store.Valid() && store.Unflushed() == {}
    ensures Reports(output, report, batch, pid, anchor, encode)
    ensures store.drained == old(store.drained) + report.descriptors
    ensures multiset(report.descriptors) == multiset(old(store.Unflushed()))
    ensures forall v <- old(pool.Owned()) :: v in pool.Owned()
    ensures forall v <- pool.Owned() :: v in old(pool.Owned()) || fresh(v)
    ensures forall a <- pool.Stores() :: a in old(pool.Stores()) || fresh(a)
  {
    hide Layout, UnflushedIn, DrainedOnce, Pool.Valid, DescriptorStore.Valid;
    BatchesFitExactly(2 * RtTrace.DEFAULT_BATCH_SIZE);
    assert PacketCount(2 * RtTrace.DEFAULT_BATCH_SIZE, |batch|) <= BUF_SIZE;
    ghost var ds, packets;
    output, ds, packets := Consume(pool, store, batch, pid, anchor, encode);
    report := Written(packets, ds);
  }

  lemma {:induction false} NoDescriptors()
    ensures DescriptorsIn([]) == []
  {
  }

  /** Each batch fits: all unchecked indices of its report are in range. */
  method WriteBatches(pool: Pool, store: DescriptorStore, batches: seq<seq<RtSpan>>, pid: int, anchor: Anchor,
                      encode: Encoder)
    returns (outputs: seq<seq<bv8>>, ghost written: seq<Written>)
    requires pool.Valid() && store.Valid() && |store.Unflushed()| <= 2 * RtTrace.DEFAULT_BATCH_SIZE
    requires forall batch <- batches ::
               |batch| <= RtTrace.DEFAULT_BATCH_SIZE && forall span <- batch :: span.typ.IsSlice()
    modifies pool`objects, pool`buffer, store, pool.Owned(), pool.Stores()
    ensures pool.Valid() && store.Valid() && |outputs| == |written| == |batches|
    ensures forall k :: 0 <= k < |outputs| ==> Reports(outputs[k], written[k], batches[k], pid, anchor, encode)
    ensures store.drained == old(store.drained) + DescriptorsIn(written)
    ensures batches != [] ==> store.Unflushed() == {}
    ensures forall v <- old(pool.Owned()) :: v in pool.Owned()
  {
    hide Reports, DescriptorsIn, UnflushedIn, DrainedOnce, Pool.Valid, DescriptorStore.Valid;
    outputs, written := [], [];
    NoDescriptors();
    for k := 0 to |batches|
      invariant pool.Valid() && store.Valid() && |outputs| == |written| == k
      invariant |store.Unflushed()| <= 2 * RtTrace.DEFAULT_BATCH_SIZE && (k > 0 ==> store.Unflushed() == {})
      invariant forall i :: 0 <= i < k ==> Reports(outputs[i], written[i], batches[i], pid, anchor, encode)
      invariant store.drained == old(store.drained) + DescriptorsIn(written)
      invariant forall v <- old(pool.Owned()) :: v in pool.Owned()
      invariant forall v <- pool.Owned() :: v in old(pool.Owned()) || fresh(v)
      invariant forall a <- pool.Stores() :: a in old(pool.Stores()) || fresh(a)
    {
      var output;
      ghost var report;
      assert forall i :: 0 <= i < |pool.Owned()| ==> pool.Owned()[i] in pool.Owned();
      assert forall v <- pool.Owned() :: v in old(pool.Owned()) || fresh(v);
      output, report := WriteBatch(pool, store, batches[k], pid, anchor, encode);
      DescriptorsAppend(written, report);
      outputs, written := outputs + [output], written + [report];
    }
  }

  /** Flushes with the Perfetto reporter as the consumer. A queue emits batches of at most the batch size; with at most
      twice as many descriptors waiting, the process descriptor included, all unchecked indices of all reports are in
      range. The bytes of each report describe its batch, all reports together describe exactly the descriptors drained,
      and the pool has every vector back. */
  method FlushToPerfetto(consumer: RtTrace.GlobalSpanConsumer<RtSpan>, pool: Pool, threadId: nat, pid: int,
                         anchor: Anchor, encode: Encoder)
    returns (outputs: seq<seq<bv8>>, ghost consumed: seq<seq<RtSpan>>, ghost written: seq<Written>)
    requires consumer.Valid() && consumer.hasConsumer && pool.Valid()
    requires !consumer.flushedOnce ==> RtTrace.ProcessDescriptorOf(threadId) !in consumer.descriptors.flushed
    requires forall batch <- consumer.collected ::
               |batch| <= RtTrace.DEFAULT_BATCH_SIZE && forall span <- batch :: span.typ.IsSlice()
    requires |consumer.descriptors.Unflushed()| < 2 * RtTrace.DEFAULT_BATCH_SIZE
    modifies consumer.Repr(), pool`objects, pool`buffer, pool.Owned(), pool.Stores()
    ensures consumer.flushedOnce && consumer.collected == [] && consumer.descriptors.Valid() && pool.Valid()
    ensures consumed == RtTrace.LastN(old(consumer.collected), 2 * consumer.shards)
    ensures |outputs| == |written| == |consumed|
    ensures forall k :: 0 <= k < |outputs| ==> Reports(outputs[k], written[k], consumed[k], pid, anchor, encode)
    ensures consumer.descriptors.drained == old(consumer.descriptors.drained) + DescriptorsIn(written)
    ensures consumed != [] ==> consumer.descriptors.Unflushed() == {}
    ensures forall v <- old(pool.Owned()) :: v in pool.Owned()
  {
    hide Reports, DescriptorsIn, UnflushedIn, DrainedOnce;
    var batches := consumer.Flush(threadId);
    consumed := batches;
    OneDescriptorMore(old(consumer.descriptors.flushed), RtTrace.ProcessDescriptorOf(threadId));
    LastNAmong(old(consumer.collected), 2 * consumer.shards);
    outputs, written := WriteBatches(pool, consumer.descriptors, batches, pid, anchor, encode);
  }

  lemma {:induction false} LastNAmong<T>(s: seq<T>, n: nat)
    ensures forall x <- RtTrace.LastN(s, n) :: x in s
  {
  }

  lemma {:induction false} OneDescriptorMore(flushed: map<RtSpan, bool>, d: RtSpan)
    ensures |UnflushedIn(flushed[d := false])| <= |UnflushedIn(flushed)| + 1
  {
    assert UnflushedIn(flushed[d := false]) == UnflushedIn(flushed) + {d};
  }
}

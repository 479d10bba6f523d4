/** The way of spans through the rt-trace crate: batching in a sharded queue (rt-trace/src/span_queue.rs),
    the overwriting ring buffer (rt-trace/src/utils/ring_buffer.rs) and the global consumer that fills and
    drains it (rt-trace/src/consumer.rs). */
module RtTrace {
  import opened Records
  import Perfetto

  const DEFAULT_BATCH_SIZE := 16384 / 16

  /** A queue of one shard. `emitted` are the batches sent to the consumer's channel so far. */
  class SpanQueue<T> {
    var spans: seq<T>
    var emitted: seq<seq<T>>
    // Every span pushed so far.
    ghost var pushed: seq<T>

    ghost predicate Valid()
      reads this
    {
      && |spans| < DEFAULT_BATCH_SIZE
      && Flatten(emitted) + spans == pushed
      && forall batch <- emitted :: |batch| <= DEFAULT_BATCH_SIZE
    }

    constructor ()
      ensures Valid() && pushed == [] && emitted == []
    {
      spans, emitted, pushed := [], [], [];
    }

    /** A push emits a batch exactly when it fills one up. */
    method Push(span: T)
      requires Valid()
      modifies this
      ensures Valid() && pushed == old(pushed) + [span]
      ensures emitted == if old(|spans|) + 1 == DEFAULT_BATCH_SIZE then old(emitted) + [old(spans) + [span]]
              else old(emitted)
    {
      hide Flatten;
      assert Flatten(emitted) + (spans + [span]) == (Flatten(emitted) + spans) + [span];
      spans := spans + [span];
      pushed := pushed + [span];
      if |spans| == DEFAULT_BATCH_SIZE {
        Flush();
        assert Flatten(emitted) + [] == Flatten(emitted);
      }
    }

    method Flush()
      requires |spans| <= DEFAULT_BATCH_SIZE
      modifies `spans, `emitted
      ensures spans == [] && emitted == old(emitted) + [old(spans)]
      ensures Flatten(emitted) == Flatten(old(emitted)) + old(spans)
    {
      var batch := spans;
      spans := [];
      FlattenAppend(emitted, batch);
      emitted := emitted + [batch];
    }

    /** Flushing from outside hands over everything pushed. */
    method FlushAll()
      requires Valid()
      modifies this
      ensures Valid() && spans == [] && pushed == old(pushed) && Flatten(emitted) == pushed
    {
      Flush();
    }
  }

  // The ring

  function LastN<T>(s: seq<T>, n: nat): seq<T> {
    if |s| <= n then s else s[|s| - n..]
  }

  lemma {:induction false} LastNAppend<T>(s: seq<T>, x: T, n: nat)
    requires n > 0
    ensures LastN(LastN(s, n) + [x], n) == LastN(s + [x], n)
  {
  }

  /** Overwriting the oldest item and advancing the head drops it and appends the new one. */
  lemma {:induction false} OverwriteRotates<T>(inner: seq<T>, head: nat, item: T)
    requires head < |inner|
    ensures var written, next := inner[head := item], (head + 1) % |inner|;
            written[next..] + written[..next] == (inner[head..] + inner[..head])[1..] + [item]
  {
    var written, older, newer := inner[head := item], inner[head + 1..], inner[..head];
    OldestDropped(inner, head);
    NextHead(head, |inner|);
    if head + 1 < |inner| {
      assert written[head + 1..] == older && written[..head + 1] == newer + [item];
      assert older + (newer + [item]) == (older + newer) + [item];
    } else {
      assert older == [] && written[0..] == newer + [item] && written[..0] == [];
      assert (newer + [item]) + [] == ([] + newer) + [item];
    }
  }

  lemma {:induction false} OldestDropped<T>(inner: seq<T>, head: nat)
    requires head < |inner|
    ensures (inner[head..] + inner[..head])[1..] == inner[head + 1..] + inner[..head]
  {
    assert inner[head..] == [inner[head]] + inner[head + 1..];
  }

  lemma {:induction false} NextHead(head: nat, n: nat)
    requires head < n
    ensures (head + 1) % n == if head + 1 < n then head + 1 else 0
  {
  }

  class RingBuffer<T> {
    var inner: seq<T>
    const capacity: nat
    var head: nat
    // Every item pushed since the ring was last drained.
    ghost var pushed: seq<T>

    /** The items in the order in which they were pushed: from the head to the end, then from the start. */
    ghost function Contents(): seq<T>
      reads this
      requires head <= |inner|
    {
      inner[head..] + inner[..head]
    }

    ghost predicate Valid()
      reads this
    {
      && capacity > 0 && |inner| <= capacity
      && (if |inner| < capacity then head == 0 else head < capacity)
      && Contents() == LastN(pushed, capacity)
    }

    constructor (capacity: nat)
      requires capacity > 0
      ensures Valid() && this.capacity == capacity && pushed == []
    {
      this.capacity := capacity;
      inner, head, pushed := [], 0, [];
    }

    method PushOverwrite(item: T)
      requires Valid()
      modifies this
      ensures Valid() && pushed == old(pushed) + [item]
    {
      LastNAppend(pushed, item, capacity);
      if |inner| < capacity {
        assert inner[0..] + inner[..0] == inner && (inner + [item])[0..] + (inner + [item])[..0] == inner + [item];
        inner := inner + [item];
      } else {
        OverwriteRotates(inner, head, item);
        inner := inner[head := item];
        head := (head + 1) % capacity;
      }
      pushed := pushed + [item];
    }

    /** Returns exactly the last `capacity` items pushed since the previous drain, oldest first, and empties
        the ring. */
    method Drain() returns (out: seq<T>)
      requires Valid()
      modifies this
      ensures Valid() && pushed == [] && inner == []
      ensures out == LastN(old(pushed), capacity)
      ensures |out| == (if |old(pushed)| <= capacity then |old(pushed)| else capacity)
      ensures forall i :: 0 <= i < |out| ==> out[i] == old(pushed)[|old(pushed)| - |out| + i]
    {
      out := [];
      if head < |inner| {
        out := out + inner[head..];
        inner := inner[..head];
        out := out + inner[..head];
        inner := inner[head..];
      }
      head := 0;
      pushed := [];
    }
  }

  // The global consumer

  /** A consumer over the ring. Commands are batches of spans; the ring is created by the first one, with two places
      a shard. */
  class GlobalSpanConsumer<T> {
    const shards: nat
    const descriptors: Perfetto.DescriptorStore
    var commandBuf: Option<RingBuffer<seq<T>>>
    var hasConsumer: bool
    // Whether the process descriptor has been published.
    var flushedOnce: bool
    // Every batch received since the last flush.
    ghost var collected: seq<seq<T>>

    ghost predicate Valid()
      reads this, descriptors, if commandBuf.Some? then {commandBuf.value} else {}
    {
      && shards > 0 && descriptors.Valid()
      && (commandBuf.None? ==> collected == [])
      && (commandBuf.Some? ==>
            var ring := commandBuf.value;
            ring.Valid() && ring.capacity == 2 * shards && ring.pushed == collected)
    }

    ghost function Repr(): set<object>
      reads this
    {
      {this, descriptors} + if commandBuf.Some? then {commandBuf.value} else {}
    }

    constructor (shards: nat, descriptors: Perfetto.DescriptorStore)
      requires shards > 0 && descriptors.Valid()
      ensures Valid() && fresh(Repr() - {descriptors}) && this.shards == shards && collected == []
      ensures this.descriptors == descriptors && !hasConsumer && !flushedOnce
    {
      this.shards, this.descriptors := shards, descriptors;
      commandBuf, collected, hasConsumer, flushedOnce := None, [], false, false;
    }

    method PushOverwrite(command: seq<T>)
      requires Valid()
      modifies this, if commandBuf.Some? then {commandBuf.value} else {}
      ensures Valid() && fresh(Repr() - old(Repr()))
      ensures hasConsumer == old(hasConsumer) && flushedOnce == old(flushedOnce)
      ensures collected == old(collected) + [command]
    {
      if commandBuf.None? {
        var created := new RingBuffer(shards * 2);
        commandBuf := Some(created);
      }
      var ring := commandBuf.value;
      ring.PushOverwrite(command);
      collected := collected + [command];
    }

    method CollectChannel(channel: seq<seq<T>>)
      requires Valid()
      modifies this, if commandBuf.Some? then {commandBuf.value} else {}
      ensures Valid() && fresh(Repr() - old(Repr()))
      ensures hasConsumer == old(hasConsumer) && flushedOnce == old(flushedOnce)
      ensures collected == old(collected) + channel
    {
      hide Valid;
      for j := 0 to |channel|
        invariant Valid() && fresh(Repr() - old(Repr()))
        invariant hasConsumer == old(hasConsumer) && flushedOnce == old(flushedOnce)
        invariant collected == old(collected) + channel[..j]
      {
        PushOverwrite(channel[j]);
      }
      assert channel[..|channel|] == channel;
    }

    /** Drains every channel, one after the other, into the ring. */
    method CollectAndPushCommands(channels: seq<seq<seq<T>>>)
      requires Valid()
      modifies this, if commandBuf.Some? then {commandBuf.value} else {}
      ensures Valid() && fresh(Repr() - old(Repr()))
      ensures hasConsumer == old(hasConsumer) && flushedOnce == old(flushedOnce)
      ensures collected == old(collected) + Flatten(channels)
    {
      hide Valid;
      for i := 0 to |channels|
        invariant Valid() && fresh(Repr() - old(Repr()))
        invariant hasConsumer == old(hasConsumer) && flushedOnce == old(flushedOnce)
        invariant collected == old(collected) + Flatten(channels[..i])
      {
        assert Init(channels[..i + 1]) == channels[..i] && Last(channels[..i + 1]) == channels[i];
        CollectChannel(channels[i]);
      }
      assert channels[..|channels|] == channels;
    }

    /** The batches handed to the consumer: the last two a shard of those received since the previous flush,
        oldest first. Older ones are lost. The first flush also publishes the process descriptor, even when there is
        nothing to consume. The source panics without a consumer, and on a descriptor it already knows. */
    method Flush(threadId: nat) returns (consumed: seq<seq<T>>)
      requires Valid() && hasConsumer
      requires !flushedOnce ==> ProcessDescriptorOf(threadId) !in descriptors.flushed
      modifies Repr()
      ensures Valid() && fresh(Repr() - old(Repr())) && hasConsumer && flushedOnce
      ensures descriptors.flushed == if old(flushedOnce) then old(descriptors.flushed)
                                     else old(descriptors.flushed)[ProcessDescriptorOf(threadId) := false]
      ensures descriptors.drained == old(descriptors.drained)
      ensures collected == [] && consumed == LastN(old(collected), 2 * shards)
      ensures |consumed| == (if |old(collected)| <= 2 * shards then |old(collected)| else 2 * shards)
      ensures forall i :: 0 <= i < |consumed| ==>
                consumed[i] == old(collected)[|old(collected)| - |consumed| + i]
    {
      if !flushedOnce {
        descriptors.AddDescriptor(ProcessDescriptorOf(threadId));
        flushedOnce := true;
      }
      if commandBuf.None? {
        return [];
      }
      var ring := commandBuf.value;
      consumed := ring.Drain();
      collected := [];
    }
  }

  /** `process_descriptor` of the thread that flushes. */
  function ProcessDescriptorOf(threadId: nat): Perfetto.RtSpan {
    Perfetto.RtSpan(Perfetto.ProcessDescriptor, threadId, ZERO, ZERO)
  }

  /** Nothing is lost between two flushes exactly when no more batches arrive than the ring holds. */
  lemma {:induction false} NothingLost<T>(collected: seq<seq<T>>, capacity: nat)
    ensures LastN(collected, capacity) == collected <==> |collected| <= capacity
    ensures |collected| <= capacity ==> Flatten(LastN(collected, capacity)) == Flatten(collected)
  {
  }
}

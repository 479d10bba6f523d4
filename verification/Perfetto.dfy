/** The Perfetto reporter of the rt-trace crate: descriptors that are drained once (rt-trace/src/span_queue.rs), the
    pool of packet vectors (rt-trace/src/utils/object_pool.rs) and the packet buffer that `consume` fills in place
    (rt-trace/src/backend/perfetto.rs). */
module Perfetto {
  import opened Records

  // DEFAULT_BATCH_SIZE * 4
  const BUF_SIZE := 4096

  datatype SpanType =
    | RunTask
    | RuntimeStart
    | RuntimeTerminate
    | RuntimePark
    | RuntimeDriver
    | ThreadDescriptor(threadName: string)
    | ProcessDescriptor
  {
    predicate IsDescriptor() {
      ThreadDescriptor? || ProcessDescriptor?
    }

    /** The span types that `consume` turns into packets; it panics on all others. */
    predicate IsSlice() {
      RunTask? || RuntimePark? || RuntimeDriver? || RuntimeTerminate?
    }

    function TypeName(): string {
      match this
      case RunTask => "run_task"
      case RuntimeStart => "runtime_start"
      case RuntimeTerminate => "runtime_terminate"
      case RuntimePark => "runtime_park"
      case RuntimeDriver => "runtime_driver"
      case ThreadDescriptor(_) => "thread_discriptor"
      case ProcessDescriptor => "process_discriptor"
    }
  }

  datatype RtSpan = RtSpan(typ: SpanType, threadId: nat, start: Instant, end: Instant)

  datatype EventType = SliceBegin | SliceEnd

  datatype ThreadInfo = ThreadInfo(pid: int, tid: int, threadName: string)

  datatype PacketData =
    | TrackDescriptor(uuid: nat, name: Option<string>, pid: int, thread: Option<ThreadInfo>)
    | TrackEvent(trackUuid: nat, eventName: Option<string>, eventType: EventType, annotations: seq<(string, string)>)

  // Every track event carries this one.
  const DEBUG_ANNOTATIONS := [("key1", "value1")]

  /** `n as i32`. */
  function AsI32(n: nat): int {
    var low := n % 0x1_0000_0000;
    if low < 0x8000_0000 then low else low - 0x1_0000_0000
  }

  /** A trace packet. Pooled packets keep whatever fields an earlier use has written. */
  datatype Packet = Packet(data: Option<PacketData>, timestamp: Option<nat>, trustedPid: Option<int>,
                           trustedUid: Option<nat>, sequenceId: Option<nat>)

  /** The protobuf encoding of a trace, which is not looked into. */
  type Encoder = seq<Packet> -> seq<bv8>

  const DEFAULT_PACKET := Packet(None, None, None, None, None)

  function DescriptorData(d: RtSpan, pid: int): PacketData
    requires d.typ.IsDescriptor()
  {
    match d.typ
    case ThreadDescriptor(name) =>
      TrackDescriptor(d.threadId, Some(name), pid, Some(ThreadInfo(pid, AsI32(d.threadId), name)))
    case _ => TrackDescriptor(d.threadId, None, pid, None)
  }

  // What a packet must say; other fields are stale.

  ghost predicate Describes(p: Packet, d: RtSpan, pid: int) {
    d.typ.IsDescriptor() && p.data == Some(DescriptorData(d, pid)) && p.trustedUid == Some(42)
  }

  ghost predicate Begins(p: Packet, s: RtSpan, anchor: Anchor) {
    && p.data == Some(TrackEvent(s.threadId, Some(s.typ.TypeName()), SliceBegin, DEBUG_ANNOTATIONS))
    && p.timestamp == Some(anchor(s.start)) && p.sequenceId == Some(42)
  }

  ghost predicate Ends(p: Packet, s: RtSpan, pid: int, anchor: Anchor) {
    && p.data == Some(TrackEvent(s.threadId, None, SliceEnd, DEBUG_ANNOTATIONS))
    && p.timestamp == Some(anchor(s.end)) && p.sequenceId == Some(42) && p.trustedPid == Some(pid)
  }

  /** `n as i32` is the number in range that agrees with `n` modulo 2^32. */
  lemma {:induction false} AsI32Wraps(n: nat)
    ensures -0x8000_0000 <= AsI32(n) < 0x8000_0000 && (n - AsI32(n)) % 0x1_0000_0000 == 0
    ensures n < 0x8000_0000 ==> AsI32(n) == n
  {
    assert n == n / 0x1_0000_0000 * 0x1_0000_0000 + n % 0x1_0000_0000;
  }

  /** A descriptor packet, field by field: a thread's names it twice and gives its number as a 32-bit thread id, a
      process's gives the process id alone. */
  lemma {:induction false} DescribesExactly(p: Packet, d: RtSpan, pid: int)
    requires Describes(p, d, pid)
    ensures p.data.Some? && p.data.value.TrackDescriptor? && p.trustedUid == Some(42)
    ensures p.data.value.uuid == d.threadId && p.data.value.pid == pid
    ensures d.typ.ThreadDescriptor? ==>
              && p.data.value.name == Some(d.typ.threadName) && p.data.value.thread.Some?
              && var thread := p.data.value.thread.value;
                 && thread.pid == pid && thread.threadName == d.typ.threadName
                 && -0x8000_0000 <= thread.tid < 0x8000_0000 && (d.threadId - thread.tid) % 0x1_0000_0000 == 0
    ensures d.typ.ProcessDescriptor? ==> p.data.value.name == None && p.data.value.thread == None
  {
    AsI32Wraps(d.threadId);
  }

  /** A begin event, field by field, with the name of the span's type; `Ends` says the same of an end event, which
      carries no name. */
  lemma {:induction false} BeginsExactly(p: Packet, s: RtSpan, anchor: Anchor)
    requires Begins(p, s, anchor)
    ensures p.data.Some? && p.data.value.TrackEvent? && p.data.value.trackUuid == s.threadId
    ensures p.timestamp == Some(anchor(s.start)) && p.sequenceId == Some(42)
    ensures p.data.value.eventType == SliceBegin && p.data.value.annotations == [("key1", "value1")]
    ensures s.typ.RunTask? ==> p.data.value.eventName == Some("run_task")
    ensures s.typ.RuntimePark? ==> p.data.value.eventName == Some("runtime_park")
    ensures s.typ.RuntimeDriver? ==> p.data.value.eventName == Some("runtime_driver")
    ensures s.typ.RuntimeTerminate? ==> p.data.value.eventName == Some("runtime_terminate")
  {
  }

  // Descriptors

  class DescriptorStore {
    // Whether each known descriptor has been flushed.
    var flushed: map<RtSpan, bool>
    // Every descriptor drained so far.
    ghost var drained: seq<RtSpan>

    /** Each descriptor has been drained once if it is flagged, and not at all otherwise. */
    ghost predicate Valid()
      reads this
    {
      (forall d <- flushed :: d.typ.IsDescriptor()) && DrainedOnce(drained, flushed)
    }

    ghost function Unflushed(): set<RtSpan>
      reads this
    {
      UnflushedIn(flushed)
    }

    constructor ()
      ensures Valid() && flushed == map[] && drained == []
    {
      flushed, drained := map[], [];
    }

    /** The source panics on a descriptor it already knows. */
    method AddDescriptor(d: RtSpan)
      requires Valid() && d !in flushed && d.typ.IsDescriptor()
      modifies this
      ensures Valid() && flushed == old(flushed)[d := false] && drained == old(drained)
    {
      assert DrainedOnce(drained, flushed[d := false]);
      flushed := flushed[d := false];
    }

    /** Returns every descriptor not drained before, once, in an arbitrary order. */
    method DrainDescriptors() returns (out: seq<RtSpan>)
      requires Valid()
      modifies this
      ensures Valid() && drained == old(drained) + out && flushed.Keys == old(flushed).Keys
      ensures multiset(out) == multiset(old(Unflushed())) && |out| == |old(Unflushed())|
      ensures Unflushed() == {} && forall d <- out :: d.typ.IsDescriptor()
    {
      hide PartlyDrained, DrainedOnce, UnflushedIn;
      out := [];
      var todo := flushed.Keys;
      NothingDrained(flushed);
      while todo != {}
        invariant todo <= flushed.Keys == old(flushed).Keys
        invariant PartlyDrained(old(flushed), flushed, todo, out)
        invariant drained == old(drained)
      {
        var d :| d in todo;
        DrainStep(old(flushed), flushed, todo, out, d);
        if !flushed[d] {
          flushed := flushed[d := true];
          out := out + [d];
        } else {
          assert flushed[d := true] == flushed;
        }
        todo := todo - {d};
      }
      AllDrained(old(flushed), flushed, out);
      StillDrainedOnce(old(flushed), flushed, drained, out);
      drained := drained + out;
    }
  }

  ghost function UnflushedIn(flushed: map<RtSpan, bool>): set<RtSpan> {
    set d <- flushed | !flushed[d]
  }

  /** Each descriptor stands in `drained` once if it is flagged, and not at all otherwise. */
  ghost predicate DrainedOnce(drained: seq<RtSpan>, flushed: map<RtSpan, bool>) {
    forall d :: multiset(drained)[d] == if d in flushed && flushed[d] then 1 else 0
  }

  lemma {:induction false} StillDrainedOnce(before: map<RtSpan, bool>, now: map<RtSpan, bool>, drained: seq<RtSpan>,
                                            out: seq<RtSpan>)
    requires DrainedOnce(drained, before) && PartlyDrained(before, now, {}, out)
    ensures DrainedOnce(drained + out, now)
  {
    AllDrained(before, now, out);
    forall d ensures multiset(drained + out)[d] == if d in now && now[d] then 1 else 0 {
      assert multiset(drained + out)[d] == multiset(drained)[d] + multiset(out)[d];
      assert d in now ==> d in now.Keys - {};
    }
  }

  /** The descriptors outside `todo` have been visited: those not flagged before stand in `out`, once each. */
  ghost predicate PartlyDrained(before: map<RtSpan, bool>, now: map<RtSpan, bool>, todo: set<RtSpan>,
                                out: seq<RtSpan>) {
    && todo <= now.Keys == before.Keys
    && (forall d <- todo :: now[d] == before[d])
    && (forall d <- now.Keys - todo :: now[d])
    && multiset(out) == multiset(UnflushedIn(before) - todo)
  }

  lemma {:induction false} NothingDrained(flushed: map<RtSpan, bool>)
    ensures PartlyDrained(flushed, flushed, flushed.Keys, [])
  {
    assert UnflushedIn(flushed) - flushed.Keys == {};
  }

  lemma {:induction false} DrainStep(before: map<RtSpan, bool>, now: map<RtSpan, bool>, todo: set<RtSpan>,
                                     out: seq<RtSpan>, d: RtSpan)
    requires PartlyDrained(before, now, todo, out) && d in todo
    ensures d in now && PartlyDrained(before, now[d := true], todo - {d}, if now[d] then out else out + [d])
  {
    var left := UnflushedIn(before) - todo;
    assert UnflushedIn(before) - (todo - {d}) == if now[d] then left else left + {d};
  }

  lemma {:induction false} AllDrained(before: map<RtSpan, bool>, now: map<RtSpan, bool>, out: seq<RtSpan>)
    requires PartlyDrained(before, now, {}, out)
    ensures multiset(out) == multiset(UnflushedIn(before)) && |out| == |UnflushedIn(before)|
    ensures UnflushedIn(now) == {} && now.Keys == before.Keys
    ensures forall d <- out :: d in before
    ensures forall d :: multiset(out)[d] == if d in before && !before[d] then 1 else 0
  {
    assert UnflushedIn(before) - {} == UnflushedIn(before);
    assert |multiset(out)| == |out| && |multiset(UnflushedIn(before))| == |UnflushedIn(before)|;
    assert forall d <- out :: d in multiset(out);
  }

  // The pool of packet vectors

  /** A vector of packets: `store` is its memory, `len` its visible length. */
  class PacketVec {
    const store: array<Packet>
    var len: nat

    predicate Full()
      reads this
    {
      store.Length == BUF_SIZE && len == BUF_SIZE
    }

    constructor ()
      ensures Full() && fresh(store)
      ensures forall i :: 0 <= i < BUF_SIZE ==> store[i] == DEFAULT_PACKET
    {
      store := new Packet[BUF_SIZE](_ => DEFAULT_PACKET);
      len := BUF_SIZE;
    }

    /** `Vec::set_len`: within the allocated memory. */
    method SetLen(n: nat)
      requires n <= store.Length
      modifies `len
      ensures len == n
    {
      len := n;
    }
  }

  ghost predicate NoSharing(vecs: seq<PacketVec>) {
    forall i, j :: 0 <= i < j < |vecs| ==> vecs[i] != vecs[j] && vecs[i].store != vecs[j].store
  }

  ghost predicate AllFull(vecs: seq<PacketVec>)
    reads set v <- vecs
  {
    forall i :: 0 <= i < |vecs| ==> vecs[i].Full()
  }

  /** The pool with the puller of the consuming thread. */
  class Pool {
    var objects: seq<PacketVec>
    var buffer: seq<PacketVec>
    const bufferSize: nat

    ghost function Owned(): seq<PacketVec>
      reads this
    {
      objects + buffer
    }

    ghost function Stores(): set<array<Packet>>
      reads this
    {
      set v <- Owned() :: v.store
    }

    /** All pooled vectors have their full length, and none is held twice. */
    ghost predicate Valid()
      reads this, set v <- Owned()
    {
      bufferSize > 0 && AllFull(Owned()) && NoSharing(Owned())
    }

    constructor (bufferSize: nat)
      requires bufferSize > 0
      ensures Valid() && objects == [] && buffer == [] && this.bufferSize == bufferSize
    {
      this.bufferSize := bufferSize;
      objects, buffer := [], [];
    }

    /** Moves the newest pooled vectors into the empty buffer of the puller and creates the missing ones. */
    method BatchPull()
      requires Valid() && buffer == []
      modifies `objects, `buffer
      ensures Valid() && |buffer| == bufferSize
      ensures objects <= old(objects)
      ensures forall v <- Owned() :: v in old(Owned()) || (fresh(v) && fresh(v.store))
      ensures forall v <- old(Owned()) :: v in Owned()
    {
      var keep := if |objects| < bufferSize then 0 else |objects| - bufferSize;
      buffer := objects[keep..];
      objects := objects[..keep];
      assert Owned() == old(Owned());
      while |buffer| < bufferSize
        invariant |buffer| <= bufferSize && Valid()
        invariant objects == old(objects)[..keep]
        invariant forall v <- Owned() :: v in old(Owned()) || (fresh(v) && fresh(v.store))
        invariant old(Owned()) <= Owned()
      {
        var v := new PacketVec();
        ghost var before := Owned();
        buffer := buffer + [v];
        assert Owned() == before + [v];
      }
      assert forall v <- old(Owned()) :: v in Owned();
    }

    /** Hands out a vector that nobody else holds. */
    method Pull() returns (v: PacketVec)
      requires Valid()
      modifies `objects, `buffer
      ensures Valid() && v.Full() && NoSharing(Owned() + [v])
      ensures forall w <- Owned() + [v] :: w in old(Owned()) || (fresh(w) && fresh(w.store))
      ensures forall w <- old(Owned()) :: w in Owned() + [v]
    {
      if buffer == [] {
        BatchPull();
      }
      v := Last(buffer);
      ghost var before := Owned();
      buffer := Init(buffer);
      assert before == Owned() + [v];
      assert forall i :: 0 <= i < |before| ==> before[i].Full();
      assert forall i :: 0 <= i < |Owned()| ==> Owned()[i] == before[i];
      assert v == before[|before| - 1];
    }

    method Recycle(v: PacketVec)
      requires Valid() && v.Full() && NoSharing(Owned() + [v])
      modifies `objects
      ensures Valid() && objects == old(objects) + [v] && buffer == old(buffer)
    {
      objects := objects + [v];
      forall i | 0 <= i < |Owned()| ensures Owned()[i].Full() {
        var k := |old(objects)|;
        assert Owned()[i] == if i < k then old(Owned())[i] else if i == k then v else old(Owned())[i - 1];
      }
      forall i, j | 0 <= i < j < |Owned()| ensures Owned()[i] != Owned()[j] && Owned()[i].store != Owned()[j].store {
        var k := |old(objects)|;
        var was := old(Owned()) + [v];
        assert Owned()[i] == was[if i < k then i else if i == k then |was| - 1 else i - 1];
        assert Owned()[j] == was[if j < k then j else if j == k then |was| - 1 else j - 1];
      }
    }
  }

  // Filling the packets

  /** Descriptor `k` of the buffer once `ds` have been written: each new one is swapped to the front. */
  function Placed(ds: seq<RtSpan>, k: nat): RtSpan
    requires k < |ds|
  {
    if k == 0 then Last(ds) else ds[k - 1]
  }

  /** The newest descriptor comes first and the others follow in order, each one once. */
  lemma {:induction false} PlacedIsPermutation(ds: seq<RtSpan>)
    ensures var placed := seq(|ds|, k requires 0 <= k < |ds| => Placed(ds, k));
            multiset(placed) == multiset(ds) && (ds != [] ==> placed == [Last(ds)] + Init(ds))
  {
    if ds != [] {
      var placed := seq(|ds|, k requires 0 <= k < |ds| => Placed(ds, k));
      assert placed == [Last(ds)] + Init(ds) && ds == Init(ds) + [Last(ds)];
    }
  }

  method WriteDescriptors(packets: array<Packet>, ds: seq<RtSpan>, pid: int) returns (numPackets: nat)
    requires |ds| <= packets.Length && forall d <- ds :: d.typ.IsDescriptor()
    modifies packets
    ensures numPackets == |ds|
    ensures forall k :: 0 <= k < |ds| ==> Describes(packets[k], Placed(ds, k), pid)
    ensures forall k :: |ds| <= k < packets.Length ==> packets[k] == old(packets[k])
  {
    numPackets := 0;
    while numPackets < |ds|
      invariant numPackets <= |ds|
      invariant forall k :: 0 <= k < numPackets ==> Describes(packets[k], Placed(ds[..numPackets], k), pid)
      invariant forall k :: numPackets <= k < packets.Length ==> packets[k] == old(packets[k])
    {
      var d := ds[numPackets];
      packets[numPackets] := packets[numPackets].(data := Some(DescriptorData(d, pid)), trustedUid := Some(42));
      packets[0], packets[numPackets] := packets[numPackets], packets[0];
      numPackets := numPackets + 1;
    }
    assert ds[..|ds|] == ds;
  }

  method WriteSpans(packets: array<Packet>, start: nat, spans: seq<RtSpan>, pid: int, anchor: Anchor)
    returns (numPackets: nat)
    requires start + 2 * |spans| <= packets.Length && forall s <- spans :: s.typ.IsSlice()
    modifies packets
    ensures numPackets == start + 2 * |spans|
    ensures forall i :: 0 <= i < |spans| ==>
              Begins(packets[start + 2 * i], spans[i], anchor)
                && Ends(packets[start + 2 * i + 1], spans[i], pid, anchor)
    ensures forall k :: 0 <= k < packets.Length && !(start <= k < numPackets) ==> packets[k] == old(packets[k])
  {
    numPackets := start;
    for i := 0 to |spans|
      invariant numPackets == start + 2 * i
      invariant EventsFrom(packets[..], start, spans, i, pid, anchor)
      invariant forall k :: 0 <= k < packets.Length && !(start <= k < numPackets) ==> packets[k] == old(packets[k])
    {
      hide EventsFrom, Begins, Ends;
      var span := spans[i];
      ghost var was := packets[..];
      packets[numPackets] := packets[numPackets].(
          data := Some(TrackEvent(span.threadId, Some(span.typ.TypeName()), SliceBegin, DEBUG_ANNOTATIONS)),
          timestamp := Some(anchor(span.start)), sequenceId := Some(42));
      numPackets := numPackets + 1;
      packets[numPackets] := packets[numPackets].(
          data := Some(TrackEvent(span.threadId, None, SliceEnd, DEBUG_ANNOTATIONS)), trustedPid := Some(pid),
          timestamp := Some(anchor(span.end)), sequenceId := Some(42));
      numPackets := numPackets + 1;
      assert packets[..] == was[numPackets - 2 := packets[numPackets - 2]][numPackets - 1 := packets[numPackets - 1]];
      EventsStep(was, start, spans, i, pid, anchor, packets[numPackets - 2], packets[numPackets - 1]);
    }
  }

  /** The events of the first `n` spans stand two by two from `start` on. */
  ghost predicate EventsFrom(p: seq<Packet>, start: nat, spans: seq<RtSpan>, n: nat, pid: int, anchor: Anchor)
    requires n <= |spans|
  {
    && start + 2 * n <= |p|
    && forall j :: 0 <= j < n ==>
         Begins(p[start + 2 * j], spans[j], anchor) && Ends(p[start + 2 * j + 1], spans[j], pid, anchor)
  }

  lemma {:induction false} EventsStep(p: seq<Packet>, start: nat, spans: seq<RtSpan>, n: nat, pid: int, anchor: Anchor,
                                      begin: Packet, end: Packet)
    requires n < |spans| && EventsFrom(p, start, spans, n, pid, anchor) && start + 2 * n + 1 < |p|
    requires begin == p[start + 2 * n].(
        data := Some(TrackEvent(spans[n].threadId, Some(spans[n].typ.TypeName()), SliceBegin, DEBUG_ANNOTATIONS)),
                                        timestamp := Some(anchor(spans[n].start)), sequenceId := Some(42))
    requires end == p[start + 2 * n + 1].(
        data := Some(TrackEvent(spans[n].threadId, None, SliceEnd, DEBUG_ANNOTATIONS)), trustedPid := Some(pid),
                                          timestamp := Some(anchor(spans[n].end)), sequenceId := Some(42))
    ensures EventsFrom(p[start + 2 * n := begin][start + 2 * n + 1 := end], start, spans, n + 1, pid, anchor)
  {
  }

  /** The packets of one report: descriptors first, then a begin and an end event for each span. */
  ghost predicate Layout(output: seq<Packet>, ds: seq<RtSpan>, spans: seq<RtSpan>, pid: int, anchor: Anchor) {
    && |output| == |ds| + 2 * |spans|
    && (forall k :: 0 <= k < |ds| ==> Describes(output[k], Placed(ds, k), pid))
    && (forall i :: 0 <= i < |spans| ==>
          Begins(output[|ds| + 2 * i], spans[i], anchor) && Ends(output[|ds| + 2 * i + 1], spans[i], pid, anchor))
  }

  method FillPackets(packets: array<Packet>, ds: seq<RtSpan>, spans: seq<RtSpan>, pid: int, anchor: Anchor)
    returns (numPackets: nat)
    requires |ds| + 2 * |spans| <= packets.Length
    requires (forall d <- ds :: d.typ.IsDescriptor()) && forall s <- spans :: s.typ.IsSlice()
    modifies packets
    ensures numPackets == |ds| + 2 * |spans|
    ensures Layout(packets[..numPackets], ds, spans, pid, anchor)
    ensures packets[numPackets..] == old(packets[numPackets..])
  {
    hide Describes, Begins, Ends;
    numPackets := WriteDescriptors(packets, ds, pid);
    numPackets := WriteSpans(packets, numPackets, spans, pid, anchor);
  }

  lemma {:induction false} Apart(vecs: seq<PacketVec>, v: PacketVec)
    requires NoSharing(vecs + [v])
    ensures NoSharing(vecs) && forall w <- vecs :: w != v && w.store != v.store
  {
    var all := vecs + [v];
    forall i, j | 0 <= i < j < |vecs| ensures vecs[i] != vecs[j] && vecs[i].store != vecs[j].store {
      assert all[i] != all[j] && all[i].store != all[j].store;
    }
    forall i | 0 <= i < |vecs| ensures vecs[i] != v && vecs[i].store != v.store {
      assert all[i] != all[|vecs|] && all[i].store != all[|vecs|].store;
    }
  }

  lemma {:induction false} Together(vecs: seq<PacketVec>, v: PacketVec)
    requires NoSharing(vecs) && forall w <- vecs :: w != v && w.store != v.store
    ensures NoSharing(vecs + [v])
  {
    var all := vecs + [v];
    forall i, j | 0 <= i < j < |all| ensures all[i] != all[j] && all[i].store != all[j].store {
      assert all[i] == vecs[i] && vecs[i] in vecs;
    }
  }

  /** Writes one report from a pooled vector: the bytes of `packets`. The unchecked indices of the source are in range
      because the descriptors and two packets a span fit the buffer; afterwards every vector is back in the pool at full
      length. */
  method Consume(pool: Pool, store: DescriptorStore, spans: seq<RtSpan>, pid: int, anchor: Anchor, encode: Encoder)
    returns (output: seq<bv8>, ghost ds: seq<RtSpan>, ghost packets: seq<Packet>)
    requires pool.Valid() && store.Valid() && forall s <- spans :: s.typ.IsSlice()
    requires |store.Unflushed()| + 2 * |spans| <= BUF_SIZE
    modifies pool`objects, pool`buffer, store, pool.Owned(), pool.Stores()
    ensures pool.Valid() && store.Valid() && store.Unflushed() == {}
    ensures store.drained == old(store.drained) + ds && multiset(ds) == multiset(old(store.Unflushed()))
    ensures output == encode(packets) && Layout(packets, ds, spans, pid, anchor)
    ensures forall v <- old(pool.Owned()) :: v in pool.Owned()
    ensures forall v <- pool.Owned() :: v in old(pool.Owned()) || (fresh(v) && fresh(v.store))
  {
    var trace := pool.Pull();
    var descriptors := store.DrainDescriptors();
    ds := descriptors;
    var numPackets := FillPackets(trace.store, descriptors, spans, pid, anchor);
    packets := trace.store[..numPackets];
    output := Encode(pool, trace, numPackets, encode);
  }

  /** `Trace::write`: a second vector takes the place of the first while that one is shortened, encoded and restored;
      both go back to the pool. */
  method Encode(pool: Pool, current: PacketVec, numPackets: nat, encode: Encoder) returns (output: seq<bv8>)
    requires pool.Valid() && current.Full() && NoSharing(pool.Owned() + [current]) && numPackets <= BUF_SIZE
    modifies pool`objects, pool`buffer, current`len
    ensures pool.Valid() && output == encode(old(current.store[..numPackets]))
    ensures current in pool.Owned() && forall v <- old(pool.Owned()) :: v in pool.Owned()
    ensures forall v <- pool.Owned() :: v == current || v in old(pool.Owned()) || (fresh(v) && fresh(v.store))
  {
    Apart(pool.Owned(), current);
    var next := pool.Pull();
    assert forall w <- pool.Owned() + [next] :: w != current && w.store != current.store;
    current.SetLen(numPackets);
    output := encode(current.store[..current.len]);
    current.SetLen(BUF_SIZE);
    pool.Recycle(next);
    Together(pool.Owned(), current);
    pool.Recycle(current);
  }
}

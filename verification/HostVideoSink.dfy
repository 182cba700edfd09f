/** The bounded sender queue in front of the host video socket.

    `Sink` is the state guarded by the sink's mutex plus two history variables: `sent`
    (packets written completely) and `wire` (bytes the socket took).  One function per
    critical section says what it does to that state; the class performs them in place. */
module HostVideoSink {
  import opened Bytes
  import opened Options
  import opened VideoPacketProtocol

  /** `origin` is a history variable: the position, in the encoder's output, of the packet
      this one was made from.  No operation branches on it. */
  datatype HostVideoPacket = HostVideoPacket(header: VideoPacketHeader, payload: seq<byte>, origin: nat)

  datatype OutboundPacket = OutboundPacket(header: seq<byte>, packet: HostVideoPacket) {
    function WireSize(): nat { |header| + |packet.payload| }

    function Wire(): seq<byte> { header + packet.payload }

    predicate WellFormed() {
      && |packet.payload| < 0x1_0000_0000
      && packet.header.payloadSize == |packet.payload|
      && IsValidHeader(packet.header)
      && header == EncodeHeader(packet.header)
    }
  }

  datatype EnqueueStatus = Accepted | QueueFull | Disconnected | Stopped | InvalidPacket
  datatype EnqueueResult = EnqueueResult(status: EnqueueStatus, requestKeyFrame: bool)
  datatype DiscardResult = DiscardResult(packets: nat, bytes: nat)

  datatype SinkConfig = SinkConfig(maxBufferedPackets: nat, maxBufferedBytes: nat)

  predicate ValidConfig(config: SinkConfig) {
    config.maxBufferedPackets != 0 && config.maxBufferedBytes >= VIDEO_PACKET_HEADER_SIZE
  }

  datatype SinkStats = SinkStats(
    acceptedPackets: nat, sentPackets: nat, sentBytes: nat, rejectedQueueFull: nat,
    discardedPendingPackets: nat, discardedPendingBytes: nat, sendErrors: nat,
    bufferedPackets: int, bufferedBytes: int)

  /** `current` is the packet the sender thread holds outside the lock, and `progress` how many
      of its bytes the socket has taken. */
  datatype Sink = Sink(
    config: SinkConfig,
    queue: seq<OutboundPacket>,
    stopped: bool,
    connected: bool,
    current: Option<OutboundPacket>,
    progress: nat,
    bufferedPackets: int,
    bufferedBytes: int,
    stats: SinkStats,
    sent: seq<OutboundPacket>,
    wire: seq<byte>)

  function NewSink(config: SinkConfig): Sink {
    Sink(config, [], false, true, None, 0, 0, 0, SinkStats(0, 0, 0, 0, 0, 0, 0, 0, 0), [], [])
  }

  // ---------- building a batch ----------

  function Outbound(p: HostVideoPacket): (r: Option<OutboundPacket>)
    ensures r.Some? ==> r.value.WellFormed()
  {
    if |p.payload| > 0xffff_ffff then None
    else
      var stamped := p.(header := p.header.(payloadSize := |p.payload|));
      if IsValidHeader(stamped.header)
      then Some(OutboundPacket(EncodeHeader(stamped.header), stamped))
      else None
  }

  predicate Serializable(batch: seq<HostVideoPacket>) {
    forall i :: 0 <= i < |batch| ==> Outbound(batch[i]).Some?
  }

  function OutboundAll(batch: seq<HostVideoPacket>): (r: seq<OutboundPacket>)
    requires Serializable(batch)
    ensures |r| == |batch|
    ensures forall i :: 0 <= i < |r| ==> r[i] == Outbound(batch[i]).value
    ensures forall i :: 0 <= i < |r| ==> r[i].WellFormed()
  {
    hide Outbound;
    if batch == [] then []
    else OutboundAll(batch[..|batch| - 1]) + [Outbound(batch[|batch| - 1]).value]
  }

  function WireBytes(packets: seq<OutboundPacket>): nat {
    if packets == [] then 0 else WireBytes(packets[..|packets| - 1]) + packets[|packets| - 1].WireSize()
  }

  lemma {:induction false} WireBytesConcat(a: seq<OutboundPacket>, b: seq<OutboundPacket>)
    ensures WireBytes(a + b) == WireBytes(a) + WireBytes(b)
  {
    if b == [] {
      assert a + b == a;
    } else {
      var front := b[..|b| - 1];
      WireBytesConcat(a, front);
      assert (a + b)[..|a + b| - 1] == a + front;
    }
  }

  function HasFlag(flags: u32, weight: nat): bool
    requires weight > 0
  {
    flags / weight % 2 == 1
  }

  lemma {:induction false} FlagBitsRead(f: VideoFlags)
    ensures HasFlag(FlagBits(f), 1) == f.codecConfig
    ensures HasFlag(FlagBits(f), 2) == f.keyFrame
    ensures HasFlag(FlagBits(f), 4) == f.endOfStream
    ensures HasFlag(FlagBits(f), 8) == f.discontinuity
  {
  }

  predicate WantsKeyFrame(batch: seq<HostVideoPacket>) {
    exists i :: 0 <= i < |batch| && !HasFlag(batch[i].header.flags, 4)
  }

  // ---------- the critical sections ----------

  function WithBuffered(s: Sink, packets: int, bytes: int): Sink {
    s.(bufferedPackets := packets, bufferedBytes := bytes,
       stats := s.stats.(bufferedPackets := packets, bufferedBytes := bytes))
  }

  function RejectStep(s: Sink, count: nat): Sink {
    s.(stats := s.stats.(rejectedQueueFull := s.stats.rejectedQueueFull + count))
  }

  function AcceptStep(s: Sink, outbound: seq<OutboundPacket>): Sink {
    WithBuffered(s.(queue := s.queue + outbound,
                    stats := s.stats.(acceptedPackets := s.stats.acceptedPackets + |outbound|)),
                 s.bufferedPackets + |outbound|, s.bufferedBytes + WireBytes(outbound))
  }

  predicate HasRoom(s: Sink, outbound: seq<OutboundPacket>) {
    && s.bufferedPackets + |outbound| <= s.config.maxBufferedPackets
    && s.bufferedBytes + WireBytes(outbound) <= s.config.maxBufferedBytes
  }

  function EnqueueStep(s: Sink, outbound: seq<OutboundPacket>, requestKeyFrame: bool): (Sink, EnqueueResult) {
    if s.stopped then (s, EnqueueResult(Stopped, false))
    else if !s.connected then (s, EnqueueResult(Disconnected, false))
    else if HasRoom(s, outbound) then (AcceptStep(s, outbound), EnqueueResult(Accepted, false))
    else (RejectStep(s, |outbound|), EnqueueResult(QueueFull, requestKeyFrame))
  }

  /** A batch is taken completely or not at all. */
  function SubmitBatchStep(s: Sink, batch: seq<HostVideoPacket>): (Sink, EnqueueResult) {
    if batch == [] || !Serializable(batch) then (s, EnqueueResult(InvalidPacket, false))
    else EnqueueStep(s, OutboundAll(batch), WantsKeyFrame(batch))
  }

  function DiscardStep(s: Sink): (Sink, DiscardResult) {
    var n, b := |s.queue|, WireBytes(s.queue);
    (WithBuffered(s.(queue := [],
                     stats := s.stats.(discardedPendingPackets := s.stats.discardedPendingPackets + n,
                                       discardedPendingBytes := s.stats.discardedPendingBytes + b)),
                  s.bufferedPackets - n, s.bufferedBytes - b),
     DiscardResult(n, b))
  }

  function StopStep(s: Sink): Sink {
    WithBuffered(s.(stopped := true, queue := []),
                 if s.current.Some? then 1 else 0, if s.current.Some? then s.current.value.WireSize() else 0)
  }

  predicate CanPop(s: Sink) { !s.stopped && s.queue != [] && s.current.None? }

  function PopStep(s: Sink): Sink
    requires CanPop(s)
  {
    s.(current := Some(s.queue[0]), progress := 0, queue := s.queue[1..])
  }

  predicate CanWrite(s: Sink, n: nat) {
    s.current.Some? && 0 < n && s.progress + n <= s.current.value.WireSize()
  }

  /** One `send` call that takes `n` more bytes of the packet in flight. */
  function WriteStep(s: Sink, n: nat): Sink
    requires CanWrite(s, n)
  {
    s.(progress := s.progress + n, wire := s.wire + s.current.value.Wire()[s.progress..s.progress + n])
  }

  function FailStep(s: Sink): Sink
    requires s.current.Some?
  {
    WithBuffered(s.(current := None, progress := 0, connected := false, queue := [],
                    stats := s.stats.(sendErrors := s.stats.sendErrors + 1)), 0, 0)
  }

  function SentStep(s: Sink): Sink
    requires s.current.Some?
  {
    var p := s.current.value;
    WithBuffered(s.(current := None, progress := 0, sent := s.sent + [p],
                    stats := s.stats.(sentPackets := s.stats.sentPackets + 1,
                                      sentBytes := s.stats.sentBytes + p.WireSize())),
                 s.bufferedPackets - 1, s.bufferedBytes - p.WireSize())
  }

  /** The locked section after the write: complete when all bytes went out, failed otherwise. */
  function CompleteStep(s: Sink): Sink
    requires s.current.Some?
  {
    if s.progress < s.current.value.WireSize() then FailStep(s) else SentStep(s)
  }

  // ---------- accounting ----------

  function InFlight(s: Sink): seq<OutboundPacket> {
    if s.current.Some? then [s.current.value] else []
  }

  predicate AllWellFormed(packets: seq<OutboundPacket>) {
    forall i :: 0 <= i < |packets| ==> packets[i].WellFormed()
  }

  /** Packets in the order they reach, or would reach, the host. */
  function Line(s: Sink): seq<OutboundPacket> { s.sent + InFlight(s) + s.queue }

  /** The counters describe the queue plus the packet in flight, within the limits. */
  ghost predicate Accounted(s: Sink) {
    && ValidConfig(s.config)
    && s.bufferedPackets == |s.queue| + |InFlight(s)| <= s.config.maxBufferedPackets
    && s.bufferedBytes == WireBytes(s.queue) + WireBytes(InFlight(s)) <= s.config.maxBufferedBytes
    && s.stats.bufferedPackets == s.bufferedPackets
    && s.stats.bufferedBytes == s.bufferedBytes
    && (s.stopped || !s.connected ==> s.queue == [])
    && (!s.connected ==> s.current.None?)
    && (s.current.Some? ==> s.progress <= s.current.value.WireSize())
    && (s.current.None? ==> s.progress == 0)
    && s.stats.sentPackets == |s.sent| && s.stats.sentBytes == WireBytes(s.sent)
    && (s.connected && !s.stopped ==>
          s.stats.acceptedPackets == s.stats.sentPackets + s.stats.discardedPendingPackets + s.bufferedPackets)
  }

  /** Every critical section, by whichever thread. */
  datatype SinkStep = SubmitBatch(batch: seq<HostVideoPacket>) | Discard | Stop | Pop | Write(n: nat) | Complete

  /** A step that is not enabled (the sender waits, or has returned) changes nothing. */
  function ApplySinkStep(s: Sink, step: SinkStep): Sink {
    match step
    case SubmitBatch(batch) => SubmitBatchStep(s, batch).0
    case Discard => DiscardStep(s).0
    case Stop => StopStep(s)
    case Pop => if CanPop(s) then PopStep(s) else s
    case Write(n) => if CanWrite(s, n) then WriteStep(s, n) else s
    case Complete => if s.current.Some? then CompleteStep(s) else s
  }

  function RunSink(s: Sink, steps: seq<SinkStep>): Sink {
    if steps == [] then s else ApplySinkStep(RunSink(s, steps[..|steps| - 1]), steps[|steps| - 1])
  }

  /** An accepted batch goes to the end of the line as a whole; a refused one leaves no trace. */
  lemma {:induction false} SubmitExtendsLine(s: Sink, batch: seq<HostVideoPacket>)
    ensures var (t, r) := SubmitBatchStep(s, batch);
            && t.sent == s.sent
            && if r.status.Accepted? then Serializable(batch) && Line(t) == Line(s) + OutboundAll(batch)
               else Line(t) == Line(s)
  {
    hide Outbound;
    hide Serializable;
    hide WantsKeyFrame;
    hide WireBytes;
    hide OutboundAll;
    var (t, r) := SubmitBatchStep(s, batch);
    if r.status.Accepted? {
      Regroup(s.sent + InFlight(s), s.queue, OutboundAll(batch));
    }
  }

  lemma {:induction false} Regroup<T>(a: seq<T>, b: seq<T>, c: seq<T>)
    ensures a + (b + c) == a + b + c
  {
  }

  /** Every other step leaves the line alone or cuts it back to a prefix holding what was sent. */
  lemma {:induction false} OthersKeepLinePrefix(s: Sink, step: SinkStep)
    requires !step.SubmitBatch?
    ensures Line(ApplySinkStep(s, step)) <= Line(s)
    ensures s.sent <= ApplySinkStep(s, step).sent
  {
    var t := ApplySinkStep(s, step);
    match step
    case Pop =>
      if CanPop(s) {
        assert s.queue == [s.queue[0]] + s.queue[1..];
        assert Line(t) == Line(s);
      }
    case Complete =>
      if s.current.Some? {
        if s.progress < s.current.value.WireSize() {
          assert Line(t) == s.sent;
        } else {
          assert Line(t) == Line(s);
        }
      }
    case Discard => assert Line(t) == s.sent + InFlight(s);
    case Stop => assert Line(t) == s.sent + InFlight(s);
    case Write(n) =>
  }

  lemma {:induction false} SubmitKeepsAccounts(s: Sink, batch: seq<HostVideoPacket>)
    requires Accounted(s)
    ensures Accounted(SubmitBatchStep(s, batch).0)
  {
    if batch != [] && Serializable(batch) {
      EnqueueKeepsAccounts(s, OutboundAll(batch), WantsKeyFrame(batch));
    }
    hide Outbound;
    hide OutboundAll;
    hide Serializable;
    hide WantsKeyFrame;
    hide Accounted;
    hide EnqueueStep;
  }

  lemma {:induction false} EnqueueKeepsAccounts(s: Sink, outbound: seq<OutboundPacket>, requestKeyFrame: bool)
    requires Accounted(s)
    ensures Accounted(EnqueueStep(s, outbound, requestKeyFrame).0)
  {
    WireBytesConcat(s.queue, outbound);
    hide WireBytes;
  }

  lemma {:induction false} PopKeepsAccounts(s: Sink)
    requires Accounted(s) && CanPop(s)
    ensures Accounted(PopStep(s))
  {
    var head := [s.queue[0]];
    WireBytesConcat(head, s.queue[1..]);
    assert s.queue == head + s.queue[1..];
    assert InFlight(PopStep(s)) == head;
  }

  lemma {:induction false} CompleteKeepsAccounts(s: Sink)
    requires Accounted(s) && s.current.Some?
    ensures Accounted(CompleteStep(s))
  {
    var p := s.current.value;
    assert WireBytes([p]) == p.WireSize();
    WireBytesConcat(s.sent, [p]);
  }

  lemma {:induction false} DiscardKeepsAccounts(s: Sink)
    requires Accounted(s)
    ensures Accounted(DiscardStep(s).0) && s.bufferedPackets >= |s.queue| && s.bufferedBytes >= WireBytes(s.queue)
  {
  }

  lemma {:induction false} SinkStepKeepsAccounts(s: Sink, step: SinkStep)
    requires Accounted(s)
    ensures Accounted(ApplySinkStep(s, step))
  {
    match step
    case SubmitBatch(batch) => SubmitKeepsAccounts(s, batch);
    case Pop => if CanPop(s) { PopKeepsAccounts(s); }
    case Complete => if s.current.Some? { CompleteKeepsAccounts(s); }
    case Stop =>
      assert WireBytes(InFlight(s)) == if s.current.Some? then s.current.value.WireSize() else 0;
    case Discard => DiscardKeepsAccounts(s);
    case Write(n) =>
  }

  /** Buffered packets and bytes equal queue plus in-flight and stay within the limits in
      every interleaving of submitters, the sender, `DiscardPending` and `Stop`. */
  lemma {:induction false} SinkRunKeepsAccounts(config: SinkConfig, steps: seq<SinkStep>)
    requires ValidConfig(config)
    ensures Accounted(RunSink(NewSink(config), steps))
  {
    if steps != [] {
      SinkRunKeepsAccounts(config, steps[..|steps| - 1]);
      SinkStepKeepsAccounts(RunSink(NewSink(config), steps[..|steps| - 1]), steps[|steps| - 1]);
    }
  }

  // ---------- the sink itself ----------

  /** A connected stream socket: each `Send` takes some of the bytes, is interrupted, or fails. */
  class StreamSocket {
    var written: seq<byte>
    var interrupts: nat // interruptions still to come; finitely many

    constructor ()
      ensures written == []
    {
      written := [];
    }

    /** Positive: that many bytes were taken.  Zero: interrupted, try again.  Negative: failed. */
    method Send(data: seq<byte>) returns (count: int)
      requires data != []
      modifies this
      ensures count <= |data|
      ensures count > 0 ==> written == old(written) + data[..count] && interrupts == old(interrupts)
      ensures count <= 0 ==> written == old(written)
      ensures count == 0 ==> interrupts < old(interrupts)
    {
      var taken: nat := *;
      var interrupted: bool := *;
      if 0 < taken <= |data| {
        written := written + data[..taken];
        return taken;
      }
      if interrupted && interrupts > 0 {
        interrupts := interrupts - 1;
        return 0;
      }
      return -1;
    }
  }

  /** Partial sends and interruptions are retried; `taken` says how far a failing send got. */
  method SendAll(socket: StreamSocket, data: seq<byte>) returns (sent: bool, ghost taken: nat)
    modifies socket
    ensures taken <= |data| && sent == (taken == |data|)
    ensures socket.written == old(socket.written) + data[..taken]
  {
    var offset := 0;
    while offset < |data|
      invariant 0 <= offset <= |data|
      invariant socket.written == old(socket.written) + data[..offset]
      decreases |data| - offset, socket.interrupts
    {
      var count := socket.Send(data[offset..]);
      if count > 0 {
        assert data[..offset] + data[offset..][..count] == data[..offset + count];
        offset := offset + count;
      } else if count < 0 {
        return false, offset;
      }
    }
    return true, offset;
  }

  method SerializeOne(source: HostVideoPacket) returns (r: Option<OutboundPacket>)
    ensures r == Outbound(source)
  {
    if |source.payload| > 0xffff_ffff {
      return None;
    }
    var packet := source.(header := source.header.(payloadSize := |source.payload|));
    var header := new byte[VIDEO_PACKET_HEADER_SIZE];
    var serialized := SerializeVideoPacketHeader(packet.header, header);
    if !serialized {
      return None;
    }
    return Some(OutboundPacket(header[..], packet));
  }

  lemma {:induction false} NothingBuilt(batch: seq<HostVideoPacket>)
    ensures Serializable(batch[..0]) && OutboundAll(batch[..0]) == [] && !WantsKeyFrame(batch[..0])
    ensures WireBytes([]) == 0
  {
  }

  lemma {:induction false} NotSerializable(batch: seq<HostVideoPacket>, i: nat)
    requires i < |batch| && Outbound(batch[i]).None?
    ensures !Serializable(batch)
  {
  }

  lemma {:induction false} BatchGrows(batch: seq<HostVideoPacket>, i: nat)
    requires i < |batch| && Serializable(batch[..i]) && Outbound(batch[i]).Some?
    ensures Serializable(batch[..i + 1])
    ensures OutboundAll(batch[..i + 1]) == OutboundAll(batch[..i]) + [Outbound(batch[i]).value]
    ensures WireBytes(OutboundAll(batch[..i + 1]))
            == WireBytes(OutboundAll(batch[..i])) + Outbound(batch[i]).value.WireSize()
    ensures WantsKeyFrame(batch[..i + 1]) == (WantsKeyFrame(batch[..i]) || !HasFlag(batch[i].header.flags, 4))
  {
    assert batch[..i + 1][..i] == batch[..i];
    assert Serializable(batch[..i + 1]) by {
      var more := batch[..i + 1];
      forall k | 0 <= k < |more| ensures Outbound(more[k]).Some? {
        if k < i {
          assert Outbound(batch[..i][k]).Some?;
        }
      }
    }
    WireBytesConcat(OutboundAll(batch[..i]), [Outbound(batch[i]).value]);
    WantsKeyFrameGrows(batch, i);
  }

  lemma {:induction false} WantsKeyFrameGrows(batch: seq<HostVideoPacket>, i: nat)
    requires i < |batch|
    ensures WantsKeyFrame(batch[..i + 1]) == (WantsKeyFrame(batch[..i]) || !HasFlag(batch[i].header.flags, 4))
  {
    var more := batch[..i + 1];
    if WantsKeyFrame(batch[..i]) {
      var k :| 0 <= k < i && !HasFlag(batch[..i][k].header.flags, 4);
      assert more[k] == batch[..i][k];
    }
    if !HasFlag(batch[i].header.flags, 4) {
      assert more[i] == batch[i];
    }
  }

  lemma {:induction false} SingleWireBytes(p: OutboundPacket)
    ensures WireBytes([p]) == p.WireSize()
  {
    assert [p][..0] == [];
  }

  class Impl {
    const config: SinkConfig
    const socket: StreamSocket
    var queue: seq<OutboundPacket>
    var stopped: bool
    var isConnected: bool
    var inFlight: bool
    var inFlightBytes: nat
    var bufferedPackets: nat
    var bufferedBytes: nat
    var stats: SinkStats
    var current: Option<OutboundPacket> // local to the sender thread
    ghost var progress: nat
    ghost var sent: seq<OutboundPacket>

    ghost function Abs(): Sink
      reads this, socket
    {
      Sink(config, queue, stopped, isConnected, current, progress, bufferedPackets, bufferedBytes, stats, sent,
           socket.written)
    }

    ghost predicate Valid()
      reads this, socket
    {
      && Accounted(Abs())
      && inFlight == current.Some?
      && inFlightBytes == (if current.Some? then current.value.WireSize() else 0)
    }

    constructor (connectedSocket: StreamSocket, sinkConfig: SinkConfig)
      requires ValidConfig(sinkConfig) && connectedSocket.written == []
      ensures Valid() && socket == connectedSocket && Abs() == NewSink(sinkConfig)
    {
      socket := connectedSocket;
      config := sinkConfig;
      queue, stopped, isConnected := [], false, true;
      inFlight, inFlightBytes, current, progress := false, 0, None, 0;
      bufferedPackets, bufferedBytes, sent := 0, 0, [];
      stats := SinkStats(0, 0, 0, 0, 0, 0, 0, 0, 0);
    }

    method SubmitBatch(packets: seq<HostVideoPacket>) returns (result: EnqueueResult)
      requires Valid()
      modifies this
      ensures Valid()
      ensures (Abs(), result) == SubmitBatchStep(old(Abs()), packets)
    {
      hide EncodeHeader;
      hide EnqueueStep;
      if packets == [] {
        return EnqueueResult(InvalidPacket, false);
      }
      var ok, outbound, total, exceeds, requestKeyFrame := BuildBatch(packets);
      if !ok {
        return EnqueueResult(InvalidPacket, false);
      }
      SubmitKeepsAccounts(Abs(), packets);
      result := Enqueue(outbound, total, exceeds, requestKeyFrame);
    }

    /** The locked part of `SubmitBatch`. */
    method Enqueue(outbound: seq<OutboundPacket>, total: nat, exceeds: bool, requestKeyFrame: bool)
      returns (result: EnqueueResult)
      requires Valid() && total <= config.maxBufferedBytes
      requires if exceeds then WireBytes(outbound) > config.maxBufferedBytes else total == WireBytes(outbound)
      requires Accounted(EnqueueStep(Abs(), outbound, requestKeyFrame).0)
      modifies this
      ensures Valid()
      ensures (Abs(), result) == EnqueueStep(old(Abs()), outbound, requestKeyFrame)
    {
      hide WireBytes;
      ghost var before := Abs();
      if stopped {
        return EnqueueResult(Stopped, false);
      }
      if !isConnected {
        return EnqueueResult(Disconnected, false);
      }
      if |outbound| > config.maxBufferedPackets || bufferedPackets > config.maxBufferedPackets - |outbound|
         || exceeds || bufferedBytes > config.maxBufferedBytes - total {
        stats := stats.(rejectedQueueFull := stats.rejectedQueueFull + |outbound|);
        assert Abs() == RejectStep(before, |outbound|);
        return EnqueueResult(QueueFull, requestKeyFrame);
      }
      bufferedBytes := bufferedBytes + total;
      bufferedPackets := bufferedPackets + |outbound|;
      stats := stats.(acceptedPackets := stats.acceptedPackets + |outbound|);
      queue := queue + outbound;
      UpdateBufferedStats();
      assert Abs() == AcceptStep(before, outbound);
      return EnqueueResult(Accepted, false);
    }

    /** The part of `SubmitBatch` that runs before the lock is taken. */
    method BuildBatch(packets: seq<HostVideoPacket>)
      returns (ok: bool, outbound: seq<OutboundPacket>, total: nat, exceeds: bool, requestKeyFrame: bool)
      ensures ok == Serializable(packets)
      ensures ok ==> outbound == OutboundAll(packets)
      ensures ok ==> total <= config.maxBufferedBytes
      ensures ok && exceeds ==> WireBytes(outbound) > config.maxBufferedBytes
      ensures ok && !exceeds ==> total == WireBytes(outbound)
      ensures ok ==> requestKeyFrame == WantsKeyFrame(packets)
    {
      hide Outbound;
      hide EncodeHeader;
      hide Serializable;
      hide WantsKeyFrame;
      hide OutboundAll;
      hide WireBytes;
      NothingBuilt(packets);
      ok, outbound, total, exceeds, requestKeyFrame := true, [], 0, false, false;
      var i := 0;
      while i < |packets|
        invariant 0 <= i <= |packets|
        invariant Serializable(packets[..i])
        invariant outbound == OutboundAll(packets[..i])
        invariant total <= config.maxBufferedBytes && total <= WireBytes(outbound)
        invariant exceeds ==> WireBytes(outbound) > config.maxBufferedBytes
        invariant !exceeds ==> total == WireBytes(outbound)
        invariant requestKeyFrame == WantsKeyFrame(packets[..i])
      {
        var next := SerializeOne(packets[i]);
        if next == None {
          NotSerializable(packets, i);
          return false, outbound, total, exceeds, requestKeyFrame;
        }
        BatchGrows(packets, i);
        var wireSize := next.value.WireSize();
        if wireSize > config.maxBufferedBytes || total > config.maxBufferedBytes - wireSize {
          exceeds := true;
        } else {
          total := total + wireSize;
        }
        requestKeyFrame := requestKeyFrame || !HasFlag(packets[i].header.flags, 4);
        outbound := outbound + [next.value];
        i := i + 1;
      }
      assert packets[..i] == packets;
    }

    method PendingBytes() returns (bytes: nat)
      ensures bytes == WireBytes(queue)
    {
      bytes := 0;
      var i := 0;
      while i < |queue|
        invariant 0 <= i <= |queue|
        invariant bytes == WireBytes(queue[..i])
      {
        assert queue[..i + 1][..i] == queue[..i];
        bytes := bytes + queue[i].WireSize();
        i := i + 1;
      }
      assert queue[..i] == queue;
    }

    method DiscardPending() returns (result: DiscardResult)
      requires Valid()
      modifies this
      ensures Valid()
      ensures Abs() == DiscardStep(old(Abs())).0 && result == DiscardStep(old(Abs())).1
    {
      hide Accounted;
      hide WireBytes;
      DiscardKeepsAccounts(Abs());
      var bytes := PendingBytes();
      result := DiscardResult(|queue|, bytes);
      queue := [];
      bufferedPackets := bufferedPackets - result.packets;
      bufferedBytes := bufferedBytes - result.bytes;
      stats := stats.(discardedPendingPackets := stats.discardedPendingPackets + result.packets,
                      discardedPendingBytes := stats.discardedPendingBytes + result.bytes);
      UpdateBufferedStats();
    }

    method StopSink()
      requires Valid()
      modifies this
      ensures Valid() && Abs() == StopStep(old(Abs()))
    {
      SinkStepKeepsAccounts(Abs(), Stop);
      stopped := true;
      queue := [];
      bufferedPackets := if inFlight then 1 else 0;
      bufferedBytes := inFlightBytes;
      UpdateBufferedStats();
    }

    /** The sender's first critical section. */
    method TakeFront()
      requires Valid() && CanPop(Abs())
      modifies this
      ensures Valid() && Abs() == PopStep(old(Abs()))
    {
      PopKeepsAccounts(Abs());
      current := Some(queue[0]);
      queue := queue[1..];
      inFlight := true;
      inFlightBytes := current.value.WireSize();
      progress := 0;
    }

    /** The sender outside the lock: header first, then payload. */
    method SendCurrent() returns (allSent: bool, ghost taken: nat)
      requires Valid() && current.Some? && progress == 0
      modifies this, socket
      ensures Valid() && current == old(current) && current.Some?
      ensures taken <= current.value.WireSize() && allSent == (taken == current.value.WireSize())
      ensures Abs() == ApplySinkStep(old(Abs()), Write(taken))
    {
      hide EncodeHeader;
      hide WireBytes;
      var packet := current.value;
      ghost var headerTaken;
      allSent, headerTaken := SendAll(socket, packet.header);
      taken := headerTaken;
      assert packet.Wire()[..headerTaken] == packet.header[..headerTaken];
      if allSent {
        ghost var payloadTaken;
        allSent, payloadTaken := SendAll(socket, packet.packet.payload);
        taken := headerTaken + payloadTaken;
        assert packet.Wire()[..taken] == packet.header + packet.packet.payload[..payloadTaken];
      }
      progress := taken;
    }

    /** The sender's second critical section. */
    method CompleteSend(allSent: bool)
      requires Valid() && current.Some? && allSent == (progress == current.value.WireSize())
      modifies this
      ensures Valid() && Abs() == CompleteStep(old(Abs()))
    {
      hide WireBytes;
      hide EncodeHeader;
      CompleteKeepsAccounts(Abs());
      SingleWireBytes(current.value);
      if allSent {
        RecordSent();
      } else {
        RecordFailure();
      }
    }

    method RecordSent()
      requires inFlight && current.Some? && inFlightBytes == current.value.WireSize()
      requires bufferedPackets >= 1 && bufferedBytes >= inFlightBytes
      modifies this
      ensures Abs() == SentStep(old(Abs())) && !inFlight && inFlightBytes == 0
    {
      var packet := current.value;
      ReleaseInFlight();
      sent := sent + [packet];
      stats := stats.(sentPackets := stats.sentPackets + 1, sentBytes := stats.sentBytes + packet.WireSize());
      UpdateBufferedStats();
    }

    method RecordFailure()
      requires inFlight && current.Some? && inFlightBytes == current.value.WireSize()
      requires bufferedPackets >= 1 && bufferedBytes >= inFlightBytes
      modifies this
      ensures Abs() == FailStep(old(Abs())) && !inFlight && inFlightBytes == 0
    {
      ReleaseInFlight();
      isConnected := false;
      queue := [];
      bufferedPackets := 0;
      bufferedBytes := 0;
      stats := stats.(sendErrors := stats.sendErrors + 1);
      UpdateBufferedStats();
    }

    method ReleaseInFlight()
      requires bufferedPackets >= 1 && bufferedBytes >= inFlightBytes
      modifies this`bufferedBytes, this`bufferedPackets, this`inFlight, this`inFlightBytes, this`current, this`progress
      ensures bufferedBytes == old(bufferedBytes) - old(inFlightBytes)
      ensures bufferedPackets == old(bufferedPackets) - 1
      ensures !inFlight && inFlightBytes == 0 && current == None && progress == 0
    {
      bufferedBytes := bufferedBytes - inFlightBytes;
      bufferedPackets := bufferedPackets - 1;
      inFlight := false;
      inFlightBytes := 0;
      current := None;
      progress := 0;
    }

    method UpdateBufferedStats()
      modifies this`stats
      ensures stats == old(stats).(bufferedPackets := bufferedPackets, bufferedBytes := bufferedBytes)
    {
      stats := stats.(bufferedPackets := bufferedPackets, bufferedBytes := bufferedBytes);
    }

    /** One turn of the sender loop when no other thread interferes. */
    method SendNext() returns (ghost taken: nat)
      requires Valid() && CanPop(Abs())
      modifies this, socket
      ensures Valid()
      ensures Abs() == RunSink(old(Abs()), [Pop, Write(taken), Complete])
    {
      ghost var before := Abs();
      TakeFront();
      var allSent;
      allSent, taken := SendCurrent();
      CompleteSend(allSent);
      ThreeSteps(before, Pop, Write(taken), Complete);
    }
  }

  lemma {:induction false} ThreeSteps(s: Sink, a: SinkStep, b: SinkStep, c: SinkStep)
    ensures RunSink(s, [a, b, c]) == ApplySinkStep(ApplySinkStep(ApplySinkStep(s, a), b), c)
  {
    assert [a, b, c][..2] == [a, b] && [a, b][..1] == [a] && [a][..0] == [];
    assert RunSink(s, [a]) == ApplySinkStep(s, a);
    assert RunSink(s, [a, b]) == ApplySinkStep(RunSink(s, [a]), b);
  }
}

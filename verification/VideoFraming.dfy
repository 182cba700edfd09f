/** The byte stream on the video socket, seen from the receiving end. */
module VideoFraming {
  import opened Bytes
  import opened VideoPacketProtocol
  import opened HostVideoSink

  datatype Frame = Frame(header: VideoPacketHeader, payload: seq<byte>)

  /** A receiver: parse a header, take `payloadSize` bytes, repeat while complete packets remain. */
  function Deframe(bytes: seq<byte>): seq<Frame>
    decreases |bytes|
  {
    if |bytes| < VIDEO_PACKET_HEADER_SIZE then []
    else match DecodeHeader(bytes[..VIDEO_PACKET_HEADER_SIZE])
      case None => []
      case Some(h) =>
        var end := VIDEO_PACKET_HEADER_SIZE + h.payloadSize;
        if |bytes| < end then []
        else [Frame(h, bytes[VIDEO_PACKET_HEADER_SIZE..end])] + Deframe(bytes[end..])
  }

  function Frames(packets: seq<OutboundPacket>): (r: seq<Frame>)
    ensures |r| == |packets|
  {
    if packets == [] then []
    else [Frame(packets[0].packet.header, packets[0].packet.payload)] + Frames(packets[1..])
  }

  function Stream(packets: seq<OutboundPacket>): seq<byte> {
    if packets == [] then [] else packets[0].Wire() + Stream(packets[1..])
  }

  lemma {:induction false} StreamAppend(packets: seq<OutboundPacket>, p: OutboundPacket)
    ensures Stream(packets + [p]) == Stream(packets) + p.Wire()
  {
    if packets == [] {
      assert packets + [p] == [p];
      assert [p][1..] == [];
    } else {
      assert (packets + [p])[1..] == packets[1..] + [p];
      StreamAppend(packets[1..], p);
    }
  }

  /** `tail` is the start of a packet that has not arrived completely. */
  ghost predicate Incomplete(tail: seq<byte>) {
    tail == [] || exists p: OutboundPacket :: p.WellFormed() && tail < p.Wire()
  }

  lemma {:induction false} IncompleteYieldsNothing(tail: seq<byte>)
    requires Incomplete(tail)
    ensures Deframe(tail) == []
  {
    hide EncodeHeader;
    hide IsValidHeader;
    if |tail| >= VIDEO_PACKET_HEADER_SIZE {
      var p: OutboundPacket :| p.WellFormed() && tail < p.Wire();
      assert tail[..80] == p.Wire()[..80] == p.header;
      DecodeEncodeHeader(p.packet.header);
    }
  }

  lemma {:induction false} DeframeOne(p: OutboundPacket, rest: seq<byte>)
    requires p.WellFormed()
    ensures Deframe(p.Wire() + rest) == [Frame(p.packet.header, p.packet.payload)] + Deframe(rest)
  {
    hide EncodeHeader;
    hide IsValidHeader;
    var bytes := p.Wire() + rest;
    DecodeEncodeHeader(p.packet.header);
    assert bytes[..80] == p.header;
    assert bytes[80..|p.Wire()|] == p.packet.payload;
    assert bytes[|p.Wire()|..] == rest;
  }

  /** Complete packets followed by an incomplete one decode to exactly the complete ones. */
  lemma {:induction false} DeframeStream(packets: seq<OutboundPacket>, tail: seq<byte>)
    requires AllWellFormed(packets) && Incomplete(tail)
    ensures Deframe(Stream(packets) + tail) == Frames(packets)
    decreases |packets|
  {
    if packets == [] {
      assert Stream(packets) + tail == tail;
      IncompleteYieldsNothing(tail);
    } else {
      var rest := Stream(packets[1..]) + tail;
      assert Stream(packets) + tail == packets[0].Wire() + rest;
      DeframeOne(packets[0], rest);
      DeframeStream(packets[1..], tail);
    }
  }

  /** `bytes` is `n` complete packets and the start of another. */
  ghost predicate HoldsPackets(bytes: seq<byte>, packets: seq<OutboundPacket>, n: nat) {
    && n <= |packets|
    && Stream(packets[..n]) <= bytes
    && Incomplete(bytes[|Stream(packets[..n])|..])
  }

  /** Cutting the stream anywhere leaves some complete packets and an incomplete one. */
  lemma {:induction false} CutStream(packets: seq<OutboundPacket>, tail: seq<byte>, k: nat) returns (n: nat)
    requires AllWellFormed(packets) && Incomplete(tail) && k <= |Stream(packets)| + |tail|
    ensures n <= |packets| && HoldsPackets((Stream(packets) + tail)[..k], packets, n)
    decreases |packets|
  {
    hide EncodeHeader;
    hide IsValidHeader;
    if packets == [] {
      assert Stream(packets) + tail == tail;
      CutTail(tail, k);
      n := 0;
      assert tail[..k][0..] == tail[..k];
    } else if k < |packets[0].Wire()| {
      CutPacket(packets[0], k);
      n := 0;
      var cut := (Stream(packets) + tail)[..k];
      assert cut == packets[0].Wire()[..k] && packets[..0] == [] && cut[0..] == cut;
    } else {
      var m := CutStream(packets[1..], tail, k - |packets[0].Wire()|);
      PrependPacket(packets, (Stream(packets[1..]) + tail)[..k - |packets[0].Wire()|], m);
      n := m + 1;
      assert (Stream(packets) + tail)[..k]
          == packets[0].Wire() + (Stream(packets[1..]) + tail)[..k - |packets[0].Wire()|];
    }
  }

  lemma {:induction false} PrependPacket(packets: seq<OutboundPacket>, bytes: seq<byte>, m: nat)
    requires packets != [] && HoldsPackets(bytes, packets[1..], m)
    ensures HoldsPackets(packets[0].Wire() + bytes, packets, m + 1)
  {
    var first, some := packets[0].Wire(), packets[1..][..m];
    assert packets[..m + 1][1..] == some;
    assert Stream(packets[..m + 1]) == first + Stream(some);
    assert (first + bytes)[|first + Stream(some)|..] == bytes[|Stream(some)|..];
  }

  lemma {:induction false} CutTail(tail: seq<byte>, k: nat)
    requires Incomplete(tail) && k <= |tail|
    ensures Incomplete(tail[..k])
  {
    if tail != [] {
      var p: OutboundPacket :| p.WellFormed() && tail < p.Wire();
      assert tail[..k] < p.Wire();
    }
  }

  lemma {:induction false} CutPacket(p: OutboundPacket, k: nat)
    requires p.WellFormed() && k < |p.Wire()|
    ensures Incomplete(p.Wire()[..k])
  {
    assert p.Wire()[..k] < p.Wire();
  }

  // ---------- what the sink writes ----------

  /** The socket holds the packets sent, then the part written of the one in flight; after a
      failed send, the part written of the packet that failed. */
  ghost predicate WireMatches(s: Sink) {
    && AllWellFormed(s.sent) && AllWellFormed(s.queue) && AllWellFormed(InFlight(s))
    && Stream(s.sent) <= s.wire
    && (s.current.Some? ==>
          s.progress <= |s.current.value.Wire()|
          && s.wire[|Stream(s.sent)|..] == s.current.value.Wire()[..s.progress])
    && (s.current.None? ==> Incomplete(s.wire[|Stream(s.sent)|..]))
    && (s.current.None? && s.connected ==> s.wire == Stream(s.sent))
    && (!s.connected ==> s.queue == [] && s.current.None?)
  }

  lemma {:induction false} WriteKeepsWire(s: Sink, n: nat)
    requires WireMatches(s) && CanWrite(s, n)
    ensures WireMatches(WriteStep(s, n))
  {
    hide EncodeHeader;
    var w, done := s.current.value.Wire(), Stream(s.sent);
    var t := WriteStep(s, n);
    assert w[..s.progress + n] == w[..s.progress] + w[s.progress..s.progress + n];
    assert s.wire == done + s.wire[|done|..];
    assert t.wire[|done|..] == s.wire[|done|..] + w[s.progress..s.progress + n];
  }

  lemma {:induction false} CompleteKeepsWire(s: Sink)
    requires WireMatches(s) && s.current.Some?
    ensures WireMatches(CompleteStep(s))
  {
    hide EncodeHeader;
    var p, done := s.current.value, Stream(s.sent);
    assert InFlight(s)[0] == p;
    if s.progress < p.WireSize() {
      CutPacket(p, s.progress);
    } else {
      StreamAppend(s.sent, p);
      assert p.Wire()[..s.progress] == p.Wire();
      assert s.wire == done + s.wire[|done|..];
      assert s.wire == Stream(s.sent + [p]);
    }
  }

  lemma {:induction false} StepKeepsWire(s: Sink, step: SinkStep)
    requires WireMatches(s)
    ensures WireMatches(ApplySinkStep(s, step))
  {
    hide Outbound;
    hide EncodeHeader;
    hide WireBytes;
    match step
    case SubmitBatch(batch) =>
    case Pop =>
      if CanPop(s) {
        assert s.queue[0].WellFormed();
        assert s.queue[0].Wire()[..0] == [];
      }
    case Write(n) => if CanWrite(s, n) { WriteKeepsWire(s, n); }
    case Complete => if s.current.Some? { CompleteKeepsWire(s); }
    case Discard =>
    case Stop =>
  }

  lemma {:induction false} RunKeepsWire(config: SinkConfig, steps: seq<SinkStep>)
    ensures WireMatches(RunSink(NewSink(config), steps))
  {
    if steps != [] {
      RunKeepsWire(config, steps[..|steps| - 1]);
      StepKeepsWire(RunSink(NewSink(config), steps[..|steps| - 1]), steps[|steps| - 1]);
    }
  }

  lemma {:induction false} FramesPrefix(packets: seq<OutboundPacket>, n: nat)
    requires n <= |packets|
    ensures Frames(packets[..n]) == Frames(packets)[..n]
    decreases |packets|
  {
    if n > 0 {
      FramesPrefix(packets[1..], n - 1);
      assert packets[..n][1..] == packets[1..][..n - 1];
    }
  }

  lemma {:induction false} HeldPacketsDecode(bytes: seq<byte>, packets: seq<OutboundPacket>, n: nat)
    requires AllWellFormed(packets) && HoldsPackets(bytes, packets, n)
    ensures Deframe(bytes) == Frames(packets)[..n]
  {
    hide Incomplete;
    hide EncodeHeader;
    var done := Stream(packets[..n]);
    assert bytes == done + bytes[|done|..];
    DeframeStream(packets[..n], bytes[|done|..]);
    FramesPrefix(packets, n);
  }

  /** The written bytes are complete packets and the start of another. */
  lemma {:induction false} WireShape(s: Sink) returns (packets: seq<OutboundPacket>, tail: seq<byte>)
    requires WireMatches(s)
    ensures AllWellFormed(packets) && Incomplete(tail) && s.wire == Stream(packets) + tail
    ensures s.sent <= packets <= s.sent + InFlight(s)
  {
    hide EncodeHeader;
    var rest := s.wire[|Stream(s.sent)|..];
    assert s.wire == Stream(s.sent) + rest;
    if s.current.Some? {
      var p := s.current.value;
      assert InFlight(s)[0] == p;
      if s.progress == |p.Wire()| {
        StreamAppend(s.sent, p);
        packets, tail := s.sent + [p], [];
        assert rest == p.Wire() && s.wire == Stream(packets) + tail;
      } else {
        CutPacket(p, s.progress);
        packets, tail := s.sent, rest;
      }
    } else {
      packets, tail := s.sent, rest;
    }
  }

  /** In every interleaving, despite partial sends and cut at any point, the written bytes decode
      to exactly a prefix of the packets, in order: nothing is misframed.  Uncut, they decode
      to at least every packet reported as sent. */
  lemma {:induction false} WireDecodesToPrefix(config: SinkConfig, steps: seq<SinkStep>, k: nat)
    requires k <= |RunSink(NewSink(config), steps).wire|
    ensures var s := RunSink(NewSink(config), steps);
            && Deframe(s.wire[..k]) <= Frames(s.sent + InFlight(s))
            && Frames(s.sent) <= Deframe(s.wire)
  {
    RunKeepsWire(config, steps);
    MatchingWireDecodes(RunSink(NewSink(config), steps), k);
  }

  lemma {:induction false} MatchingWireDecodes(s: Sink, k: nat)
    requires WireMatches(s) && k <= |s.wire|
    ensures Deframe(s.wire[..k]) <= Frames(s.sent + InFlight(s))
    ensures Frames(s.sent) <= Deframe(s.wire)
  {
    hide Incomplete;
    hide HoldsPackets;
    hide WireMatches;
    hide EncodeHeader;
    hide Deframe;
    hide AllWellFormed;
    hide Stream;
    hide InFlight;
    var packets, tail := WireShape(s);
    var n := CutStream(packets, tail, k);
    HeldPacketsDecode(s.wire[..k], packets, n);
    DeframeStream(packets, tail);
    var all := s.sent + InFlight(s);
    FramesPrefix(all, |packets|);
    FramesPrefix(packets, |s.sent|);
    assert all[..|packets|] == packets && packets[..|s.sent|] == s.sent;
    assert Frames(packets)[..n] == Frames(all)[..n];
    assert Deframe(s.wire[..k]) == Frames(all)[..n];
    assert Frames(s.sent) == Deframe(s.wire)[..|s.sent|];
  }
}

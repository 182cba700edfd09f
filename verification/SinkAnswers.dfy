/** What the video sink answers to a batch, and that its sender gets everything out. */
module SinkAnswers {
  import opened VideoPacketProtocol
  import opened HostVideoSink

  /** A packet the wire format can carry. */
  predicate CanBeSent(p: HostVideoPacket) {
    && |p.payload| <= 0xffff_ffff && p.header.presentationTimeUs >= 0 && p.header.codec == CODEC_H264
    && p.header.flags < 16 && HasMatchingDisplayAspect(Geometry(p.header))
  }

  predicate AllCanBeSent(batch: seq<HostVideoPacket>) { forall i :: 0 <= i < |batch| ==> CanBeSent(batch[i]) }

  /** Bytes a batch takes on the wire: a header of 80 bytes before each payload. */
  function BatchBytes(batch: seq<HostVideoPacket>): nat {
    if batch == [] then 0 else BatchBytes(batch[..|batch| - 1]) + 80 + |batch[|batch| - 1].payload|
  }

  lemma {:induction false} OutboundIs(p: HostVideoPacket)
    ensures Outbound(p).Some? <==> CanBeSent(p)
    ensures Outbound(p).Some? ==> Outbound(p).value.WireSize() == 80 + |p.payload|
  {
    hide EncodeHeader;
    hide HasMatchingDisplayAspect;
  }

  lemma {:induction false} BatchIs(batch: seq<HostVideoPacket>)
    ensures Serializable(batch) <==> AllCanBeSent(batch)
    ensures Serializable(batch) ==> WireBytes(OutboundAll(batch)) == BatchBytes(batch)
  {
    forall i | 0 <= i < |batch| ensures Outbound(batch[i]).Some? <==> CanBeSent(batch[i]) {
      OutboundIs(batch[i]);
    }
    hide Outbound;
    hide CanBeSent;
    if batch != [] && Serializable(batch) {
      var n := |batch| - 1;
      BatchIs(batch[..n]);
      OutboundIs(batch[n]);
      assert OutboundAll(batch)[..n] == OutboundAll(batch[..n]);
    }
  }

  /** Packets and bytes still to be sent, the one being written included. */
  function BufferedPackets(s: Sink): nat { |s.queue| + |InFlight(s)| }

  function BufferedBytes(s: Sink): nat { WireBytes(s.queue) + WireBytes(InFlight(s)) }

  predicate HasRoomFor(s: Sink, batch: seq<HostVideoPacket>) {
    && BufferedPackets(s) + |batch| <= s.config.maxBufferedPackets
    && BufferedBytes(s) + BatchBytes(batch) <= s.config.maxBufferedBytes
  }

  /** The answer to a batch. */
  predicate IsAnswered(s: Sink, batch: seq<HostVideoPacket>, t: Sink, r: EnqueueResult) {
    var sendable := batch != [] && AllCanBeSent(batch);
    && (r.status.InvalidPacket? <==> !sendable)
    && (r.status.Stopped? <==> sendable && s.stopped)
    && (r.status.Disconnected? <==> sendable && !s.stopped && !s.connected)
    && (r.status.QueueFull? <==> sendable && !s.stopped && s.connected && !HasRoomFor(s, batch))
    && (r.status.Accepted? <==> sendable && !s.stopped && s.connected && HasRoomFor(s, batch))
    && (r.requestKeyFrame <==>
          r.status.QueueFull? && exists i :: 0 <= i < |batch| && !HasFlag(batch[i].header.flags, 4))
    && t.stats.acceptedPackets == s.stats.acceptedPackets + (if r.status.Accepted? then |batch| else 0)
    && t.stats.rejectedQueueFull == s.stats.rejectedQueueFull + (if r.status.QueueFull? then |batch| else 0)
  }

  /** In every interleaving, a batch is accepted exactly when it is not empty, every packet can be
      sent, the sink is connected and runs, and queue, packet in flight and batch together stay
      within both limits; the other answers have their own reasons, in this order. */
  lemma {:induction false} BatchesAreAnswered(config: SinkConfig, steps: seq<SinkStep>, batch: seq<HostVideoPacket>)
    requires ValidConfig(config)
    ensures var s := RunSink(NewSink(config), steps); var (t, r) := SubmitBatchStep(s, batch); IsAnswered(s, batch, t, r)
  {
    SinkRunKeepsAccounts(config, steps);
    hide RunSink;
    CountedAnswers(RunSink(NewSink(config), steps), batch);
  }

  lemma {:induction false} CountedAnswers(s: Sink, batch: seq<HostVideoPacket>)
    requires s.bufferedPackets == BufferedPackets(s) && s.bufferedBytes == BufferedBytes(s)
    ensures var (t, r) := SubmitBatchStep(s, batch); IsAnswered(s, batch, t, r)
  {
    BatchIs(batch);
    hide BufferedPackets;
    hide BufferedBytes;
    hide WireBytes;
    hide OutboundAll;
    hide Serializable;
    hide AllCanBeSent;
    hide HasFlag;
  }

  /** A sink fails once at most: the failure is counted and ends the connection. */
  lemma {:induction false} SendErrorsAreCounted(config: SinkConfig, steps: seq<SinkStep>)
    ensures var s := RunSink(NewSink(config), steps); s.stats.sendErrors == if s.connected then 0 else 1
    ensures var s := RunSink(NewSink(config), steps); !s.connected ==> s.current.None? && s.queue == []
  {
    if steps != [] {
      var n := |steps| - 1;
      SendErrorsAreCounted(config, steps[..n]);
      hide Outbound;
      hide WireBytes;
    }
  }

  // ---------- everything gets out ----------

  lemma {:induction false} RunAppends(s: Sink, first: seq<SinkStep>, second: seq<SinkStep>)
    ensures RunSink(s, first + second) == RunSink(RunSink(s, first), second)
  {
    if second == [] {
      assert first + second == first;
    } else {
      var n := |second| - 1;
      assert (first + second)[..|first| + n] == first + second[..n];
      RunAppends(s, first, second[..n]);
    }
  }

  predicate BySender(step: SinkStep) { step.Pop? || step.Write? || step.Complete? }

  predicate AllBySender(steps: seq<SinkStep>) { forall k :: 0 <= k < |steps| ==> BySender(steps[k]) }

  lemma {:induction false} RunOne(s: Sink, step: SinkStep)
    ensures RunSink(s, [step]) == ApplySinkStep(s, step)
  {
    assert [step][..0] == [];
  }

  /** From any point the sender can go on until all that is queued or in flight is sent, in order:
      no accepted packet is stuck. */
  lemma {:induction false} SenderGetsAllOut(s: Sink) returns (steps: seq<SinkStep>)
    requires Accounted(s) && s.connected && !s.stopped
    ensures AllBySender(steps)
    ensures var t := RunSink(s, steps); t.sent == Line(s) && t.queue == [] && t.current.None? && t.connected && !t.stopped
    decreases |s.queue| + |InFlight(s)|, WorkLeft(s)
  {
    if s.current.None? && s.queue == [] {
      steps := [];
    } else {
      var step := NextStep(s);
      var t := ApplySinkStep(s, step);
      SinkStepKeepsAccounts(s, step);
      Advances(s);
      hide ApplySinkStep;
      hide Accounted;
      var rest := SenderGetsAllOut(t);
      steps := [step] + rest;
      RunOne(s, step);
      RunAppends(s, [step], rest);
    }
  }

  /** What is left to do for the packet at hand. */
  function WorkLeft(s: Sink): nat {
    if s.current.None? then 2 else if s.progress < s.current.value.WireSize() then 1 else 0
  }

  function NextStep(s: Sink): SinkStep {
    if s.current.None? then Pop
    else if s.progress < s.current.value.WireSize() then Write(s.current.value.WireSize() - s.progress)
    else Complete
  }

  lemma {:induction false} Advances(s: Sink)
    requires Accounted(s) && s.connected && !s.stopped && (s.current.Some? || s.queue != [])
    ensures var t := ApplySinkStep(s, NextStep(s));
            && t.connected && !t.stopped && Line(t) == Line(s)
            && var m, n := |s.queue| + |InFlight(s)|, |t.queue| + |InFlight(t)|;
            n < m || (n == m && WorkLeft(t) < WorkLeft(s))
  {
    hide WireBytes;
    var t := ApplySinkStep(s, NextStep(s));
    if s.current.None? {
      assert s.queue == [s.queue[0]] + s.queue[1..];
    } else if s.progress == s.current.value.WireSize() {
      assert Line(t) == Line(s);
    }
  }
}

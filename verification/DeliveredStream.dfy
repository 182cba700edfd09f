/** The recovery policy and the byte stream together: what a receiver makes of the bytes. */
module DeliveredStream {
  import opened HostVideoSink
  import opened VideoOutputController
  import opened VideoDelivery
  import opened VideoFraming

  /** The sink of a run went through critical sections of its own. */
  lemma {:induction false} SinkRuns(config: OutputConfig, sinkConfig: SinkConfig, steps: seq<Step>)
    returns (ran: seq<SinkStep>)
    ensures VideoDelivery.Run(config, sinkConfig, steps).sink == RunSink(NewSink(sinkConfig), ran)
  {
    ran := [];
    if steps != [] {
      var n := |steps| - 1;
      var before := SinkRuns(config, sinkConfig, steps[..n]);
      var d := VideoDelivery.Run(config, sinkConfig, steps[..n]);
      var taken := SinkSteps(d, steps[n]);
      ran := before + taken;
      if taken == [] {
        assert ran == before;
      } else {
        assert ran[..|before|] == before;
      }
    }
  }

  /** One step runs at most one critical section of the sink. */
  lemma {:induction false} SinkSteps(d: Delivery, step: Step) returns (taken: seq<SinkStep>)
    ensures |taken| <= 1
    ensures Apply(d, step).sink == if taken == [] then d.sink else ApplySinkStep(d.sink, taken[0])
  {
    taken := [];
    match step
    case EncoderOutput(fed) =>
      if !d.ended && d.worker.Idle? {
        var plan := Prepare(d.controller, WithOrdinal(fed, |d.encoded|), true).1;
        hide Prepare;
        hide SubmitBatchStep;
        if plan.Submission? {
          taken := [SubmitBatch(plan.batch)];
        }
      }
    case FinishDiscard(accepts) =>
      if d.worker.MustDiscard? {
        var discards := Resume(d.controller, d.worker.count, d.worker.kind, d.worker.answer).2;
        hide Resume;
        hide DiscardStep;
        if discards {
          taken := [Discard];
        }
      }
    case SenderStep(s) =>
      if ByOtherThreads(s) {
        taken := [s];
      }
    case RecordSubmission(_, _) =>
  }

  /** What a receiver can play: frames that are `line`, each carrying what the encoder produced,
      decodable from the start, with codec data before key frames and rising numbers. */
  ghost predicate IsPlayable(d: Delivery, line: seq<OutboundPacket>, frames: seq<Frame>) {
    && frames == Frames(line)
    && Decodable(d.encoded, line) && AllCarry(d.encoded, line) && ConfigFirst(d.encoded, line)
    && (d.made <= SEQUENCE_COUNT ==> SequencesIncrease(line))
  }

  /** In every interleaving of controller, sender and stop, with any cuts by the socket, the first
      `k` bytes on the wire are deframed to a playable stream, a prefix of the packets sent and in
      flight; and all of the bytes to no less than the packets reported as sent. */
  lemma {:induction false} ReceivedStreamIsPlayable(config: OutputConfig, sinkConfig: SinkConfig, steps: seq<Step>, k: nat)
    requires ValidConfig(sinkConfig) && k <= |VideoDelivery.Run(config, sinkConfig, steps).sink.wire|
    ensures var d := VideoDelivery.Run(config, sinkConfig, steps);
            && Frames(d.sink.sent) <= Deframe(d.sink.wire)
            && exists line :: line <= d.sink.sent + InFlight(d.sink) && IsPlayable(d, line, Deframe(d.sink.wire[..k]))
  {
    var d := VideoDelivery.Run(config, sinkConfig, steps);
    var ran := SinkRuns(config, sinkConfig, steps);
    VideoDelivery.RunKeeps(config, sinkConfig, steps);
    WireDecodesToPrefix(sinkConfig, ran, k);
    hide VideoDelivery.Run;
    hide RunSink;
    PrefixIsPlayable(d, Deframe(d.sink.wire[..k]));
  }

  lemma {:induction false} PrefixIsPlayable(d: Delivery, frames: seq<Frame>)
    requires VideoDelivery.Inv(d) && frames <= Frames(d.sink.sent + InFlight(d.sink))
    ensures exists line :: line <= d.sink.sent + InFlight(d.sink) && IsPlayable(d, line, frames)
  {
    var out := d.sink.sent + InFlight(d.sink);
    var line := out[..|frames|];
    FramesPrefix(out, |frames|);
    assert line <= Line(d.sink);
    GoodLinePrefix(d.encoded, Line(d.sink), line, d.made);
    hide Decodable;
    assert IsPlayable(d, line, frames);
  }
}

/** Which encoder packets are handed to the sink: the gate that recovery closes and a key frame opens. */
module DeliveryGate {
  import opened Bytes
  import opened Options
  import opened HostVideoSink
  import opened VideoOutputController
  import opened VideoDelivery
  import opened DeliveryTimes

  predicate BringsKeyFrame(output: DequeueResult) {
    output.Packet? && output.packet.flags.keyFrame && !output.packet.flags.endOfStream
  }

  datatype Gate = NeverOpened | Open | Discarded

  /** Seen from outside: opened by each key frame that the sink takes, and closed by each discarded
      queue. */
  ghost function GateAfter(config: OutputConfig, sinkConfig: SinkConfig, steps: seq<Step>): Gate {
    if steps == [] then NeverOpened
    else
      var n := |steps| - 1;
      NextGate(GateAfter(config, sinkConfig, steps[..n]), Run(config, sinkConfig, steps[..n]), steps[n],
               Run(config, sinkConfig, steps))
  }

  ghost function NextGate(gate: Gate, d: Delivery, step: Step, e: Delivery): Gate {
    match step
    case EncoderOutput(output) =>
      if Listens(d) && BringsKeyFrame(output) && |Line(e.sink)| > |Line(d.sink)| then Open else gate
    case FinishDiscard(_) => if d.worker.MustDiscard? then Discarded else gate
    case _ => gate
  }

  ghost predicate GateInv(config: OutputConfig, d: Delivery, gate: Gate) {
    && d.controller.config == config
    && (!d.ended ==>
          d.controller.state == match gate case NeverOpened => Starting case Open => Streaming case Discarded => Recovering)
  }

  /** How many packets an encoder output makes: codec data is kept for later, a key frame goes out
      behind the newest codec data, any other frame only while the gate is open, the last packet
      always. */
  function PacketsMade(encoded: seq<PacketOutput>, output: DequeueResult, gate: Gate): nat {
    if !output.Packet? && !output.EndOfStreamPacket? then 0
    else if output.EndOfStreamPacket? || output.packet.flags.endOfStream then 1
    else if output.packet.flags.keyFrame then if LatestConfig(encoded, |encoded|).Some? then 2 else 1
    else if output.packet.flags.codecConfig then 0
    else if gate.Open? then 1 else 0
  }

  /** What one output does: its packets join the line together, or the queue is to be discarded, or
      the run ends; without packets nothing changes, and the run ends only with an encoder error. */
  ghost predicate IsFed(d: Delivery, output: DequeueResult, gate: Gate, e: Delivery) {
    var count := PacketsMade(d.encoded, output, gate);
    && e.made == d.made + count
    && (count == 0 ==> e.sink == d.sink && e.worker.Idle? && (e.ended <==> output.DequeueError?))
    && (count > 0 ==>
          || |Line(e.sink)| == |Line(d.sink)| + count
          || (Line(e.sink) == Line(d.sink) && (e.worker.MustDiscard? || e.ended)))
    && (|Line(e.sink)| > |Line(d.sink)| ==>
          e.worker.Idle? && (e.ended <==> output.EndOfStreamPacket? || output.packet.flags.endOfStream))
  }

  lemma {:induction false} FeedIsGated(config: OutputConfig, d: Delivery, fed: DequeueResult, gate: Gate)
    requires GateInv(config, d, gate) && Listens(d) && Remembers(d.controller, d.encoded, d.made)
    ensures IsFed(d, fed, gate, Feed(d, fed))
  {
    PlanIs(config, d, fed, gate);
    FeedIs(d, fed);
    hide Feed;
    hide GateInv;
    hide Remembers;
    var (prepared, plan) := Prepare(d.controller, WithOrdinal(fed, |d.encoded|), true);
    hide Prepare;
    hide PacketsMade;
    if plan.Submission? {
      SubmissionIsFed(d, fed, gate, prepared, plan.kind, Feed(d, fed));
    }
    hide Line;
  }

  lemma {:induction false} SubmissionIsFed(d: Delivery, fed: DequeueResult, gate: Gate, prepared: Controller, kind: Kind,
                                           e: Delivery)
    requires PacketsMade(d.encoded, fed, gate) > 0
    requires IsSubmitted(d, prepared, PacketsMade(d.encoded, fed, gate), kind, e)
    requires kind.Terminal? <==> fed.EndOfStreamPacket? || fed.packet.flags.endOfStream
    ensures IsFed(d, fed, gate, e)
  {
    hide PacketsMade;
    hide Line;
  }

  lemma {:induction false} FeedKeepsGate(config: OutputConfig, d: Delivery, fed: DequeueResult, gate: Gate)
    requires GateInv(config, d, gate) && Listens(d) && Remembers(d.controller, d.encoded, d.made)
    ensures GateInv(config, Feed(d, fed), NextGate(gate, d, EncoderOutput(fed), Feed(d, fed)))
  {
    PlanIs(config, d, fed, gate);
    FeedIs(d, fed);
    hide Feed;
    hide Remembers;
    var (prepared, plan) := Prepare(d.controller, WithOrdinal(fed, |d.encoded|), true);
    hide Prepare;
    assert BringsKeyFrame(fed) ==> PacketsMade(d.encoded, fed, gate) > 0;
    hide PacketsMade;
    hide BringsKeyFrame;
    if plan.Submission? {
      SubmissionKeepsGate(config, d, fed, gate, prepared, |plan.batch|, plan.kind, Feed(d, fed));
      hide GateInv;
    }
    hide Line;
  }

  lemma {:induction false} SubmissionKeepsGate(config: OutputConfig, d: Delivery, fed: DequeueResult, gate: Gate,
                                               prepared: Controller, count: nat, kind: Kind, e: Delivery)
    requires GateInv(config, d, gate) && Listens(d) && count > 0
    requires prepared.config == d.controller.config && prepared.state == d.controller.state
    requires IsSubmitted(d, prepared, count, kind, e) && (kind.AccessPoint? <==> BringsKeyFrame(fed))
    ensures GateInv(config, e, NextGate(gate, d, EncoderOutput(fed), e))
  {
    hide Line;
    hide BringsKeyFrame;
  }

  /** One output, by its plan and by whether the sink takes the batch. */
  lemma {:induction false} FeedIs(d: Delivery, fed: DequeueResult)
    requires Listens(d)
    ensures var e, (prepared, plan) := Feed(d, fed), Prepare(d.controller, WithOrdinal(fed, |d.encoded|), true);
            match plan
            case Return(result) =>
              e.sink == d.sink && e.worker.Idle? && e.made == d.made && e.ended == !result.success && e.controller == prepared
            case Submission(batch, kind) => IsSubmitted(d, prepared, |batch|, kind, e)
  {
    hide Prepare;
    hide SubmitBatchStep;
    hide Answered;
    var x := WithOrdinal(fed, |d.encoded|);
    var (prepared, plan) := Prepare(d.controller, x, true);
    if plan.Submission? {
      var batch := plan.batch;
      SubmitExtendsLine(d.sink, batch);
      var (sink, answer) := SubmitBatchStep(d.sink, batch);
      var submitted := d.(controller := prepared, sink := sink, made := d.made + |batch|,
                          encoded := if x.Packet? || x.EndOfStreamPacket? then d.encoded + [x] else d.encoded);
      assert Feed(d, fed) == Answered(submitted, |batch|, plan.kind, answer);
      hide Feed;
      AnswerIs(submitted, |batch|, plan.kind, answer);
      hide Line;
      hide OutboundAll;
      hide Serializable;
    }
  }

  ghost predicate IsSubmitted(d: Delivery, prepared: Controller, count: nat, kind: Kind, e: Delivery) {
    && e.made == d.made + count && e.controller.config == prepared.config
    && if e.worker.Idle? && !(e.ended && Line(e.sink) == Line(d.sink)) then
         && |Line(e.sink)| == |Line(d.sink)| + count && (e.ended <==> kind.Terminal?)
         && e.controller.state == (if kind.Terminal? then OutputEnded
                                   else if kind.AccessPoint? then Streaming else prepared.state)
       else
         && Line(e.sink) == Line(d.sink) && (e.ended <==> e.worker.Idle?)
         && (!e.ended ==> e.controller.state == prepared.state)
  }

  lemma {:induction false} AnswerIs(d: Delivery, count: nat, kind: Kind, answer: EnqueueResult)
    requires Listens(d)
    ensures var e := Answered(d, count, kind, answer);
            && e.made == d.made && e.sink == d.sink && e.controller.config == d.controller.config
            && (e.worker.MustDiscard? <==> answer.status.QueueFull?)
            && (answer.status.QueueFull? ==> !e.ended && e.controller.state == d.controller.state)
            && (answer.status.Accepted? ==>
                  && (e.ended <==> kind.Terminal?)
                  && e.controller.state == (if kind.Terminal? then OutputEnded
                                            else if kind.AccessPoint? then Streaming else d.controller.state))
            && (!answer.status.Accepted? && !answer.status.QueueFull? ==> e.ended)
  {
  }

  lemma {:induction false} PlanIs(config: OutputConfig, d: Delivery, output: DequeueResult, gate: Gate)
    requires GateInv(config, d, gate) && Listens(d) && Remembers(d.controller, d.encoded, d.made)
    ensures var (prepared, plan) := Prepare(d.controller, WithOrdinal(output, |d.encoded|), true);
            && prepared.config == d.controller.config
            && (plan.Return? <==> PacketsMade(d.encoded, output, gate) == 0)
            && (plan.Submission? ==> |plan.batch| == PacketsMade(d.encoded, output, gate))
            && (plan.Submission? ==> prepared.state == d.controller.state)
            && (plan.Submission? ==> (plan.kind.Terminal? <==> output.EndOfStreamPacket? || output.packet.flags.endOfStream)
                                     && (plan.kind.AccessPoint? <==> BringsKeyFrame(output)))
            && (plan.Return? ==> plan.result.success == !output.DequeueError?
                                 && (plan.result.success ==> prepared.state == d.controller.state))
  {
    hide NextSequence;
    hide LatestConfig;
  }

  lemma {:induction false} StepKeepsGate(config: OutputConfig, d: Delivery, step: Step, gate: Gate)
    requires GateInv(config, d, gate) && VideoDelivery.Inv(d)
    ensures GateInv(config, Apply(d, step), NextGate(gate, d, step, Apply(d, step)))
  {
    match step
    case EncoderOutput(output) =>
      if Listens(d) {
        FeedKeepsGate(config, d, output, gate);
      }
      hide Feed;
    case _ =>
  }

  lemma {:induction false} RunKeepsGate(config: OutputConfig, sinkConfig: SinkConfig, steps: seq<Step>)
    requires ValidConfig(sinkConfig)
    ensures GateInv(config, Run(config, sinkConfig, steps), GateAfter(config, sinkConfig, steps))
  {
    if steps != [] {
      var n := |steps| - 1;
      RunKeepsGate(config, sinkConfig, steps[..n]);
      VideoDelivery.RunKeeps(config, sinkConfig, steps[..n]);
      StepKeepsGate(config, Run(config, sinkConfig, steps[..n]), steps[n], GateAfter(config, sinkConfig, steps[..n]));
      hide Apply;
      hide NextGate;
      hide GateInv;
    }
  }

  /** In every interleaving, an output that the worker takes up is handed to the sink or held back by
      this rule: no frame is dropped while the gate is open, and none but key frames and the last
      packet passes while it is closed. */
  lemma {:induction false} OutputsPassTheGate(config: OutputConfig, sinkConfig: SinkConfig, steps: seq<Step>,
                                              output: DequeueResult)
    requires ValidConfig(sinkConfig) && Listens(Run(config, sinkConfig, steps))
    ensures var d := Run(config, sinkConfig, steps);
            IsFed(d, output, GateAfter(config, sinkConfig, steps), Apply(d, EncoderOutput(output)))
  {
    RunKeepsGate(config, sinkConfig, steps);
    VideoDelivery.RunKeeps(config, sinkConfig, steps);
    FeedIsGated(config, Run(config, sinkConfig, steps), output, GateAfter(config, sinkConfig, steps));
    hide Run;
    hide GateAfter;
    hide Feed;
    hide IsFed;
  }

  // ---------- the discontinuity flag ----------

  /** What calls for the flag on a key frame. */
  predicate MarksGap(config: OutputConfig, gate: Gate) {
    gate.Discarded? || (gate.NeverOpened? && config.initialDiscontinuity)
  }

  ghost predicate AreFlagged(batch: seq<HostVideoPacket>, marked: bool) {
    forall i :: 0 <= i < |batch| ==> (HasFlag(batch[i].header.flags, 8) <==> marked && i == |batch| - 1)
  }

  lemma {:induction false} BatchIsFlagged(c: Controller, x: PacketOutput)
    requires Prepare(c, x, true).1.Submission?
    ensures AreFlagged(Prepare(c, x, true).1.batch, IsKeyFrame(x) && MarksDiscontinuity(c))
  {
    SubmittedBatch(c, x);
    var batch := Prepare(c, x, true).1.batch;
    var time: u64 :|
      batch == if IsKeyFrame(x) then AccessPointBatch(c, x.packet, time)
               else [HostPacket(c.config, x.packet, c.nextSequence, false, time)];
    hide Prepare;
    FlagBitsRead(WireFlags(x.packet.flags, MarksDiscontinuity(c)));
    FlagBitsRead(WireFlags(x.packet.flags, false));
    if c.codecConfig.Some? {
      FlagBitsRead(WireFlags(c.codecConfig.value.flags, false));
    }
    hide HasFlag;
    hide MarksDiscontinuity;
  }

  /** The line only grows, and of the packets that joined only the last one may have the flag. */
  ghost predicate JoinsMarked(before: seq<OutboundPacket>, line: seq<OutboundPacket>, marked: bool) {
    && before <= line
    && forall i :: |before| <= i < |line| ==> (Discontinuity(line[i]) <==> marked && i == |line| - 1)
  }

  lemma {:induction false} FlagStays(before: seq<OutboundPacket>, batch: seq<HostVideoPacket>, marked: bool)
    requires Serializable(batch) && AreFlagged(batch, marked)
    ensures JoinsMarked(before, before + OutboundAll(batch), marked)
  {
    hide HasFlag;
  }

  lemma {:induction false} FeedMarks(d: Delivery, fed: DequeueResult, x: PacketOutput)
    requires (fed.Packet? || fed.EndOfStreamPacket?) && x == WithOrdinal(fed, |d.encoded|)
    ensures JoinsMarked(Line(d.sink), Line(Feed(d, fed).sink), IsKeyFrame(x) && MarksDiscontinuity(d.controller))
  {
    var batch := DeliveryTimes.FeedIs(d, fed, x);
    var before, marked := Line(d.sink), IsKeyFrame(x) && MarksDiscontinuity(d.controller);
    hide Feed;
    hide Line;
    hide IsKeyFrame;
    hide MarksDiscontinuity;
    if Line(Feed(d, fed).sink) == before {
      hide Prepare;
    } else {
      BatchIsFlagged(d.controller, x);
      hide Prepare;
      FlagStays(before, batch, marked);
      hide JoinsMarked;
    }
    hide OutboundAll;
    hide Serializable;
    hide AreFlagged;
  }

  /** In every interleaving, a packet that joins the line carries the discontinuity flag exactly when
      it is a key frame, and a queue was discarded since the sink took the last one, or it is the
      first one of a stream that begins with a gap. */
  lemma {:induction false} DiscontinuitiesAreGaps(config: OutputConfig, sinkConfig: SinkConfig, steps: seq<Step>,
                                                  output: DequeueResult)
    requires ValidConfig(sinkConfig) && Listens(Run(config, sinkConfig, steps))
    requires output.Packet? || output.EndOfStreamPacket?
    ensures var d, gate := Run(config, sinkConfig, steps), GateAfter(config, sinkConfig, steps);
            JoinsMarked(Line(d.sink), Line(Apply(d, EncoderOutput(output)).sink), BringsKeyFrame(output) && MarksGap(config, gate))
  {
    var d, gate := Run(config, sinkConfig, steps), GateAfter(config, sinkConfig, steps);
    RunKeepsGate(config, sinkConfig, steps);
    var x: PacketOutput := WithOrdinal(output, |d.encoded|);
    FeedMarks(d, output, x);
    hide Run;
    hide GateAfter;
    hide JoinsMarked;
    hide Feed;
    hide Line;
  }

  // ---------- discarded queues ----------

  predicate IsLast(output: DequeueResult) { output.EndOfStreamPacket? || (output.Packet? && output.packet.flags.endOfStream) }

  /** A worker that is to discard the queue has just failed to submit the newest packet. */
  ghost predicate WorkerInv(d: Delivery) {
    d.worker.MustDiscard? ==>
      d.encoded != [] && (d.worker.kind.Terminal? <==> IsLast(d.encoded[|d.encoded| - 1]))
  }

  lemma {:induction false} RunKeepsWorker(config: OutputConfig, sinkConfig: SinkConfig, steps: seq<Step>)
    requires ValidConfig(sinkConfig)
    ensures WorkerInv(Run(config, sinkConfig, steps))
  {
    if steps != [] {
      var n := |steps| - 1;
      RunKeepsWorker(config, sinkConfig, steps[..n]);
      StepKeepsWorker(Run(config, sinkConfig, steps[..n]), steps[n]);
      hide Apply;
      hide WorkerInv;
    }
  }

  lemma {:induction false} StepKeepsWorker(d: Delivery, step: Step)
    requires WorkerInv(d)
    ensures WorkerInv(Apply(d, step))
  {
    if step.EncoderOutput? && Listens(d) {
      var output := WithOrdinal(step.output, |d.encoded|);
      if output.Packet? || output.EndOfStreamPacket? {
        if Prepare(d.controller, output, true).1.Submission? {
          SubmittedBatch(d.controller, output);
        }
      }
    }
    hide Prepare;
    hide SubmitBatchStep;
    hide Resume;
    hide ApplySinkStep;
  }

  /** In every interleaving, a worker that found the queue full empties it and keeps what was sent or
      is in flight; it asks for a key frame, and goes on if the encoder agrees, unless the packet it
      could not submit was the last. */
  lemma {:induction false} QueuesAreDiscarded(config: OutputConfig, sinkConfig: SinkConfig, steps: seq<Step>, accepts: bool)
    requires ValidConfig(sinkConfig) && Run(config, sinkConfig, steps).worker.MustDiscard?
    ensures var d := Run(config, sinkConfig, steps);
            var e, goesOn := Apply(d, FinishDiscard(accepts)), d.encoded != [] && !IsLast(d.encoded[|d.encoded| - 1]);
            && e.worker.Idle? && e.sink.queue == [] && e.sink.sent == d.sink.sent && e.sink.current == d.sink.current
            && e.sink.wire == d.sink.wire && e.sink.connected == d.sink.connected
            && (e.ended <==> !goesOn || !accepts)
            && e.requests == d.requests + (if goesOn && accepts then [|d.encoded|] else [])
            && e.encoded == d.encoded && e.made == d.made
            && e.controller.stats.keyFrameRequests == d.controller.stats.keyFrameRequests + (if goesOn then 1 else 0)
            && e.controller.stats.droppedPackets == d.controller.stats.droppedPackets + d.worker.count
            && e.controller.stats.recoveryEvents
               == d.controller.stats.recoveryEvents
                  + (if goesOn && !GateAfter(config, sinkConfig, steps).Discarded? then 1 else 0)
  {
    VideoDelivery.RunKeeps(config, sinkConfig, steps);
    RunKeepsGate(config, sinkConfig, steps);
    hide GateAfter;
    RunKeepsWorker(config, sinkConfig, steps);
    hide Run;
    hide GoodLine;
    hide Accounted;
    hide WireBytes;
  }

  // ---------- counts ----------

  /** What one output adds to the counts: it is a packet; codec data is remembered; packets the sink
      took are accepted, and a frame held back is dropped. */
  lemma {:induction false} OutputsAreCounted(config: OutputConfig, sinkConfig: SinkConfig, steps: seq<Step>,
                                             output: DequeueResult)
    requires ValidConfig(sinkConfig) && Listens(Run(config, sinkConfig, steps))
    requires output.Packet? || output.EndOfStreamPacket?
    ensures var d, gate := Run(config, sinkConfig, steps), GateAfter(config, sinkConfig, steps);
            IsCounted(d, output, gate, Apply(d, EncoderOutput(output)))
  {
    RunKeepsGate(config, sinkConfig, steps);
    VideoDelivery.RunKeeps(config, sinkConfig, steps);
    CountsOf(config, Run(config, sinkConfig, steps), output, GateAfter(config, sinkConfig, steps));
    hide Run;
    hide GateAfter;
    hide Feed;
    hide IsCounted;
  }

  predicate IsCodecData(output: DequeueResult) {
    output.Packet? && output.packet.flags.codecConfig && !output.packet.flags.keyFrame && !IsLast(output)
  }

  ghost predicate IsCounted(d: Delivery, output: DequeueResult, gate: Gate, e: Delivery) {
    var before, after, count := d.controller.stats, e.controller.stats, PacketsMade(d.encoded, output, gate);
    && after.encoderPackets == before.encoderPackets + 1
    && after.codecConfigUpdates == before.codecConfigUpdates + (if IsCodecData(output) then 1 else 0)
    && after.acceptedPackets == before.acceptedPackets + (if |Line(e.sink)| > |Line(d.sink)| then count else 0)
    && after.droppedPackets == before.droppedPackets + (if count == 0 && !IsCodecData(output) then 1 else 0)
    && after.recoveryEvents == before.recoveryEvents && after.keyFrameRequests == before.keyFrameRequests
  }

  lemma {:induction false} CountsOf(config: OutputConfig, d: Delivery, output: DequeueResult, gate: Gate)
    requires GateInv(config, d, gate) && Listens(d) && Remembers(d.controller, d.encoded, d.made)
    requires output.Packet? || output.EndOfStreamPacket?
    ensures IsCounted(d, output, gate, Feed(d, output))
  {
    hide Feed;
    hide Prepare;
    hide PacketsMade;
    hide IsCodecData;
    hide Line;
    PlanIs(config, d, output, gate);
    hide Remembers;
    hide GateInv;
    PlanCounts(d, output);
    AnswersAreCounted(d, output);
    var plan := Prepare(d.controller, WithOrdinal(output, |d.encoded|), true).1;
    assert plan.Submission? ==> |plan.batch| == PacketsMade(d.encoded, output, gate);
  }

  lemma {:induction false} PlanCounts(d: Delivery, output: DequeueResult)
    requires output.Packet? || output.EndOfStreamPacket?
    ensures var (prepared, plan) := Prepare(d.controller, WithOrdinal(output, |d.encoded|), true);
            var before, after := d.controller.stats, prepared.stats;
            && after.encoderPackets == before.encoderPackets + 1
            && after.codecConfigUpdates == before.codecConfigUpdates + (if IsCodecData(output) then 1 else 0)
            && after.droppedPackets == before.droppedPackets + (if plan.Return? && !IsCodecData(output) then 1 else 0)
            && after.acceptedPackets == before.acceptedPackets && after.recoveryEvents == before.recoveryEvents
            && after.keyFrameRequests == before.keyFrameRequests
  {
    hide NextSequence;
  }

  lemma {:induction false} AnswersAreCounted(d: Delivery, output: DequeueResult)
    requires Listens(d) && (output.Packet? || output.EndOfStreamPacket?)
    ensures var e, (prepared, plan) := Feed(d, output), Prepare(d.controller, WithOrdinal(output, |d.encoded|), true);
            var accepted := if |Line(e.sink)| > |Line(d.sink)| && plan.Submission? then |plan.batch| else 0;
            var before, after := prepared.stats, e.controller.stats;
            && after.acceptedPackets == before.acceptedPackets + accepted
            && after.encoderPackets == before.encoderPackets && after.codecConfigUpdates == before.codecConfigUpdates
            && after.droppedPackets == before.droppedPackets && after.recoveryEvents == before.recoveryEvents
            && after.keyFrameRequests == before.keyFrameRequests
  {
    var plan := Prepare(d.controller, WithOrdinal(output, |d.encoded|), true).1;
    if plan.Submission? {
      SubmitExtendsLine(d.sink, plan.batch);
      var (sink, answer) := SubmitBatchStep(d.sink, plan.batch);
      assert answer.status.Accepted? ==> plan.batch != [];
      hide SubmitBatchStep;
      AnswerIsCounted(d.(controller := Prepare(d.controller, WithOrdinal(output, |d.encoded|), true).0, sink := sink,
                         encoded := d.encoded + [WithOrdinal(output, |d.encoded|)], made := d.made + |plan.batch|),
                      |plan.batch|, plan.kind, answer);
    }
    hide Prepare;
    hide SubmitBatchStep;
    hide Answered;
    hide OutboundAll;
    hide Serializable;
    hide Line;
  }

  lemma {:induction false} AnswerIsCounted(d: Delivery, count: nat, kind: Kind, answer: EnqueueResult)
    ensures Answered(d, count, kind, answer).sink == d.sink
    ensures Answered(d, count, kind, answer).controller.stats
            == if answer.status.Accepted?
               then d.controller.stats.(acceptedPackets := d.controller.stats.acceptedPackets + count)
               else d.controller.stats
  {
  }

  // ---------- what the caller is told ----------

  /** The sink's answer to what an output submits, if anything. */
  function AnswerTo(c: Controller, s: Sink, output: DequeueResult): Option<EnqueueResult> {
    var plan := Prepare(c, output, true).1;
    if plan.Return? then None else Some(SubmitBatchStep(s, plan.batch).1)
  }

  /** What one call tells its caller and where it leaves the controller: it fails with the encoder,
      without a sink or with a packet that cannot be sent, and ends with a sink that is gone or with
      the last packet; it made progress unless there was nothing to do or the encoder failed. */
  lemma {:induction false} CallsAreAnswered(c: Controller, s: Sink, output: DequeueResult)
    ensures var (c', s', r) := ProcessAlone(c, s, output);
            var answer := AnswerTo(c, s, output);
            var taken := answer.Some? && answer.value.status.Accepted?;
            var full := answer.Some? && answer.value.status.QueueFull?;
            && (r.madeProgress <==> !output.TryAgain? && !output.DequeueError?)
            && (r.success <==> !output.DequeueError? && (answer.Some? ==> taken || full))
            && (r.endOfStream <==> (taken || full) && IsLast(output))
            && (r.requestKeyFrame <==> full && !IsLast(output) && answer.value.requestKeyFrame)
            && c'.state == (if output.DequeueError? || (answer.Some? && answer.value.status.InvalidPacket?) then OutputFailed
                            else if answer.Some? && !taken && !full then OutputDisconnected
                            else if r.endOfStream then OutputEnded
                            else if full then Recovering
                            else if taken && BringsKeyFrame(output) then Streaming
                            else c.state)
            && (full ==> s'.queue == []) && (answer.None? ==> s' == s)
    ensures var (c', plan) := Prepare(c, output, false);
            plan.Return? && if output.TryAgain? || output.FormatChanged? then c' == c && plan.result.success
                            else c'.state == OutputFailed && !plan.result.success && !plan.result.madeProgress
  {
    hide SubmitBatchStep;
    hide NextSequence;
    hide WireBytes;
  }
}

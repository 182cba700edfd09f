/** Submission times through whole runs: which packet takes one, and which it carries. */
module DeliveryTimes {
  import opened Bytes
  import opened VideoPacketProtocol
  import opened HostVideoSink
  import opened VideoOutputController
  import opened VideoDelivery

  /** An encoder packet that is a frame or ends the stream asks for a submission time. */
  predicate AsksForTime(output: DequeueResult) {
    (output.Packet? || output.EndOfStreamPacket?) && !output.packet.flags.codecConfig
  }

  predicate Listens(d: Delivery) { !d.ended && d.worker.Idle? }

  /** What happened to submission times in a run: times recorded and frames asking for theirs. */
  ghost function TimeHistory(config: OutputConfig, sinkConfig: SinkConfig, steps: seq<Step>): seq<TimeOperation> {
    if steps == [] then []
    else
      var n := |steps| - 1;
      var before, d := TimeHistory(config, sinkConfig, steps[..n]), Run(config, sinkConfig, steps[..n]);
      match steps[n]
      case RecordSubmission(time, ns) => if d.worker.MustDiscard? then before else before + [Recorded(time, ns)]
      case EncoderOutput(output) =>
        if Listens(d) && AsksForTime(output) then before + [Taken(output.packet.presentationTimeUs)] else before
      case _ => before
  }

  /** For each encoder packet, how much of that history came before it. */
  ghost function Positions(config: OutputConfig, sinkConfig: SinkConfig, steps: seq<Step>): seq<nat> {
    if steps == [] then []
    else
      var n := |steps| - 1;
      var before, d := Positions(config, sinkConfig, steps[..n]), Run(config, sinkConfig, steps[..n]);
      if steps[n].EncoderOutput? && Listens(d) && (steps[n].output.Packet? || steps[n].output.EndOfStreamPacket?)
      then before + [|TimeHistory(config, sinkConfig, steps[..n])|] else before
  }

  /** The times known after a history. */
  ghost function Known(config: OutputConfig, history: seq<TimeOperation>): map<i64, u64> {
    RunTimes(NewController(config), history).submitTimes
  }

  /** What packet `p` carries: nothing for codec data, else what its presentation time was worth. */
  ghost predicate CarriesTime(config: OutputConfig, history: seq<TimeOperation>, positions: seq<nat>, encoded: seq<PacketOutput>,
                              p: HostVideoPacket)
    requires |positions| == |encoded|
  {
    && p.origin < |encoded| && positions[p.origin] <= |history|
    && var source, known := encoded[p.origin].packet, Known(config, history[..positions[p.origin]]);
    p.header.frameSubmitTimeNs
    == if source.flags.codecConfig || source.presentationTimeUs !in known then 0 else known[source.presentationTimeUs]
  }

  ghost predicate AllCarryTimes(config: OutputConfig, history: seq<TimeOperation>, positions: seq<nat>,
                                encoded: seq<PacketOutput>, line: seq<OutboundPacket>)
    requires |positions| == |encoded|
  {
    forall i :: 0 <= i < |line| ==> CarriesTime(config, history, positions, encoded, line[i].packet)
  }

  /** How many of the packets ask for a time. */
  function Asking(encoded: seq<PacketOutput>): nat {
    if encoded == [] then 0
    else Asking(encoded[..|encoded| - 1]) + if encoded[|encoded| - 1].packet.flags.codecConfig then 0 else 1
  }

  ghost predicate TimesInv(config: OutputConfig, history: seq<TimeOperation>, positions: seq<nat>, d: Delivery) {
    && |positions| == |d.encoded| && (forall o :: 0 <= o < |positions| ==> positions[o] <= |history|)
    && d.controller.config == config && d.controller.submitTimes == Known(config, history)
    && AllCarryTimes(config, history, positions, d.encoded, Line(d.sink))
    && d.controller.stats.matchedFrameTimestamps + d.controller.stats.unmatchedFrameTimestamps == Asking(d.encoded)
  }

  // ---------- one output ----------

  /** The times of a batch: the cached codec data carries none. */
  ghost predicate IsTimed(c: Controller, p: EncodedPacket, batch: seq<HostVideoPacket>) {
    forall i :: 0 <= i < |batch| ==>
      || (batch[i].origin == p.ordinal
          && batch[i].header.frameSubmitTimeNs
             == if p.flags.codecConfig || p.presentationTimeUs !in c.submitTimes then 0 else c.submitTimes[p.presentationTimeUs])
      || (c.codecConfig.Some? && batch[i].origin == c.codecConfig.value.ordinal && batch[i].header.frameSubmitTimeNs == 0)
  }

  lemma {:induction false} PrepareTimes(c: Controller, x: PacketOutput)
    ensures var (prepared, plan) := Prepare(c, x, true);
            && prepared.config == c.config
            && prepared.submitTimes
               == (if x.packet.flags.codecConfig then c.submitTimes else c.submitTimes - {x.packet.presentationTimeUs})
            && prepared.stats.matchedFrameTimestamps + prepared.stats.unmatchedFrameTimestamps
               == c.stats.matchedFrameTimestamps + c.stats.unmatchedFrameTimestamps + (if x.packet.flags.codecConfig then 0 else 1)
            && (plan.Submission? ==> IsTimed(c, x.packet, plan.batch))
  {
    hide FlagBits;
    hide NextSequence;
    if x.packet.presentationTimeUs !in c.submitTimes {
      assert c.submitTimes - {x.packet.presentationTimeUs} == c.submitTimes;
    }
  }

  lemma {:induction false} HistoryKeeps(config: OutputConfig, history: seq<TimeOperation>, more: seq<TimeOperation>,
                                        positions: seq<nat>, encoded: seq<PacketOutput>, x: PacketOutput,
                                        line: seq<OutboundPacket>)
    requires |positions| == |encoded| && AllCarryTimes(config, history, positions, encoded, line)
    ensures AllCarryTimes(config, history + more, positions + [|history|], encoded + [x], line)
  {
    forall i | 0 <= i < |line|
      ensures CarriesTime(config, history + more, positions + [|history|], encoded + [x], line[i].packet)
    {
      assert CarriesTime(config, history, positions, encoded, line[i].packet);
      var o := line[i].packet.origin;
      assert (history + more)[..positions[o]] == history[..positions[o]];
    }
  }

  /** What a processed encoder packet adds to the history. */
  function Added(x: PacketOutput): seq<TimeOperation> {
    if x.packet.flags.codecConfig then [] else [Taken(x.packet.presentationTimeUs)]
  }

  lemma {:induction false} AddedIsKnown(config: OutputConfig, history: seq<TimeOperation>, x: PacketOutput)
    ensures Known(config, history + Added(x))
            == if x.packet.flags.codecConfig then Known(config, history)
               else Known(config, history) - {x.packet.presentationTimeUs}
  {
    if x.packet.flags.codecConfig {
      assert history + Added(x) == history;
    } else {
      assert (history + Added(x))[..|history|] == history;
      var known := Known(config, history);
      if x.packet.presentationTimeUs !in known {
        assert known - {x.packet.presentationTimeUs} == known;
      }
    }
  }

  /** The batch made from the newest packet carries the right times. */
  lemma {:induction false} BatchCarriesTimes(config: OutputConfig, history: seq<TimeOperation>, positions: seq<nat>, d: Delivery,
                                             x: PacketOutput, batch: seq<HostVideoPacket>)
    requires TimesInv(config, history, positions, d) && x.packet.ordinal == |d.encoded|
    requires Remembers(d.controller, d.encoded, d.made) && IsTimed(d.controller, x.packet, batch) && Serializable(batch)
    ensures AllCarryTimes(config, history + Added(x), positions + [|history|], d.encoded + [x], OutboundAll(batch))
  {
    var more, at, encoded := history + Added(x), positions + [|history|], d.encoded + [x];
    assert more[..|history|] == history;
    var cached := d.controller.codecConfig;
    if cached.Some? {
      var k := LatestConfig(d.encoded, |d.encoded|).value;
      assert cached.value.ordinal == k && encoded[k] == d.encoded[k] && encoded[k].packet.flags.codecConfig;
    }
    hide Remembers;
    forall i | 0 <= i < |batch| ensures CarriesTime(config, more, at, encoded, OutboundAll(batch)[i].packet) {
      TimeStays(batch[i]);
      hide Outbound;
      hide Added;
      hide AllCarryTimes;
      hide Known;
    }
  }

  lemma {:induction false} TimeStays(p: HostVideoPacket)
    requires Outbound(p).Some?
    ensures Outbound(p).value.packet.origin == p.origin
    ensures Outbound(p).value.packet.header.frameSubmitTimeNs == p.header.frameSubmitTimeNs
  {
    hide EncodeHeader;
  }

  lemma {:induction false} FeedKeepsTimes(config: OutputConfig, history: seq<TimeOperation>, positions: seq<nat>, d: Delivery,
                                          fed: DequeueResult)
    requires TimesInv(config, history, positions, d) && Remembers(d.controller, d.encoded, d.made)
    requires fed.Packet? || fed.EndOfStreamPacket?
    ensures TimesInv(config, history + Added(WithOrdinal(fed, |d.encoded|)), positions + [|history|], Feed(d, fed))
  {
    var x: PacketOutput := WithOrdinal(fed, |d.encoded|);
    FeedCarriesTimes(config, history, positions, d, fed, x);
    hide AllCarryTimes;
    hide Remembers;
    hide Line;
    PrepareTimes(d.controller, x);
    AddedIsKnown(config, history, x);
    hide Known;
    hide Added;
    assert (d.encoded + [x])[..|d.encoded|] == d.encoded;
    var batch := FeedIs(d, fed, x);
    hide Feed;
    hide Prepare;
    hide IsTimed;
    hide Serializable;
  }

  lemma {:induction false} FeedCarriesTimes(config: OutputConfig, history: seq<TimeOperation>, positions: seq<nat>, d: Delivery,
                                            fed: DequeueResult, x: PacketOutput)
    requires TimesInv(config, history, positions, d) && Remembers(d.controller, d.encoded, d.made)
    requires (fed.Packet? || fed.EndOfStreamPacket?) && x == WithOrdinal(fed, |d.encoded|)
    ensures AllCarryTimes(config, history + Added(x), positions + [|history|], d.encoded + [x], Line(Feed(d, fed).sink))
  {
    var more, line := history + Added(x), Line(d.sink);
    HistoryKeeps(config, history, Added(x), positions, d.encoded, x, line);
    PrepareTimes(d.controller, x);
    var batch := FeedIs(d, fed, x);
    hide Feed;
    hide Prepare;
    hide Line;
    hide Serializable;
    hide IsTimed;
    hide AllCarryTimes;
    hide Remembers;
    hide Added;
    if Line(Feed(d, fed).sink) != line {
      BatchCarriesTimes(config, history, positions, d, x, batch);
      LongerLineCarries(config, more, positions + [|history|], d.encoded + [x], line, OutboundAll(batch));
    }
  }

  lemma {:induction false} LongerLineCarries(config: OutputConfig, history: seq<TimeOperation>, positions: seq<nat>,
                                             encoded: seq<PacketOutput>, line: seq<OutboundPacket>, more: seq<OutboundPacket>)
    requires |positions| == |encoded|
    requires AllCarryTimes(config, history, positions, encoded, line)
    requires AllCarryTimes(config, history, positions, encoded, more)
    ensures AllCarryTimes(config, history, positions, encoded, line + more)
  {
    hide CarriesTime;
  }

  lemma {:induction false} AnswerKeepsTimes(d: Delivery, count: nat, kind: Kind, answer: EnqueueResult)
    ensures var e := Answered(d, count, kind, answer);
            && e.controller.config == d.controller.config && e.controller.submitTimes == d.controller.submitTimes
            && e.controller.stats.matchedFrameTimestamps == d.controller.stats.matchedFrameTimestamps
            && e.controller.stats.unmatchedFrameTimestamps == d.controller.stats.unmatchedFrameTimestamps
            && e.encoded == d.encoded && e.sink == d.sink
  {
  }

  /** What one encoder packet does to times and to the line. */
  lemma {:induction false} FeedIs(d: Delivery, fed: DequeueResult, x: PacketOutput) returns (batch: seq<HostVideoPacket>)
    requires (fed.Packet? || fed.EndOfStreamPacket?) && x == WithOrdinal(fed, |d.encoded|)
    ensures var e, (prepared, plan) := Feed(d, fed), Prepare(d.controller, x, true);
            && e.controller.config == prepared.config && e.controller.submitTimes == prepared.submitTimes
            && e.controller.stats.matchedFrameTimestamps == prepared.stats.matchedFrameTimestamps
            && e.controller.stats.unmatchedFrameTimestamps == prepared.stats.unmatchedFrameTimestamps
            && e.encoded == d.encoded + [x]
            && (Line(e.sink) == Line(d.sink)
                || (plan.Submission? && batch == plan.batch && Serializable(batch)
                    && Line(e.sink) == Line(d.sink) + OutboundAll(batch)))
  {
    var plan := Prepare(d.controller, x, true).1;
    batch := [];
    if plan.Submission? {
      batch := plan.batch;
      SubmitExtendsLine(d.sink, batch);
      var prepared := Prepare(d.controller, x, true).0;
      var (sink, answer) := SubmitBatchStep(d.sink, batch);
      AnswerKeepsTimes(d.(controller := prepared, sink := sink, encoded := d.encoded + [x], made := d.made + |batch|),
                       |batch|, plan.kind, answer);
    }
    hide Prepare;
    hide SubmitBatchStep;
    hide Answered;
    hide OutboundAll;
    hide Line;
  }

  // ---------- every run ----------

  lemma {:induction false} RecordKeepsTimes(config: OutputConfig, history: seq<TimeOperation>, positions: seq<nat>, d: Delivery,
                                            time: i64, ns: u64)
    requires TimesInv(config, history, positions, d)
    ensures TimesInv(config, history + [Recorded(time, ns)], positions, d.(controller := Record(d.controller, time, ns)))
  {
    var more := history + [Recorded(time, ns)];
    assert more[..|history|] == history;
    ConfigStays(config, history);
    forall i | 0 <= i < |Line(d.sink)| ensures CarriesTime(config, more, positions, d.encoded, Line(d.sink)[i].packet) {
      assert CarriesTime(config, history, positions, d.encoded, Line(d.sink)[i].packet);
      var o := Line(d.sink)[i].packet.origin;
      assert more[..positions[o]] == history[..positions[o]];
    }
    hide CarriesTime;
    hide Prune;
  }

  lemma {:induction false} ConfigStays(config: OutputConfig, history: seq<TimeOperation>)
    ensures RunTimes(NewController(config), history).config == config
  {
    if history != [] {
      ConfigStays(config, history[..|history| - 1]);
    }
  }

  lemma {:induction false} OthersKeepTimes(config: OutputConfig, history: seq<TimeOperation>, positions: seq<nat>, d: Delivery,
                                           step: Step)
    requires TimesInv(config, history, positions, d) && (step.FinishDiscard? || step.SenderStep?)
    ensures TimesInv(config, history, positions, Apply(d, step))
  {
    hide CarriesTime;
    hide Known;
    if step.SenderStep? {
      if ByOtherThreads(step.step) {
        OthersKeepLinePrefix(d.sink, step.step);
      }
    } else {
      OthersKeepLinePrefix(d.sink, Discard);
    }
    hide ApplySinkStep;
    hide DiscardStep;
  }

  lemma {:induction false} RunKeepsTimes(config: OutputConfig, sinkConfig: SinkConfig, steps: seq<Step>)
    requires ValidConfig(sinkConfig)
    ensures TimesInv(config, TimeHistory(config, sinkConfig, steps), Positions(config, sinkConfig, steps),
                     Run(config, sinkConfig, steps))
  {
    if steps == [] {
      assert Line(NewSink(sinkConfig)) == [];
    } else {
      var n := |steps| - 1;
      var d := Run(config, sinkConfig, steps[..n]);
      var history, positions := TimeHistory(config, sinkConfig, steps[..n]), Positions(config, sinkConfig, steps[..n]);
      RunKeepsTimes(config, sinkConfig, steps[..n]);
      VideoDelivery.RunKeeps(config, sinkConfig, steps[..n]);
      hide TimesInv;
      StepKeepsTimes(config, history, positions, d, steps[n]);
      hide Apply;
    }
  }

  lemma {:induction false} StepKeepsTimes(config: OutputConfig, history: seq<TimeOperation>, positions: seq<nat>, d: Delivery,
                                          step: Step)
    requires TimesInv(config, history, positions, d) && VideoDelivery.Inv(d)
    ensures match step
            case RecordSubmission(time, ns) =>
              TimesInv(config, if d.worker.MustDiscard? then history else history + [Recorded(time, ns)], positions,
                       Apply(d, step))
            case EncoderOutput(output) =>
              if Listens(d) && (output.Packet? || output.EndOfStreamPacket?)
              then TimesInv(config,
                            if AsksForTime(output) then history + [Taken(output.packet.presentationTimeUs)] else history,
                            positions + [|history|], Apply(d, step))
              else TimesInv(config, history, positions, Apply(d, step))
            case _ => TimesInv(config, history, positions, Apply(d, step))
  {
    match step
    case RecordSubmission(time, ns) =>
      RecordKeepsTimes(config, history, positions, d, time, ns);
      hide TimesInv;
    case EncoderOutput(output) =>
      if Listens(d) && (output.Packet? || output.EndOfStreamPacket?) {
        FeedKeepsTimes(config, history, positions, d, output);
        var x := WithOrdinal(output, |d.encoded|);
        assert Added(x) == [] ==> history + Added(x) == history;
        hide TimesInv;
        hide Feed;
      } else {
        hide AllCarryTimes;
        hide Known;
        hide Line;
      }
    case _ => OthersKeepTimes(config, history, positions, d, step);
  }

  // ---------- what is known ----------

  /** Since the last that happened to `t`, a recording left as many times as may be kept, all of
      them later. */
  ghost predicate IsCrowdedOut(config: OutputConfig, history: seq<TimeOperation>, t: i64) {
    exists m :: 0 < m <= |history| && IsCrowdedOutAt(config, history, t, m)
  }

  ghost predicate IsCrowdedOutAt(config: OutputConfig, history: seq<TimeOperation>, t: i64, m: nat)
    requires 0 < m <= |history|
  {
    && history[m - 1].Recorded? && (forall i :: m <= i < |history| ==> !Touches(history[i], t))
    && |Known(config, history[..m])| == (if config.maxPendingFrameTimestamps > 1 then config.maxPendingFrameTimestamps else 1)
    && forall u :: u in Known(config, history[..m]) ==> t < u
  }

  /** A time is unknown exactly when nothing was recorded for it since it was last handed out, or it
      was crowded out. */
  lemma {:induction false} UnknownTimes(config: OutputConfig, history: seq<TimeOperation>, t: i64)
    ensures t !in Known(config, history)
            <==> (forall time :: !LastRecorded(history, t, time)) || IsCrowdedOut(config, history, t)
  {
    if t in Known(config, history) {
      KnownTimesWereRecorded(config, history, t);
      if m :| 0 < m <= |history| && IsCrowdedOutAt(config, history, t, m) {
        StaysUnknown(config, history, t, m);
      }
    } else if time :| LastRecorded(history, t, time) {
      ForgottenIsCrowdedOut(config, history, t, time);
    }
  }

  lemma {:induction false} StaysUnknown(config: OutputConfig, history: seq<TimeOperation>, t: i64, m: nat)
    requires m <= |history| && t !in Known(config, history[..m])
    requires forall i :: m <= i < |history| ==> !Touches(history[i], t)
    ensures t !in Known(config, history)
  {
    if m == |history| {
      assert history[..m] == history;
    } else {
      var n := |history| - 1;
      assert history[..n][..m] == history[..m];
      StaysUnknown(config, history[..n], t, m);
      if t in Known(config, history) {
        StepKnows(RunTimes(NewController(config), history[..n]), history[n], t);
      }
    }
  }

  lemma {:induction false} ForgottenIsCrowdedOut(config: OutputConfig, history: seq<TimeOperation>, t: i64, time: u64)
    requires LastRecorded(history, t, time) && t !in Known(config, history)
    ensures IsCrowdedOut(config, history, t)
  {
    var n := |history| - 1;
    var c := RunTimes(NewController(config), history[..n]);
    ConfigStays(config, history[..n]);
    assert history[..n + 1] == history;
    if t in c.submitTimes || Touches(history[n], t) {
      CrowdsOut(c, history[n], t);
      assert IsCrowdedOutAt(config, history, t, n + 1);
    } else {
      LastRecordedBefore(history, t, time);
      ForgottenIsCrowdedOut(config, history[..n], t, time);
      var m :| 0 < m <= n && IsCrowdedOutAt(config, history[..n], t, m);
      assert history[..n][..m] == history[..m] && forall i :: 0 <= i < n ==> history[..n][i] == history[i];
      assert IsCrowdedOutAt(config, history, t, m);
    }
  }

  lemma {:induction false} LastRecordedBefore(history: seq<TimeOperation>, t: i64, time: u64)
    requires LastRecorded(history, t, time) && !Touches(history[|history| - 1], t)
    ensures LastRecorded(history[..|history| - 1], t, time)
  {
    var n := |history| - 1;
    var j :| 0 <= j < |history| && history[j] == Recorded(t, time) && Touches(history[j], t)
             && forall m :: j < m < |history| ==> !Touches(history[m], t);
    assert j < n && history[..n][j] == history[j];
  }

  /** The step that forgets `t` without handing it out. */
  lemma {:induction false} CrowdsOut(c: Controller, op: TimeOperation, t: i64)
    requires t in c.submitTimes || Touches(op, t)
    requires t !in ApplyTime(c, op).submitTimes && (op.Taken? ==> op.presentationTimeUs != t)
    ensures op.Recorded? && |ApplyTime(c, op).submitTimes| == Limit(c.config)
    ensures forall u :: u in ApplyTime(c, op).submitTimes ==> t < u
  {
    if op.Recorded? {
      var times := c.submitTimes[op.presentationTimeUs := op.submitTimeNs];
      assert |times| <= Limit(c.config) ==> Prune(times, Limit(c.config)) == times;
      hide Prune;
      PruneKeepsLatest(times, Limit(c.config));
    }
  }

  // ---------- the results ----------

  /** What time packet `p` carries, by the history alone: codec data carries none, any other packet
      the last one recorded for it since a packet of the same presentation time, and none exactly when
      there is none or it was crowded out. */
  ghost predicate CarriesLastTime(config: OutputConfig, history: seq<TimeOperation>, source: EncodedPacket, time: u64) {
    if source.flags.codecConfig then time == 0
    else
      var t := source.presentationTimeUs;
      && (time != 0 ==> LastRecorded(history, t, time))
      && (time == 0 <==> (forall recorded :: !LastRecorded(history, t, recorded)) || IsCrowdedOut(config, history, t))
  }

  /** In every interleaving. */
  lemma {:induction false} PacketsCarryTheirTimes(config: OutputConfig, sinkConfig: SinkConfig, steps: seq<Step>, i: nat)
    requires ValidConfig(sinkConfig) && i < |Run(config, sinkConfig, steps).sink.sent|
    ensures var d, history := Run(config, sinkConfig, steps), TimeHistory(config, sinkConfig, steps);
            var positions, p := Positions(config, sinkConfig, steps), d.sink.sent[i].packet;
            && p.origin < |d.encoded| == |positions| && positions[p.origin] <= |history|
            && CarriesLastTime(config, history[..positions[p.origin]], d.encoded[p.origin].packet, p.header.frameSubmitTimeNs)
  {
    RunKeepsTimes(config, sinkConfig, steps);
    var d, history := Run(config, sinkConfig, steps), TimeHistory(config, sinkConfig, steps);
    var positions := Positions(config, sinkConfig, steps);
    hide Run;
    hide TimeHistory;
    hide Positions;
    assert Line(d.sink)[i] == d.sink.sent[i];
    var p := d.sink.sent[i].packet;
    assert CarriesTime(config, history, positions, d.encoded, p);
    hide AllCarryTimes;
    var before, t := history[..positions[p.origin]], d.encoded[p.origin].packet.presentationTimeUs;
    UnknownTimes(config, before, t);
    if t in Known(config, before) {
      KnownTimesWereRecorded(config, before, t);
    }
  }

  /** And every packet that asks for a time is counted once, as matched or as unmatched. */
  lemma {:induction false} EveryFrameIsCounted(config: OutputConfig, sinkConfig: SinkConfig, steps: seq<Step>)
    requires ValidConfig(sinkConfig)
    ensures var d := Run(config, sinkConfig, steps);
            d.controller.stats.matchedFrameTimestamps + d.controller.stats.unmatchedFrameTimestamps == Asking(d.encoded)
  {
    RunKeepsTimes(config, sinkConfig, steps);
  }
}

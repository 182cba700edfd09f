/** Stream ordering and recovery policy between the encoder and the host sink.

    `Process` is split where it releases control to the sink: `Prepare` runs up to the call of
    `SubmitBatch`, `Resume` from its answer to the end.  Other threads may run in between. */
module VideoOutputController {
  import opened Bytes
  import opened Options
  import opened VideoPacketProtocol
  import opened HostVideoSink

  datatype EncodedFlags = EncodedFlags(codecConfig: bool, keyFrame: bool, endOfStream: bool)

  /** `ordinal` is a history variable: how many packets the encoder produced before this one. */
  datatype EncodedPacket = EncodedPacket(data: seq<byte>, flags: EncodedFlags, presentationTimeUs: i64, ordinal: nat)

  datatype DequeueResult =
    | TryAgain
    | FormatChanged
    | DequeueError(errorCode: int)
    | Packet(packet: EncodedPacket)
    | EndOfStreamPacket(packet: EncodedPacket)

  datatype OutputState = Starting | Streaming | Recovering | OutputDisconnected | OutputEnded | OutputFailed

  datatype OutputStats = OutputStats(
    encoderPackets: nat, acceptedPackets: nat, droppedPackets: nat, codecConfigUpdates: nat,
    recoveryEvents: nat, keyFrameRequests: nat, matchedFrameTimestamps: nat,
    unmatchedFrameTimestamps: nat, prunedFrameTimestamps: nat)

  datatype ProcessResult = ProcessResult(success: bool, madeProgress: bool, requestKeyFrame: bool, endOfStream: bool)

  datatype OutputConfig = OutputConfig(
    streamId: u32, generation: u32, geometry: VideoGeometry, initialDiscontinuity: bool,
    maxPendingFrameTimestamps: nat)

  datatype Controller = Controller(
    config: OutputConfig,
    state: OutputState,
    stats: OutputStats,
    nextSequence: u64,
    submitTimes: map<i64, u64>,
    codecConfig: Option<EncodedPacket>)

  function NewController(config: OutputConfig): Controller {
    Controller(config, Starting, OutputStats(0, 0, 0, 0, 0, 0, 0, 0, 0), 0, map[], None)
  }

  // ---------- submission timestamps ----------

  function Limit(config: OutputConfig): nat {
    if config.maxPendingFrameTimestamps > 1 then config.maxPendingFrameTimestamps else 1
  }

  /** `pruned` keeps the entries with the latest presentation times, at most `limit` of them. */
  ghost predicate KeepsLatest(times: map<i64, u64>, pruned: map<i64, u64>, limit: nat) {
    && pruned.Keys <= times.Keys
    && (forall k :: k in pruned ==> pruned[k] == times[k])
    && (forall k, j :: k in pruned && j in times && j !in pruned ==> j < k)
    && |pruned| == if |times| <= limit then |times| else limit
  }

  ghost function MinKey(keys: set<i64>): (m: i64)
    requires keys != {}
    ensures m in keys && forall k :: k in keys ==> m <= k
  {
    var x :| x in keys;
    var rest := keys - {x};
    if rest == {} then
      assert keys == {x};
      x
    else
      var m := MinKey(rest);
      assert forall k :: k in keys ==> k == x || k in rest;
      if m < x then m else x
  }

  lemma {:induction false} MinKeyUnique(keys: set<i64>, m: i64)
    requires m in keys && forall k :: k in keys ==> m <= k
    ensures m == MinKey(keys)
  {
  }

  ghost function Prune(times: map<i64, u64>, limit: nat): map<i64, u64>
    decreases |times|
  {
    if |times| <= limit then times
    else
      assert times.Keys != {};
      assert (times - {MinKey(times.Keys)}).Keys == times.Keys - {MinKey(times.Keys)};
      Prune(times - {MinKey(times.Keys)}, limit)
  }

  lemma {:induction false} PruneKeepsLatest(times: map<i64, u64>, limit: nat)
    ensures KeepsLatest(times, Prune(times, limit), limit)
    decreases |times|
  {
    if |times| > limit {
      assert times.Keys != {};
      var m := MinKey(times.Keys);
      var fewer := times - {m};
      assert fewer.Keys == times.Keys - {m};
      PruneKeepsLatest(fewer, limit);
      var pruned := Prune(times, limit);
      forall k, j | k in pruned && j in times && j !in pruned
        ensures j < k
      {
        if j != m {
          assert j in fewer;
        } else {
          assert k in fewer;
        }
      }
    }
  }

  /** A submission is remembered under its presentation time; old ones make room. */
  ghost function Record(c: Controller, presentationTimeUs: i64, submitTimeNs: u64): Controller {
    if presentationTimeUs < 0 || submitTimeNs == 0 then c
    else
      var times := c.submitTimes[presentationTimeUs := submitTimeNs];
      var pruned := Prune(times, Limit(c.config));
      PruneKeepsLatest(times, Limit(c.config));
      c.(submitTimes := pruned,
         stats := c.stats.(prunedFrameTimestamps := c.stats.prunedFrameTimestamps + |times| - |pruned|))
  }

  function Take(c: Controller, presentationTimeUs: i64): (Controller, u64) {
    if presentationTimeUs !in c.submitTimes then
      (c.(stats := c.stats.(unmatchedFrameTimestamps := c.stats.unmatchedFrameTimestamps + 1)), 0)
    else
      (c.(submitTimes := c.submitTimes - {presentationTimeUs},
          stats := c.stats.(matchedFrameTimestamps := c.stats.matchedFrameTimestamps + 1)),
       c.submitTimes[presentationTimeUs])
  }

  /** What callers do with submission times, in any order. */
  datatype TimeOperation = Recorded(presentationTimeUs: i64, submitTimeNs: u64) | Taken(presentationTimeUs: i64)

  ghost function ApplyTime(c: Controller, op: TimeOperation): Controller {
    match op
    case Recorded(t, submitTimeNs) => Record(c, t, submitTimeNs)
    case Taken(t) => Take(c, t).0
  }

  ghost function RunTimes(c: Controller, ops: seq<TimeOperation>): Controller {
    if ops == [] then c
    else ApplyTime(RunTimes(c, ops[..|ops| - 1]), ops[|ops| - 1])
  }

  /** The operation changes what is known for `t`. */
  predicate Touches(op: TimeOperation, t: i64) {
    op.presentationTimeUs == t && (op.Recorded? ==> t >= 0 && op.submitTimeNs != 0)
  }

  /** The last thing that happened to `t` was a submission at `submitTimeNs`. */
  ghost predicate LastRecorded(ops: seq<TimeOperation>, t: i64, submitTimeNs: u64) {
    exists j :: 0 <= j < |ops| && ops[j] == Recorded(t, submitTimeNs) && Touches(ops[j], t)
                && forall m :: j < m < |ops| ==> !Touches(ops[m], t)
  }

  lemma {:induction false} KnownTimesWereRecorded(config: OutputConfig, ops: seq<TimeOperation>, t: i64)
    requires t in RunTimes(NewController(config), ops).submitTimes
    ensures LastRecorded(ops, t, RunTimes(NewController(config), ops).submitTimes[t])
  {
    var n := |ops| - 1;
    var before := RunTimes(NewController(config), ops[..n]);
    StepKnows(before, ops[n], t);
    hide Record;
    hide Take;
    if !Touches(ops[n], t) {
      KnownTimesWereRecorded(config, ops[..n], t);
      var time := before.submitTimes[t];
      var j :| 0 <= j < n && ops[..n][j] == Recorded(t, time) && Touches(ops[..n][j], t)
               && forall m :: j < m < n ==> !Touches(ops[..n][m], t);
      assert ops[j] == Recorded(t, time);
      assert forall m :: j < m < n ==> ops[..n][m] == ops[m];
    }
  }

  lemma {:induction false} StepKnows(c: Controller, op: TimeOperation, t: i64)
    requires t in ApplyTime(c, op).submitTimes
    ensures if Touches(op, t) then op == Recorded(t, ApplyTime(c, op).submitTimes[t])
            else t in c.submitTimes && c.submitTimes[t] == ApplyTime(c, op).submitTimes[t]
  {
    hide Prune;
    if op.Recorded? {
      PruneKeepsLatest(c.submitTimes[op.presentationTimeUs := op.submitTimeNs], Limit(c.config));
    }
  }

  /** A submission time is handed out at most once: what a packet gets is the time of the last
      submission under its presentation time, with no other packet of that time in between. */
  lemma {:induction false} TimesAreHandedOutOnce(config: OutputConfig, ops: seq<TimeOperation>, t: i64)
    ensures var time := Take(RunTimes(NewController(config), ops), t).1;
            && (time != 0 ==> LastRecorded(ops, t, time))
            && Take(RunTimes(NewController(config), ops + [Taken(t)]), t).1 == 0
  {
    var c := RunTimes(NewController(config), ops);
    if t in c.submitTimes {
      KnownTimesWereRecorded(config, ops, t);
    }
    assert (ops + [Taken(t)])[..|ops|] == ops;
  }

  // ---------- packets ----------

  function WireFlags(f: EncodedFlags, discontinuity: bool): VideoFlags {
    VideoFlags(f.codecConfig, f.keyFrame, f.endOfStream, discontinuity)
  }

  /** The host packet made from an encoder packet, with the sequence number it is given. */
  function HostPacket(config: OutputConfig, p: EncodedPacket, sequence: u64, discontinuity: bool, submitTimeNs: u64)
    : HostVideoPacket
  {
    var g := config.geometry;
    HostVideoPacket(
      VideoPacketHeader(config.streamId, config.generation, sequence, p.presentationTimeUs,
                        FlagBits(WireFlags(p.flags, discontinuity)), CODEC_H264,
                        g.codedWidth, g.codedHeight, g.logicalWidth, g.logicalHeight, g.displayRotation,
                        0, submitTimeNs),
      p.data, p.ordinal)
  }

  function NextSequence(sequence: u64): u64 { (sequence + 1) % 0x1_0000_0000_0000_0000 }

  // ---------- Process ----------

  datatype Kind = Terminal | AccessPoint | Delta
  datatype Plan = Return(result: ProcessResult) | Submission(batch: seq<HostVideoPacket>, kind: Kind)

  function OutputOf(output: DequeueResult): EncodedPacket
    requires output.Packet? || output.EndOfStreamPacket?
  {
    output.packet
  }

  predicate IsTerminal(output: DequeueResult) {
    output.EndOfStreamPacket? || (output.Packet? && output.packet.flags.endOfStream)
  }

  /** Codec data that travels apart from any frame. */
  predicate IsStandaloneConfig(output: DequeueResult) {
    output.Packet? && output.packet.flags.codecConfig && !output.packet.flags.keyFrame && !IsTerminal(output)
  }

  predicate Gated(c: Controller) { c.state == Starting || c.state == Recovering }

  function MarksDiscontinuity(c: Controller): bool {
    c.state == Recovering || (c.state == Starting && c.config.initialDiscontinuity)
  }

  function AccessPointBatch(c: Controller, p: EncodedPacket, submitTimeNs: u64): seq<HostVideoPacket> {
    if c.codecConfig.Some? then
      [HostPacket(c.config, c.codecConfig.value, c.nextSequence, false, 0),
       HostPacket(c.config, p, NextSequence(c.nextSequence), MarksDiscontinuity(c), submitTimeNs)]
    else
      [HostPacket(c.config, p, c.nextSequence, MarksDiscontinuity(c), submitTimeNs)]
  }

  function Numbered(c: Controller, count: nat): Controller
    requires count <= 2
  {
    c.(nextSequence := if count == 0 then c.nextSequence
                       else if count == 1 then NextSequence(c.nextSequence)
                       else NextSequence(NextSequence(c.nextSequence)))
  }

  function Prepare(c: Controller, output: DequeueResult, hasSink: bool): (Controller, Plan) {
    if output.TryAgain? then (c, Return(ProcessResult(true, false, false, false)))
    else if output.FormatChanged? then (c, Return(ProcessResult(true, true, false, false)))
    else if output.DequeueError? || !hasSink then
      (c.(state := OutputFailed), Return(ProcessResult(false, false, false, false)))
    else
      var p := OutputOf(output);
      var counted := c.(stats := c.stats.(encoderPackets := c.stats.encoderPackets + 1));
      if IsStandaloneConfig(output) then
        (counted.(codecConfig := Some(p),
                  stats := counted.stats.(codecConfigUpdates := c.stats.codecConfigUpdates + 1)),
         Return(ProcessResult(true, true, false, false)))
      else
        var (timed, time) := if p.flags.codecConfig then (counted, 0) else Take(counted, p.presentationTimeUs);
        if IsTerminal(output) then
          (Numbered(timed, 1), Submission([HostPacket(c.config, p, c.nextSequence, false, time)], Terminal))
        else if Gated(c) && !p.flags.keyFrame then
          (timed.(stats := timed.stats.(droppedPackets := timed.stats.droppedPackets + 1)),
           Return(ProcessResult(true, true, false, false)))
        else if p.flags.keyFrame then
          var batch := AccessPointBatch(c, p, time);
          (Numbered(timed, |batch|), Submission(batch, AccessPoint))
        else
          (Numbered(timed, 1), Submission([HostPacket(c.config, p, c.nextSequence, false, time)], Delta))
  }

  /** After the sink answered: the new controller, the result, and whether the queue is discarded. */
  function Resume(c: Controller, count: nat, kind: Kind, answer: EnqueueResult): (Controller, ProcessResult, bool)
  {
    match answer.status
    case Accepted =>
      var counted := c.(stats := c.stats.(acceptedPackets := c.stats.acceptedPackets + count));
      if kind.Terminal? then (counted.(state := OutputEnded), ProcessResult(true, true, false, true), false)
      else if kind.AccessPoint? then (counted.(state := Streaming), ProcessResult(true, true, false, false), false)
      else (counted, ProcessResult(true, true, false, false), false)
    case QueueFull =>
      var counted := c.(stats := c.stats.(droppedPackets := c.stats.droppedPackets + count));
      if kind.Terminal? then (counted.(state := OutputEnded), ProcessResult(true, true, false, true), true)
      else
        (counted.(state := Recovering,
                  stats := counted.stats.(
                    recoveryEvents := c.stats.recoveryEvents + (if c.state == Recovering then 0 else 1),
                    keyFrameRequests := c.stats.keyFrameRequests + (if answer.requestKeyFrame then 1 else 0))),
         ProcessResult(true, true, answer.requestKeyFrame, false), true)
    case Disconnected => (c.(state := OutputDisconnected), ProcessResult(false, true, false, false), false)
    case Stopped => (c.(state := OutputDisconnected), ProcessResult(false, true, false, false), false)
    case InvalidPacket => (c.(state := OutputFailed), ProcessResult(false, true, false, false), false)
  }

  /** Hand a batch to the sink and act on the answer, with no other thread in between. */
  function Deliver(c: Controller, s: Sink, batch: seq<HostVideoPacket>, kind: Kind): (Controller, Sink, ProcessResult) {
    var (submitted, answer) := SubmitBatchStep(s, batch);
    var (resumed, result, discards) := Resume(c, |batch|, kind, answer);
    (resumed, if discards then DiscardStep(submitted).0 else submitted, result)
  }

  /** `Process` when no other thread touches the sink meanwhile. */
  function ProcessAlone(c: Controller, s: Sink, output: DequeueResult): (Controller, Sink, ProcessResult) {
    var (prepared, plan) := Prepare(c, output, true);
    match plan
    case Return(result) => (prepared, s, result)
    case Submission(batch, kind) => Deliver(prepared, s, batch, kind)
  }

  // ---------- the controller itself ----------

  class OutputController {
    const config: OutputConfig
    var state: OutputState
    var stats: OutputStats
    var nextSequence: u64
    var submitTimes: map<i64, u64>
    var codecConfig: Option<EncodedPacket>

    ghost function Abs(): Controller
      reads this
    {
      Controller(config, state, stats, nextSequence, submitTimes, codecConfig)
    }

    constructor (outputConfig: OutputConfig)
      ensures Abs() == NewController(outputConfig)
    {
      config := outputConfig;
      state, nextSequence, submitTimes, codecConfig := Starting, 0, map[], None;
      stats := OutputStats(0, 0, 0, 0, 0, 0, 0, 0, 0);
    }

    method RecordFrameSubmission(presentationTimeUs: i64, submitTimeNs: u64)
      modifies this
      ensures Abs() == Record(old(Abs()), presentationTimeUs, submitTimeNs)
    {
      if presentationTimeUs < 0 || submitTimeNs == 0 {
        return;
      }
      submitTimes := submitTimes[presentationTimeUs := submitTimeNs];
      var limit := if config.maxPendingFrameTimestamps > 1 then config.maxPendingFrameTimestamps else 1;
      ghost var times := submitTimes;
      while |submitTimes| > limit
        invariant Prune(times, limit) == Prune(submitTimes, limit)
        invariant |submitTimes| <= |times|
        invariant Abs() == old(Abs()).(
                    submitTimes := submitTimes,
                    stats := old(stats).(prunedFrameTimestamps := old(stats).prunedFrameTimestamps
                                                                  + |times| - |submitTimes|))
        decreases |submitTimes|
      {
        var earliest := Begin(submitTimes);
        assert (submitTimes - {earliest}).Keys == submitTimes.Keys - {earliest};
        submitTimes := submitTimes - {earliest};
        stats := stats.(prunedFrameTimestamps := stats.prunedFrameTimestamps + 1);
      }
    }

    method TakeFrameSubmissionTime(presentationTimeUs: i64) returns (submitTimeNs: u64)
      modifies this`submitTimes, this`stats
      ensures (Abs(), submitTimeNs) == Take(old(Abs()), presentationTimeUs)
    {
      if presentationTimeUs !in submitTimes {
        stats := stats.(unmatchedFrameTimestamps := stats.unmatchedFrameTimestamps + 1);
        return 0;
      }
      submitTimeNs := submitTimes[presentationTimeUs];
      submitTimes := submitTimes - {presentationTimeUs};
      stats := stats.(matchedFrameTimestamps := stats.matchedFrameTimestamps + 1);
    }

    method MakePacket(packet: EncodedPacket, discontinuity: bool, submitTimeNs: u64) returns (r: HostVideoPacket)
      modifies this`nextSequence
      ensures nextSequence == (old(nextSequence) + 1) % 0x1_0000_0000_0000_0000
      ensures var h, g, f := r.header, config.geometry, packet.flags;
              && h.sequence == old(nextSequence) && h.streamId == config.streamId && h.generation == config.generation
              && h.codedWidth == g.codedWidth && h.codedHeight == g.codedHeight
              && h.logicalWidth == g.logicalWidth && h.logicalHeight == g.logicalHeight
              && h.displayRotation == g.displayRotation
              && h.presentationTimeUs == packet.presentationTimeUs && h.frameSubmitTimeNs == submitTimeNs
              && (HasFlag(h.flags, 1) <==> f.codecConfig) && (HasFlag(h.flags, 2) <==> f.keyFrame)
              && (HasFlag(h.flags, 4) <==> f.endOfStream) && (HasFlag(h.flags, 8) <==> discontinuity)
              && r.payload == packet.data && r.origin == packet.ordinal
      ensures r == HostPacket(config, packet, old(nextSequence), discontinuity, submitTimeNs)
      ensures nextSequence == NextSequence(old(nextSequence))
    {
      FlagBitsRead(WireFlags(packet.flags, discontinuity));
      hide FlagBits;
      hide HasFlag;
      r := HostPacket(config, packet, nextSequence, discontinuity, submitTimeNs);
      nextSequence := NextSequence(nextSequence);
    }

    method Process(output: DequeueResult, sink: Impl?) returns (result: ProcessResult)
      requires sink != null ==> sink.Valid()
      modifies this, sink
      ensures sink == null ==>
                var (prepared, plan) := Prepare(old(Abs()), output, false);
                plan.Return? && Abs() == prepared && result == plan.result
      ensures sink != null ==>
                && sink.Valid()
                && (Abs(), sink.Abs(), result) == ProcessAlone(old(Abs()), old(sink.Abs()), output)
    {
      match output {
        case TryAgain =>
          return ProcessResult(true, false, false, false);
        case FormatChanged =>
          return ProcessResult(true, true, false, false);
        case DequeueError(_) =>
          state := OutputFailed;
          return ProcessResult(false, false, false, false);
        case _ =>
      }
      if sink == null {
        state := OutputFailed;
        return ProcessResult(false, false, false, false);
      }
      result := ProcessPacket(output, sink);
    }

    method ProcessPacket(output: DequeueResult, sink: Impl) returns (result: ProcessResult)
      requires sink.Valid() && (output.Packet? || output.EndOfStreamPacket?)
      modifies this, sink
      ensures sink.Valid()
      ensures (Abs(), sink.Abs(), result) == ProcessAlone(old(Abs()), old(sink.Abs()), output)
    {
      hide SubmitBatchStep;
      hide DiscardStep;
      hide Accounted;
      hide FlagBits;
      stats := stats.(encoderPackets := stats.encoderPackets + 1);
      var packet := output.packet;
      var endOfStream := output.EndOfStreamPacket? || packet.flags.endOfStream;
      if packet.flags.codecConfig && !packet.flags.keyFrame && !endOfStream {
        codecConfig := Some(packet);
        stats := stats.(codecConfigUpdates := stats.codecConfigUpdates + 1);
        return ProcessResult(true, true, false, false);
      }
      var submitTimeNs := 0;
      if !packet.flags.codecConfig {
        submitTimeNs := TakeFrameSubmissionTime(packet.presentationTimeUs);
      }
      if endOfStream {
        result := SendTerminal(packet, submitTimeNs, sink);
      } else if (state == Starting || state == Recovering) && !packet.flags.keyFrame {
        stats := stats.(droppedPackets := stats.droppedPackets + 1);
        result := ProcessResult(true, true, false, false);
      } else if packet.flags.keyFrame {
        result := SendAccessPoint(packet, submitTimeNs, sink);
      } else {
        result := SendPacket(packet, submitTimeNs, sink);
      }
    }

    /** The end-of-stream branch of `Process`. */
    method SendTerminal(packet: EncodedPacket, submitTimeNs: u64, sink: Impl) returns (result: ProcessResult)
      requires sink.Valid()
      modifies this, sink
      ensures sink.Valid()
      ensures var batch := [HostPacket(config, packet, old(nextSequence), false, submitTimeNs)];
              (Abs(), sink.Abs(), result) == Deliver(Numbered(old(Abs()), 1), old(sink.Abs()), batch, Terminal)
    {
      hide SubmitBatchStep;
      hide DiscardStep;
      hide Accounted;
      var hostPacket := MakePacket(packet, false, submitTimeNs);
      var enqueue := sink.SubmitBatch([hostPacket]);
      match enqueue.status {
        case QueueFull =>
          var _ := sink.DiscardPending();
          stats := stats.(droppedPackets := stats.droppedPackets + 1);
        case Accepted =>
          stats := stats.(acceptedPackets := stats.acceptedPackets + 1);
        case Disconnected | Stopped =>
          state := OutputDisconnected;
          return ProcessResult(false, true, false, false);
        case InvalidPacket =>
          state := OutputFailed;
          return ProcessResult(false, true, false, false);
      }
      state := OutputEnded;
      return ProcessResult(true, true, false, true);
    }

    method SendAccessPoint(packet: EncodedPacket, submitTimeNs: u64, sink: Impl) returns (result: ProcessResult)
      requires sink.Valid()
      modifies this, sink
      ensures sink.Valid()
      ensures var batch := AccessPointBatch(old(Abs()), packet, submitTimeNs);
              (Abs(), sink.Abs(), result)
              == Deliver(Numbered(old(Abs()), |batch|), old(sink.Abs()), batch, AccessPoint)
    {
      hide SubmitBatchStep;
      hide DiscardStep;
      hide Accounted;
      hide AccessPointBatch;
      var packets := MakeAccessPoint(packet, submitTimeNs);
      var enqueue := sink.SubmitBatch(packets);
      result := HandleEnqueueResult(enqueue, |packets|, sink);
      if enqueue.status == Accepted {
        state := Streaming;
      }
    }

    /** The key frame, behind the codec data it needs. */
    method MakeAccessPoint(packet: EncodedPacket, submitTimeNs: u64) returns (packets: seq<HostVideoPacket>)
      modifies this`nextSequence
      ensures packets == AccessPointBatch(old(Abs()), packet, submitTimeNs) && 1 <= |packets| <= 2
      ensures Abs() == Numbered(old(Abs()), |packets|)
    {
      hide FlagBits;
      hide HasFlag;
      packets := [];
      if codecConfig.Some? {
        var configPacket := MakePacket(codecConfig.value, false, 0);
        packets := [configPacket];
      }
      var discontinuity := state == Recovering || (state == Starting && config.initialDiscontinuity);
      var keyPacket := MakePacket(packet, discontinuity, submitTimeNs);
      packets := packets + [keyPacket];
    }

    method SendPacket(packet: EncodedPacket, submitTimeNs: u64, sink: Impl) returns (result: ProcessResult)
      requires sink.Valid()
      modifies this, sink
      ensures sink.Valid()
      ensures var batch := [HostPacket(config, packet, old(nextSequence), false, submitTimeNs)];
              (Abs(), sink.Abs(), result) == Deliver(Numbered(old(Abs()), 1), old(sink.Abs()), batch, Delta)
    {
      hide SubmitBatchStep;
      hide DiscardStep;
      hide Accounted;
      var hostPacket := MakePacket(packet, false, submitTimeNs);
      var enqueue := sink.SubmitBatch([hostPacket]);
      result := HandleEnqueueResult(enqueue, 1, sink);
    }

    /** The packets were lost to a full queue. */
    method Recover(packetCount: nat, requestKeyFrame: bool)
      modifies this`state, this`stats
      ensures Abs() == Resume(old(Abs()), packetCount, Delta, EnqueueResult(QueueFull, requestKeyFrame)).0
    {
      stats := stats.(droppedPackets := stats.droppedPackets + packetCount);
      if state != Recovering {
        stats := stats.(recoveryEvents := stats.recoveryEvents + 1);
      }
      state := Recovering;
      if requestKeyFrame {
        stats := stats.(keyFrameRequests := stats.keyFrameRequests + 1);
      }
    }

    method HandleEnqueueResult(enqueue: EnqueueResult, packetCount: nat, sink: Impl) returns (result: ProcessResult)
      requires sink.Valid()
      modifies this, sink
      ensures sink.Valid()
      ensures var (resumed, r, discards) := Resume(old(Abs()), packetCount, Delta, enqueue);
              && Abs() == resumed && result == r
              && sink.Abs() == if discards then DiscardStep(old(sink.Abs())).0 else old(sink.Abs())
    {
      hide DiscardStep;
      hide Accounted;
      match enqueue.status {
        case Accepted =>
          stats := stats.(acceptedPackets := stats.acceptedPackets + packetCount);
          return ProcessResult(true, true, false, false);
        case QueueFull =>
          var _ := sink.DiscardPending();
          Recover(packetCount, enqueue.requestKeyFrame);
          return ProcessResult(true, true, enqueue.requestKeyFrame, false);
        case Disconnected | Stopped =>
          state := OutputDisconnected;
          return ProcessResult(false, true, false, false);
        case InvalidPacket =>
          state := OutputFailed;
          return ProcessResult(false, true, false, false);
      }
    }
  }

  /** `std::map::begin`: the smallest key. */
  method Begin(times: map<i64, u64>) returns (m: i64)
    requires times != map[]
    ensures m == MinKey(times.Keys)
  {
    assert times.Keys != {};
    m :| m in times;
    var left := times.Keys - {m};
    while left != {}
      invariant m in times && left <= times.Keys
      invariant forall k :: k in times && k !in left ==> m <= k
      decreases left
    {
      var k :| k in left;
      if k < m {
        m := k;
      }
      left := left - {k};
    }
    MinKeyUnique(times.Keys, m);
  }
}

/** The output controller and the sink's sender thread, interleaved at every critical section.

    One run is a sequence of steps: the stream worker feeds an encoder output to the controller
    (up to and including the sink's `SubmitBatch`), the worker discards the queue and finishes
    after a queue-full answer, the sender pops, writes or completes a packet, the sink is
    stopped, a submission time is recorded.  The worker stops at the first failure or at end of
    stream; the sender goes on. */
module VideoDelivery {
  import opened Bytes
  import opened Options
  import opened VideoPacketProtocol
  import opened HostVideoSink
  import opened VideoOutputController

  type PacketOutput = d: DequeueResult | d.Packet? || d.EndOfStreamPacket?
    witness Packet(EncodedPacket([], EncodedFlags(false, false, false), 0, 0))

  /** Where the worker stands: between calls, or holding a queue-full answer with the queue not
      yet discarded. */
  datatype Worker = Idle | MustDiscard(count: nat, kind: Kind, answer: EnqueueResult)

  /** `encoded` lists the encoder outputs processed, `requests` the positions at which a key frame
      was requested from the encoder, `made` counts sequence numbers handed out. */
  datatype Delivery = Delivery(
    controller: Controller, sink: Sink, worker: Worker, ended: bool,
    encoded: seq<PacketOutput>, requests: seq<nat>, made: nat)

  datatype Step =
    | EncoderOutput(output: DequeueResult)
    | FinishDiscard(encoderAcceptsRequest: bool)
    | SenderStep(step: SinkStep)
    | RecordSubmission(presentationTimeUs: i64, submitTimeNs: u64)

  function Start(config: OutputConfig, sinkConfig: SinkConfig): Delivery {
    Delivery(NewController(config), NewSink(sinkConfig), Idle, false, [], [], 0)
  }

  function WithOrdinal(output: DequeueResult, ordinal: nat): DequeueResult {
    match output
    case Packet(p) => Packet(p.(ordinal := ordinal))
    case EndOfStreamPacket(p) => EndOfStreamPacket(p.(ordinal := ordinal))
    case _ => output
  }

  function Feed(d: Delivery, fed: DequeueResult): Delivery {
    var output := WithOrdinal(fed, |d.encoded|);
    var encoded := if output.Packet? || output.EndOfStreamPacket? then d.encoded + [output] else d.encoded;
    var (prepared, plan) := Prepare(d.controller, output, true);
    match plan
    case Return(result) => d.(controller := prepared, encoded := encoded, ended := !result.success)
    case Submission(batch, kind) =>
      var (sink, answer) := SubmitBatchStep(d.sink, batch);
      Answered(d.(controller := prepared, sink := sink, encoded := encoded, made := d.made + |batch|),
               |batch|, kind, answer)
  }

  /** The worker reads the sink's answer. */
  function Answered(d: Delivery, count: nat, kind: Kind, answer: EnqueueResult): Delivery {
    if answer.status.QueueFull? then d.(worker := MustDiscard(count, kind, answer))
    else
      var (resumed, result, _) := Resume(d.controller, count, kind, answer);
      d.(controller := resumed, ended := !result.success || result.endOfStream)
  }

  function Finish(d: Delivery, encoderAcceptsRequest: bool): Delivery
    requires d.worker.MustDiscard?
  {
    var (resumed, result, discards) := Resume(d.controller, d.worker.count, d.worker.kind, d.worker.answer);
    d.(controller := resumed,
       sink := if discards then DiscardStep(d.sink).0 else d.sink,
       worker := Idle,
       requests := if result.requestKeyFrame && encoderAcceptsRequest then d.requests + [|d.encoded|] else d.requests,
       ended := !result.success || result.endOfStream || (result.requestKeyFrame && !encoderAcceptsRequest))
  }

  predicate ByOtherThreads(step: SinkStep) { step.Pop? || step.Write? || step.Complete? || step.Stop? }

  ghost function Apply(d: Delivery, step: Step): Delivery {
    match step
    case EncoderOutput(output) => if d.ended || d.worker.MustDiscard? then d else Feed(d, output)
    case FinishDiscard(accepts) => if d.worker.MustDiscard? then Finish(d, accepts) else d
    case SenderStep(s) => if ByOtherThreads(s) then d.(sink := ApplySinkStep(d.sink, s)) else d
    case RecordSubmission(time, ns) =>
      if d.worker.MustDiscard? then d else d.(controller := Record(d.controller, time, ns))
  }

  ghost function Run(config: OutputConfig, sinkConfig: SinkConfig, steps: seq<Step>): Delivery {
    if steps == [] then Start(config, sinkConfig)
    else Apply(Run(config, sinkConfig, steps[..|steps| - 1]), steps[|steps| - 1])
  }

  // ---------- what the host can rely on ----------

  predicate IsFrame(output: PacketOutput) { !IsTerminal(output) && !IsStandaloneConfig(output) }

  predicate IsKeyFrame(output: PacketOutput) { IsFrame(output) && output.packet.flags.keyFrame }

  predicate FrameAt(encoded: seq<PacketOutput>, k: nat) { k < |encoded| && IsFrame(encoded[k]) }

  /** No frame left the encoder between positions `a` and `b`. */
  ghost predicate Adjacent(encoded: seq<PacketOutput>, a: nat, b: nat) {
    a < b && forall k :: a < k < b ==> !FrameAt(encoded, k)
  }

  predicate Key(p: OutboundPacket) { HasFlag(p.packet.header.flags, 2) }

  predicate Discontinuity(p: OutboundPacket) { HasFlag(p.packet.header.flags, 8) }

  /** The packet carries its encoder packet: payload, timestamp and flags. */
  predicate Carries(encoded: seq<PacketOutput>, p: OutboundPacket) {
    && p.packet.origin < |encoded|
    && var source := encoded[p.packet.origin].packet;
    && p.packet.payload == source.data
    && p.packet.header.presentationTimeUs == source.presentationTimeUs
    && p.packet.header.flags == FlagBits(WireFlags(source.flags, Discontinuity(p)))
  }

  function LastFrame(encoded: seq<PacketOutput>, line: seq<OutboundPacket>): Option<nat> {
    if line == [] then None
    else
      var p := line[|line| - 1];
      if FrameAt(encoded, p.packet.origin) then Some(p.packet.origin) else LastFrame(encoded, line[..|line| - 1])
  }

  ghost predicate Follows(encoded: seq<PacketOutput>, previous: Option<nat>, p: OutboundPacket) {
    match previous
    case None => Key(p)
    case Some(a) => Adjacent(encoded, a, p.packet.origin) || (Key(p) && Discontinuity(p))
  }

  /** A decoder that starts at a key frame, and restarts only at a key frame that announces the
      gap, never meets a frame whose predecessor it lacks. */
  ghost predicate Decodable(encoded: seq<PacketOutput>, line: seq<OutboundPacket>) {
    line == [] ||
    (var front, p := line[..|line| - 1], line[|line| - 1];
     Decodable(encoded, front)
     && (FrameAt(encoded, p.packet.origin) ==> Follows(encoded, LastFrame(encoded, front), p)))
  }

  /** The newest standalone codec data before position `n`. */
  function LatestConfig(encoded: seq<PacketOutput>, n: nat): (k: Option<nat>)
    requires n <= |encoded|
    ensures k.Some? ==> k.value < n && IsStandaloneConfig(encoded[k.value])
  {
    if n == 0 then None
    else if IsStandaloneConfig(encoded[n - 1]) then Some(n - 1)
    else LatestConfig(encoded, n - 1)
  }

  predicate IsKeyFrameAt(encoded: seq<PacketOutput>, k: nat) { k < |encoded| && IsKeyFrame(encoded[k]) }

  predicate PrecededByConfig(encoded: seq<PacketOutput>, line: seq<OutboundPacket>, i: nat)
    requires i < |line|
  {
    var o := line[i].packet.origin;
    IsKeyFrameAt(encoded, o) ==>
      match LatestConfig(encoded, o)
      case None => true
      case Some(config) => i > 0 && line[i - 1].packet.origin == config
  }

  /** Each key frame comes right after the newest codec data known when it was encoded. */
  ghost predicate ConfigFirst(encoded: seq<PacketOutput>, line: seq<OutboundPacket>) {
    forall i :: 0 <= i < |line| ==> PrecededByConfig(encoded, line, i)
  }

  ghost predicate AllCarry(encoded: seq<PacketOutput>, line: seq<OutboundPacket>) {
    forall i :: 0 <= i < |line| ==> Carries(encoded, line[i])
  }

  ghost predicate SequencesIncrease(line: seq<OutboundPacket>) {
    forall i, j :: 0 <= i < j < |line| ==> line[i].packet.header.sequence < line[j].packet.header.sequence
  }

  ghost predicate SequencesBelow(line: seq<OutboundPacket>, made: nat) {
    forall i :: 0 <= i < |line| ==> line[i].packet.header.sequence < made
  }

  const SEQUENCE_COUNT := 0x1_0000_0000_0000_0000

  // ---------- growing and cutting the line ----------

  lemma {:induction false} DecodablePrefix(encoded: seq<PacketOutput>, line: seq<OutboundPacket>, shorter: seq<OutboundPacket>)
    requires Decodable(encoded, line) && shorter <= line
    ensures Decodable(encoded, shorter)
  {
    if |shorter| < |line| {
      DecodablePrefix(encoded, line[..|line| - 1], shorter);
    } else {
      assert shorter == line;
    }
  }

  /** What the encoder produces later does not change the past. */
  lemma {:induction false} HistoryGrows(encoded: seq<PacketOutput>, x: PacketOutput, line: seq<OutboundPacket>)
    requires AllCarry(encoded, line)
    ensures LastFrame(encoded + [x], line) == LastFrame(encoded, line)
    ensures Decodable(encoded, line) ==> Decodable(encoded + [x], line)
    ensures AllCarry(encoded + [x], line)
  {
    if line != [] {
      HistoryGrows(encoded, x, line[..|line| - 1]);
      var p := line[|line| - 1];
      assert Carries(encoded, p);
      assert FrameAt(encoded + [x], p.packet.origin) == FrameAt(encoded, p.packet.origin);
      AdjacentGrows(encoded, x, LastFrame(encoded, line[..|line| - 1]), p.packet.origin);
    }
  }

  lemma {:induction false} AdjacentGrows(encoded: seq<PacketOutput>, x: PacketOutput, a: Option<nat>, b: nat)
    requires b < |encoded|
    ensures a.Some? && Adjacent(encoded, a.value, b) ==> Adjacent(encoded + [x], a.value, b)
  {
    if a.Some? && Adjacent(encoded, a.value, b) {
      forall k | a.value < k < b ensures !FrameAt(encoded + [x], k) {
        assert !FrameAt(encoded, k);
      }
    }
  }

  lemma {:induction false} LatestConfigGrows(encoded: seq<PacketOutput>, x: PacketOutput, n: nat)
    requires n <= |encoded|
    ensures LatestConfig(encoded + [x], n) == LatestConfig(encoded, n)
  {
    if n > 0 {
      LatestConfigGrows(encoded, x, n - 1);
    }
  }

  lemma {:induction false} ConfigFirstGrows(encoded: seq<PacketOutput>, x: PacketOutput, line: seq<OutboundPacket>)
    requires AllCarry(encoded, line) && ConfigFirst(encoded, line)
    ensures ConfigFirst(encoded + [x], line)
  {
    forall i | 0 <= i < |line| ensures PrecededByConfig(encoded + [x], line, i) {
      assert Carries(encoded, line[i]) && PrecededByConfig(encoded, line, i);
      LatestConfigGrows(encoded, x, line[i].packet.origin);
    }
  }

  lemma {:induction false} ConfigFirstPrefix(encoded: seq<PacketOutput>, line: seq<OutboundPacket>,
                                              shorter: seq<OutboundPacket>)
    requires ConfigFirst(encoded, line) && shorter <= line
    ensures ConfigFirst(encoded, shorter)
  {
    forall i | 0 <= i < |shorter| ensures PrecededByConfig(encoded, shorter, i) {
      assert PrecededByConfig(encoded, line, i);
    }
  }

  // ---------- the invariant of every run ----------

  /** Facts about the line alone; a prefix of a good line is good. */
  ghost predicate GoodLine(encoded: seq<PacketOutput>, line: seq<OutboundPacket>, made: nat) {
    && AllCarry(encoded, line)
    && Decodable(encoded, line)
    && ConfigFirst(encoded, line)
    && (made <= SEQUENCE_COUNT ==> SequencesIncrease(line) && SequencesBelow(line, made))
  }

  lemma {:induction false} GoodLinePrefix(encoded: seq<PacketOutput>, line: seq<OutboundPacket>,
                                           shorter: seq<OutboundPacket>, made: nat)
    requires GoodLine(encoded, line, made) && shorter <= line
    ensures GoodLine(encoded, shorter, made)
  {
    DecodablePrefix(encoded, line, shorter);
    ConfigFirstPrefix(encoded, line, shorter);
  }

  lemma {:induction false} GoodLineGrows(encoded: seq<PacketOutput>, x: PacketOutput, line: seq<OutboundPacket>, made: nat,
                                          more: nat)
    requires GoodLine(encoded, line, made) && made <= more
    ensures GoodLine(encoded + [x], line, more)
    ensures LastFrame(encoded + [x], line) == LastFrame(encoded, line)
  {
    HistoryGrows(encoded, x, line);
    ConfigFirstGrows(encoded, x, line);
  }

  /** The controller remembers the newest codec data, and its sequence counter is `made`. */
  ghost predicate Remembers(c: Controller, encoded: seq<PacketOutput>, made: nat) {
    && (forall k :: 0 <= k < |encoded| ==> encoded[k].packet.ordinal == k)
    && (match LatestConfig(encoded, |encoded|)
        case None => c.codecConfig == None
        case Some(k) => c.codecConfig == Some(encoded[k].packet))
    && c.nextSequence == made % SEQUENCE_COUNT
  }

  ghost predicate NoKeyFrameSince(encoded: seq<PacketOutput>, from: nat) {
    forall k :: from <= k < |encoded| ==> !IsKeyFrame(encoded[k])
  }

  /** How the recovery state relates to what is on its way. */
  ghost predicate StateMatches(d: Delivery) {
    && (d.controller.state == Starting || d.controller.state == Streaming || d.controller.state == Recovering)
    && (d.controller.state == Starting ==> LastFrame(d.encoded, Line(d.sink)) == None)
    && (d.controller.state == Streaming && d.sink.connected && !d.sink.stopped ==>
          match LastFrame(d.encoded, Line(d.sink))
          case None => false
          case Some(a) => Adjacent(d.encoded, a, |d.encoded|))
    && (d.controller.state == Recovering ==>
          d.requests != [] && NoKeyFrameSince(d.encoded, d.requests[|d.requests| - 1]))
  }

  ghost predicate Inv(d: Delivery) {
    && Accounted(d.sink)
    && GoodLine(d.encoded, Line(d.sink), d.made)
    && (!d.ended ==> Remembers(d.controller, d.encoded, d.made))
    && (!d.ended && d.worker.Idle? ==> StateMatches(d))
    && (d.worker.MustDiscard? ==>
          && !d.ended
          && d.worker.answer.status.QueueFull?
          && (!d.worker.kind.Terminal? ==> d.worker.answer.requestKeyFrame))
  }

  // ---------- appending a submitted batch ----------

  lemma {:induction false} AppendPacket(encoded: seq<PacketOutput>, line: seq<OutboundPacket>, p: OutboundPacket, made: nat)
    requires GoodLine(encoded, line, made)
    requires Carries(encoded, p) && p.packet.header.sequence == made % SEQUENCE_COUNT
    requires FrameAt(encoded, p.packet.origin) ==> Follows(encoded, LastFrame(encoded, line), p)
    requires PrecededByConfig(encoded, line + [p], |line|)
    ensures GoodLine(encoded, line + [p], made + 1)
    ensures LastFrame(encoded, line + [p])
            == if FrameAt(encoded, p.packet.origin) then Some(p.packet.origin) else LastFrame(encoded, line)
  {
    var longer := line + [p];
    assert longer[..|longer| - 1] == line;
    forall i | 0 <= i < |longer| ensures PrecededByConfig(encoded, longer, i) {
      if i < |line| {
        assert PrecededByConfig(encoded, line, i);
      }
    }
  }

  /** What the wire packet made from `p` says. */
  lemma {:induction false} MadeFrom(config: OutputConfig, p: EncodedPacket, sequence: u64, discontinuity: bool, time: u64)
    requires Outbound(HostPacket(config, p, sequence, discontinuity, time)).Some?
    ensures var o := Outbound(HostPacket(config, p, sequence, discontinuity, time)).value;
            && o.packet.origin == p.ordinal && o.packet.payload == p.data
            && o.packet.header.presentationTimeUs == p.presentationTimeUs
            && o.packet.header.flags == FlagBits(WireFlags(p.flags, discontinuity))
            && o.packet.header.sequence == sequence
            && Key(o) == p.flags.keyFrame && Discontinuity(o) == discontinuity
  {
    hide EncodeHeader;
    FlagBitsRead(WireFlags(p.flags, discontinuity));
  }

  lemma {:induction false} SingleBatch(p: HostVideoPacket)
    requires Serializable([p])
    ensures Outbound(p).Some? && OutboundAll([p]) == [Outbound(p).value]
  {
    hide Outbound;
    assert Outbound([p][0]).Some?;
    assert [p][..0] == [];
  }

  lemma {:induction false} PairBatch(p: HostVideoPacket, q: HostVideoPacket)
    requires Serializable([p, q])
    ensures Outbound(p).Some? && Outbound(q).Some?
    ensures OutboundAll([p, q]) == [Outbound(p).value] + [Outbound(q).value]
  {
    hide Outbound;
    assert Outbound([p, q][0]).Some? && Outbound([p, q][1]).Some?;
    assert OutboundAll([p, q]) == [Outbound(p).value, Outbound(q).value];
  }

  /** A packet that is not a frame may always be appended; a frame must follow the last one. */
  lemma {:induction false} AppendMade(encoded: seq<PacketOutput>, line: seq<OutboundPacket>, made: nat, config: OutputConfig,
                   k: nat, discontinuity: bool, time: u64)
    requires GoodLine(encoded, line, made) && k < |encoded| && encoded[k].packet.ordinal == k
    requires Outbound(HostPacket(config, encoded[k].packet, made % SEQUENCE_COUNT, discontinuity, time)).Some?
    requires IsFrame(encoded[k]) ==>
               match LastFrame(encoded, line)
               case None => encoded[k].packet.flags.keyFrame
               case Some(a) => Adjacent(encoded, a, k) || (encoded[k].packet.flags.keyFrame && discontinuity)
    requires IsKeyFrame(encoded[k]) ==>
               match LatestConfig(encoded, k)
               case None => true
               case Some(c) => line != [] && line[|line| - 1].packet.origin == c
    ensures var o := Outbound(HostPacket(config, encoded[k].packet, made % SEQUENCE_COUNT, discontinuity, time)).value;
            && GoodLine(encoded, line + [o], made + 1)
            && o.packet.origin == k
            && LastFrame(encoded, line + [o]) == if IsFrame(encoded[k]) then Some(k) else LastFrame(encoded, line)
  {
    hide Outbound;
    hide FlagBits;
    MadeFrom(config, encoded[k].packet, made % SEQUENCE_COUNT, discontinuity, time);
    var o := Outbound(HostPacket(config, encoded[k].packet, made % SEQUENCE_COUNT, discontinuity, time)).value;
    assert (line + [o])[|line|] == o;
    AppendPacket(encoded, line, o, made);
  }

  // ---------- one step at a time ----------

  lemma {:induction false} RememberMore(c: Controller, encoded: seq<PacketOutput>, x: PacketOutput, made: nat)
    requires Remembers(c, encoded, made) && x.packet.ordinal == |encoded|
    ensures forall k :: 0 <= k < |encoded| + 1 ==> (encoded + [x])[k].packet.ordinal == k
    ensures LatestConfig(encoded + [x], |encoded| + 1)
            == if IsStandaloneConfig(x) then Some(|encoded|) else LatestConfig(encoded, |encoded|)
    ensures LatestConfig(encoded + [x], |encoded|) == LatestConfig(encoded, |encoded|)
  {
    LatestConfigGrows(encoded, x, |encoded|);
  }

  lemma {:induction false} NextNumber(made: nat)
    ensures NextSequence(made % SEQUENCE_COUNT) == (made + 1) % SEQUENCE_COUNT
  {
  }

  /** The worker returns without submitting. */
  lemma {:induction false} ReturnKeeps(d: Delivery, fed: DequeueResult)
    requires Inv(d) && !d.ended && d.worker.Idle?
    requires Prepare(d.controller, WithOrdinal(fed, |d.encoded|), true).1.Return?
    ensures Inv(Feed(d, fed))
  {
    hide EncodeHeader;
    hide FlagBits;
    var output := WithOrdinal(fed, |d.encoded|);
    if output.Packet? || output.EndOfStreamPacket? {
      var x: PacketOutput := output;
      var e := Feed(d, fed);
      assert e.encoded == d.encoded + [x] && e.sink == d.sink;
      GoodLineGrows(d.encoded, x, Line(d.sink), d.made, d.made);
      RememberMore(d.controller, d.encoded, x, d.made);
      assert Remembers(e.controller, e.encoded, e.made);
      assert IsStandaloneConfig(x) || (Gated(d.controller) && !IsKeyFrame(x));
      if !IsFrame(x) {
        SkipNonFrame(d.encoded, x, LastFrame(d.encoded, Line(d.sink)));
      }
      assert e.controller.state == d.controller.state;
      assert StateMatches(e);
    }
  }

  lemma {:induction false} SkipNonFrame(encoded: seq<PacketOutput>, x: PacketOutput, a: Option<nat>)
    requires !IsFrame(x)
    ensures a.Some? && Adjacent(encoded, a.value, |encoded|) ==> Adjacent(encoded + [x], a.value, |encoded| + 1)
  {
    if a.Some? && Adjacent(encoded, a.value, |encoded|) {
      forall k | a.value < k < |encoded| + 1 ensures !FrameAt(encoded + [x], k) {
        assert k < |encoded| ==> !FrameAt(encoded, k);
      }
    }
  }

  /** What `Prepare` hands to the sink. */
  lemma {:induction false} SubmittedBatch(c: Controller, x: PacketOutput)
    requires Prepare(c, x, true).1.Submission?
    ensures var (prepared, plan) := Prepare(c, x, true);
            && prepared.state == c.state && prepared.codecConfig == c.codecConfig && prepared.config == c.config
            && prepared.nextSequence == Numbered(c, |plan.batch|).nextSequence
            && (plan.kind.Terminal? <==> IsTerminal(x))
            && !IsStandaloneConfig(x)
            && (plan.kind.AccessPoint? <==> IsKeyFrame(x))
            && (plan.kind.Delta? ==> !Gated(c))
            && exists time: u64 ::
                 plan.batch == if plan.kind.AccessPoint? then AccessPointBatch(c, x.packet, time)
                               else [HostPacket(c.config, x.packet, c.nextSequence, false, time)]
  {
    hide FlagBits;
    var counted := c.(stats := c.stats.(encoderPackets := c.stats.encoderPackets + 1));
    var time: u64 := if x.packet.flags.codecConfig then 0 else Take(counted, x.packet.presentationTimeUs).1;
    var (prepared, plan) := Prepare(c, x, true);
    assert plan.batch == if plan.kind.AccessPoint? then AccessPointBatch(c, x.packet, time)
                         else [HostPacket(c.config, x.packet, c.nextSequence, false, time)];
  }

  /** A worker about to submit frame or end-of-stream packet `x` to a live sink. */
  ghost predicate ReadyToSubmit(d: Delivery, x: PacketOutput) {
    && Inv(d) && !d.ended && d.worker.Idle? && d.sink.connected && !d.sink.stopped
    && x.packet.ordinal == |d.encoded| && !IsStandaloneConfig(x)
    && (IsFrame(x) && !IsKeyFrame(x) ==> !Gated(d.controller))
  }

  /** `more` continues the line of `d` by the outputs up to and including `x`. */
  ghost predicate ExtendsBy(d: Delivery, x: PacketOutput, more: seq<OutboundPacket>, count: nat) {
    && GoodLine(d.encoded + [x], Line(d.sink) + more, d.made + count)
    && LastFrame(d.encoded + [x], Line(d.sink) + more)
       == if IsFrame(x) then Some(|d.encoded|) else LastFrame(d.encoded, Line(d.sink))
  }

  lemma {:induction false} AcceptedSingle(d: Delivery, x: PacketOutput, discontinuity: bool, time: u64)
    requires ReadyToSubmit(d, x)
    requires IsKeyFrame(x) ==> d.controller.codecConfig == None && discontinuity == MarksDiscontinuity(d.controller)
    requires Outbound(HostPacket(d.controller.config, x.packet, d.controller.nextSequence, discontinuity, time)).Some?
    ensures ExtendsBy(d, x,
              [Outbound(HostPacket(d.controller.config, x.packet, d.controller.nextSequence, discontinuity, time)).value],
              1)
  {
    hide Outbound;
    hide FlagBits;
    var encoded, c, line := d.encoded + [x], d.controller, Line(d.sink);
    GoodLineGrows(d.encoded, x, line, d.made, d.made);
    RememberMore(c, d.encoded, x, d.made);
    AdjacentGrowsToEnd(d.encoded, x, LastFrame(d.encoded, line));
    AppendMade(encoded, line, d.made, c.config, |d.encoded|, discontinuity, time);
  }

  lemma {:induction false} AcceptedPair(d: Delivery, x: PacketOutput, p: HostVideoPacket, q: HostVideoPacket, time: u64)
    requires ReadyToSubmit(d, x) && IsKeyFrame(x) && d.controller.codecConfig.Some?
    requires AccessPointBatch(d.controller, x.packet, time) == [p, q]
    requires Outbound(p).Some? && Outbound(q).Some?
    ensures ExtendsBy(d, x, [Outbound(p).value] + [Outbound(q).value], 2)
  {
    hide Outbound;
    hide FlagBits;
    var k := ReadyForKeyFrame(d, x);
    NextNumber(d.made);
    hide ReadyToSubmit;
    hide LastFrame;
    hide GoodLine;
    hide Adjacent;
    AppendPair(d.encoded + [x], Line(d.sink), d.made, d.controller.config, k, |d.encoded|,
               MarksDiscontinuity(d.controller), time);
  }

  /** The remembered codec data is the newest, and the gap before the key frame is none or marked. */
  lemma {:induction false} ReadyForKeyFrame(d: Delivery, x: PacketOutput) returns (k: nat)
    requires ReadyToSubmit(d, x) && IsKeyFrame(x) && d.controller.codecConfig.Some?
    ensures var encoded, c, line, n := d.encoded + [x], d.controller, Line(d.sink), |d.encoded|;
            && GoodLine(encoded, line, d.made) && k < n && encoded[k].packet.ordinal == k
            && LastFrame(encoded, line) == LastFrame(d.encoded, line)
            && IsStandaloneConfig(encoded[k]) && LatestConfig(encoded, n) == Some(k)
            && c.codecConfig == Some(encoded[k].packet) && c.nextSequence == d.made % SEQUENCE_COUNT
            && (LastFrame(encoded, line).Some? ==>
                  Adjacent(encoded, LastFrame(encoded, line).value, n) || MarksDiscontinuity(c))
  {
    var encoded, c, line, n := d.encoded + [x], d.controller, Line(d.sink), |d.encoded|;
    GoodLineGrows(d.encoded, x, line, d.made, d.made);
    RememberMore(c, d.encoded, x, d.made);
    AdjacentGrowsToEnd(d.encoded, x, LastFrame(d.encoded, line));
    k := LatestConfig(d.encoded, n).value;
    assert encoded[k] == d.encoded[k];
  }

  /** Codec data and the key frame behind it. */
  lemma {:induction false} AppendPair(encoded: seq<PacketOutput>, line: seq<OutboundPacket>, made: nat, config: OutputConfig,
                   k: nat, n: nat, discontinuity: bool, time: u64)
    requires GoodLine(encoded, line, made) && k < |encoded| && n < |encoded|
    requires encoded[k].packet.ordinal == k && encoded[n].packet.ordinal == n
    requires IsStandaloneConfig(encoded[k]) && IsKeyFrame(encoded[n]) && LatestConfig(encoded, n) == Some(k)
    requires LastFrame(encoded, line).Some? ==> Adjacent(encoded, LastFrame(encoded, line).value, n) || discontinuity
    requires Outbound(HostPacket(config, encoded[k].packet, made % SEQUENCE_COUNT, false, 0)).Some?
    requires Outbound(HostPacket(config, encoded[n].packet, (made + 1) % SEQUENCE_COUNT, discontinuity, time)).Some?
    ensures var o := Outbound(HostPacket(config, encoded[k].packet, made % SEQUENCE_COUNT, false, 0)).value;
            var o' := Outbound(HostPacket(config, encoded[n].packet, (made + 1) % SEQUENCE_COUNT, discontinuity, time)).value;
            && GoodLine(encoded, line + ([o] + [o']), made + 2)
            && LastFrame(encoded, line + ([o] + [o'])) == Some(n)
  {
    hide Outbound;
    hide FlagBits;
    hide GoodLine;
    var o := Outbound(HostPacket(config, encoded[k].packet, made % SEQUENCE_COUNT, false, 0)).value;
    var o' := Outbound(HostPacket(config, encoded[n].packet, (made + 1) % SEQUENCE_COUNT, discontinuity, time)).value;
    AppendMade(encoded, line, made, config, k, false, 0);
    assert (line + [o])[|line + [o]| - 1] == o;
    AppendMade(encoded, line + [o], made + 1, config, n, discontinuity, time);
    assert line + ([o] + [o']) == line + [o] + [o'];
  }

  /** The batch the sink accepted, appended to the line. */
  lemma {:induction false} AcceptedBatch(d: Delivery, x: PacketOutput, time: u64, batch: seq<HostVideoPacket>)
    requires ReadyToSubmit(d, x) && Serializable(batch)
    requires batch == if IsKeyFrame(x) then AccessPointBatch(d.controller, x.packet, time)
                      else [HostPacket(d.controller.config, x.packet, d.controller.nextSequence, false, time)]
    ensures ExtendsBy(d, x, OutboundAll(batch), |batch|)
  {
    hide Outbound;
    hide OutboundAll;
    hide Serializable;
    hide ExtendsBy;
    hide ReadyToSubmit;
    if |batch| == 2 {
      PairBatch(batch[0], batch[1]);
      assert batch == [batch[0], batch[1]];
      AcceptedPair(d, x, batch[0], batch[1], time);
    } else {
      SingleBatch(batch[0]);
      assert batch == [batch[0]];
      AcceptedSingle(d, x, IsKeyFrame(x) && MarksDiscontinuity(d.controller), time);
    }
  }

  lemma {:induction false} AdjacentGrowsToEnd(encoded: seq<PacketOutput>, x: PacketOutput, a: Option<nat>)
    ensures a.Some? && Adjacent(encoded, a.value, |encoded|) ==> Adjacent(encoded + [x], a.value, |encoded|)
    ensures IsFrame(x) ==> Adjacent(encoded + [x], |encoded|, |encoded| + 1)
  {
    if a.Some? && Adjacent(encoded, a.value, |encoded|) {
      forall k | a.value < k < |encoded| ensures !FrameAt(encoded + [x], k) {
        assert !FrameAt(encoded, k);
      }
    }
  }

  /** The worker submits a packet and gets an answer. */
  lemma {:induction false} SubmissionKeeps(d: Delivery, fed: DequeueResult)
    requires Inv(d) && !d.ended && d.worker.Idle?
    requires Prepare(d.controller, WithOrdinal(fed, |d.encoded|), true).1.Submission?
    ensures Inv(Feed(d, fed))
  {
    hide FlagBits;
    hide Outbound;
    hide OutboundAll;
    hide SubmitBatchStep;
    hide Accounted;
    hide ExtendsBy;
    hide Remembers;
    hide Answered;
    hide GoodLine;
    hide StateMatches;
    var x: PacketOutput := WithOrdinal(fed, |d.encoded|);
    var (prepared, plan) := Prepare(d.controller, x, true);
    SubmittedBatch(d.controller, x);
    var (sink, answer) := SubmitBatchStep(d.sink, plan.batch);
    SubmitKeepsAccounts(d.sink, plan.batch);
    SubmitExtendsLine(d.sink, plan.batch);
    SubmitAnswers(d.sink, plan.batch);
    SubmittedRemembers(d, x, prepared, plan.batch);
    if answer.status.Accepted? {
      SubmissionAccepted(d, x, plan.batch);
      AfterAccepted(d, x, prepared, plan.kind, plan.batch, sink);
    } else {
      if answer.status.QueueFull? && !plan.kind.Terminal? {
        NonTerminalWantsKeyFrame(d.controller, x, plan.batch);
      }
      AfterRefused(d, x, prepared, plan.kind, plan.batch, sink, answer);
    }
  }

  lemma {:induction false} AfterAccepted(d: Delivery, x: PacketOutput, prepared: Controller, kind: Kind,
                                          batch: seq<HostVideoPacket>, sink: Sink)
    requires Inv(d) && !d.ended && d.worker.Idle? && Accounted(sink) && Serializable(batch)
    requires Line(sink) == Line(d.sink) + OutboundAll(batch) && ExtendsBy(d, x, OutboundAll(batch), |batch|)
    requires Remembers(prepared, d.encoded + [x], d.made + |batch|) && prepared.state == d.controller.state
    requires IsFrame(x) ==> Adjacent(d.encoded + [x], |d.encoded|, |d.encoded| + 1)
    requires (kind.Terminal? <==> IsTerminal(x)) && !IsStandaloneConfig(x) && (kind.Delta? ==> !Gated(prepared))
    ensures Inv(Answered(d.(controller := prepared, sink := sink, encoded := d.encoded + [x], made := d.made + |batch|),
                         |batch|, kind, EnqueueResult(Accepted, false)))
  {
    hide Accounted;
    hide GoodLine;
    hide OutboundAll;
    hide IsStandaloneConfig;
    hide IsTerminal;
    hide Adjacent;
  }

  lemma {:induction false} AfterRefused(d: Delivery, x: PacketOutput, prepared: Controller, kind: Kind,
                                         batch: seq<HostVideoPacket>, sink: Sink, answer: EnqueueResult)
    requires Inv(d) && !d.ended && d.worker.Idle? && Accounted(sink) && Line(sink) == Line(d.sink)
    requires Remembers(prepared, d.encoded + [x], d.made + |batch|)
    requires !answer.status.Accepted?
    requires answer.status.QueueFull? && !kind.Terminal? ==> answer.requestKeyFrame
    ensures Inv(Answered(d.(controller := prepared, sink := sink, encoded := d.encoded + [x], made := d.made + |batch|),
                         |batch|, kind, answer))
  {
    hide Accounted;
    hide GoodLine;
    hide Line;
    hide Adjacent;
    GoodLineGrows(d.encoded, x, Line(d.sink), d.made, d.made + |batch|);
  }

  lemma {:induction false} SubmittedRemembers(d: Delivery, x: PacketOutput, prepared: Controller, batch: seq<HostVideoPacket>)
    requires Remembers(d.controller, d.encoded, d.made) && x.packet.ordinal == |d.encoded| && !IsStandaloneConfig(x)
    requires prepared.codecConfig == d.controller.codecConfig && |batch| <= 2
    requires prepared.nextSequence == Numbered(d.controller, |batch|).nextSequence
    ensures Remembers(prepared, d.encoded + [x], d.made + |batch|)
  {
    RememberMore(d.controller, d.encoded, x, d.made);
    NextNumber(d.made);
    NextNumber(d.made + 1);
  }

  lemma {:induction false} SubmitAnswers(s: Sink, batch: seq<HostVideoPacket>)
    ensures var (t, r) := SubmitBatchStep(s, batch);
            && (r.status.Accepted? ==> r == EnqueueResult(Accepted, false) && s.connected && !s.stopped && Serializable(batch))
            && (r.status.QueueFull? ==> r.requestKeyFrame == WantsKeyFrame(batch))
            && t.connected == s.connected && t.stopped == s.stopped
  {
    hide Outbound;
  }

  lemma {:induction false} SubmissionAccepted(d: Delivery, x: PacketOutput, batch: seq<HostVideoPacket>)
    requires Inv(d) && !d.ended && d.worker.Idle? && d.sink.connected && !d.sink.stopped
    requires x.packet.ordinal == |d.encoded| && Serializable(batch)
    requires var plan := Prepare(d.controller, x, true).1; plan.Submission? && plan.batch == batch
    ensures ExtendsBy(d, x, OutboundAll(batch), |batch|)
    ensures IsFrame(x) ==> Adjacent(d.encoded + [x], |d.encoded|, |d.encoded| + 1)
  {
    hide Outbound;
    hide OutboundAll;
    hide Serializable;
    hide ExtendsBy;
    hide FlagBits;
    var plan := Prepare(d.controller, x, true).1;
    SubmittedBatch(d.controller, x);
    var time: u64 :|
      plan.batch == if plan.kind.AccessPoint? then AccessPointBatch(d.controller, x.packet, time)
                    else [HostPacket(d.controller.config, x.packet, d.controller.nextSequence, false, time)];
    AcceptedBatch(d, x, time, batch);
    AdjacentGrowsToEnd(d.encoded, x, None);
  }

  lemma {:induction false} NonTerminalWantsKeyFrame(c: Controller, x: PacketOutput, batch: seq<HostVideoPacket>)
    requires var plan := Prepare(c, x, true).1; plan.Submission? && plan.batch == batch && !plan.kind.Terminal?
    ensures WantsKeyFrame(batch)
  {
    SubmittedBatch(c, x);
    var last := batch[|batch| - 1];
    FlagBitsRead(WireFlags(x.packet.flags, MarksDiscontinuity(c)));
    FlagBitsRead(WireFlags(x.packet.flags, false));
    assert !HasFlag(last.header.flags, 4);
  }

  lemma {:induction false} FinishKeeps(d: Delivery, accepts: bool)
    requires Inv(d) && d.worker.MustDiscard?
    ensures Inv(Finish(d, accepts))
  {
    hide GoodLine;
    hide Outbound;
    var e := Finish(d, accepts);
    SinkStepKeepsAccounts(d.sink, Discard);
    OthersKeepLinePrefix(d.sink, Discard);
    GoodLinePrefix(d.encoded, Line(d.sink), Line(e.sink), d.made);
  }

  lemma {:induction false} SenderKeeps(d: Delivery, step: SinkStep)
    requires Inv(d) && ByOtherThreads(step)
    ensures Inv(d.(sink := ApplySinkStep(d.sink, step)))
  {
    hide GoodLine;
    hide Outbound;
    var sink := ApplySinkStep(d.sink, step);
    SinkStepKeepsAccounts(d.sink, step);
    OthersKeepLinePrefix(d.sink, step);
    GoodLinePrefix(d.encoded, Line(d.sink), Line(sink), d.made);
    LastFramePrefix(d.encoded, Line(d.sink), Line(sink));
    LiveLineUnchanged(d.sink, step);
  }

  /** While the sink stays connected and running, the sender never loses a packet. */
  lemma {:induction false} LiveLineUnchanged(s: Sink, step: SinkStep)
    requires ByOtherThreads(step)
    ensures var t := ApplySinkStep(s, step); t.connected && !t.stopped ==> s.connected && !s.stopped && Line(t) == Line(s)
  {
    if step.Pop? && CanPop(s) {
      assert s.queue == [s.queue[0]] + s.queue[1..];
      assert Line(PopStep(s)) == Line(s);
    }
    if step.Complete? && s.current.Some? && s.progress >= s.current.value.WireSize() {
      assert Line(SentStep(s)) == Line(s);
    }
  }

  lemma {:induction false} LastFramePrefix(encoded: seq<PacketOutput>, line: seq<OutboundPacket>, shorter: seq<OutboundPacket>)
    requires shorter <= line
    ensures LastFrame(encoded, line) == None ==> LastFrame(encoded, shorter) == None
  {
    if |shorter| < |line| {
      LastFramePrefix(encoded, line[..|line| - 1], shorter);
    } else {
      assert shorter == line;
    }
  }

  lemma {:induction false} StepKeeps(d: Delivery, step: Step)
    requires Inv(d)
    ensures Inv(Apply(d, step))
  {
    hide Accounted;
    hide GoodLine;
    hide Feed;
    hide Finish;
    match step
    case EncoderOutput(output) =>
      if !d.ended && !d.worker.MustDiscard? {
        if Prepare(d.controller, WithOrdinal(output, |d.encoded|), true).1.Return? {
          ReturnKeeps(d, output);
        } else {
          SubmissionKeeps(d, output);
        }
      }
    case FinishDiscard(accepts) =>
      if d.worker.MustDiscard? {
        FinishKeeps(d, accepts);
      }
    case SenderStep(s) =>
      if ByOtherThreads(s) {
        SenderKeeps(d, s);
      }
    case RecordSubmission(time, ns) =>
  }

  lemma {:induction false} RunKeeps(config: OutputConfig, sinkConfig: SinkConfig, steps: seq<Step>)
    requires ValidConfig(sinkConfig)
    ensures Inv(Run(config, sinkConfig, steps))
  {
    if steps == [] {
      var d := Start(config, sinkConfig);
      assert Line(d.sink) == [];
    } else {
      RunKeeps(config, sinkConfig, steps[..|steps| - 1]);
      StepKeeps(Run(config, sinkConfig, steps[..|steps| - 1]), steps[|steps| - 1]);
    }
  }

  // ---------- the results, for every run ----------

  /** What the host has received completely is decodable from the start, although accepted
      packets may have been discarded from the queue at any time. */
  lemma {:induction false} SentIsDecodable(config: OutputConfig, sinkConfig: SinkConfig, steps: seq<Step>)
    requires ValidConfig(sinkConfig)
    ensures var d := Run(config, sinkConfig, steps);
            && Decodable(d.encoded, d.sink.sent)
            && AllCarry(d.encoded, d.sink.sent)
            && ConfigFirst(d.encoded, d.sink.sent)
            && (d.made <= SEQUENCE_COUNT ==> SequencesIncrease(d.sink.sent))
  {
    var d := Run(config, sinkConfig, steps);
    RunKeeps(config, sinkConfig, steps);
    assert d.sink.sent <= Line(d.sink);
    GoodLinePrefix(d.encoded, Line(d.sink), d.sink.sent, d.made);
  }

  /** Position `i` is the last frame before position `j` in the line. */
  ghost predicate ConsecutiveFrames(encoded: seq<PacketOutput>, line: seq<OutboundPacket>, i: nat, j: nat) {
    && i < j < |line|
    && FrameAt(encoded, line[i].packet.origin) && FrameAt(encoded, line[j].packet.origin)
    && forall k :: i < k < j ==> !FrameAt(encoded, line[k].packet.origin)
  }

  /** `Decodable`, spelled out for two frames sent one after the other and for the first one. */
  lemma {:induction false} DecodableMeans(encoded: seq<PacketOutput>, line: seq<OutboundPacket>, j: nat)
    requires Decodable(encoded, line) && j < |line| && FrameAt(encoded, line[j].packet.origin)
    ensures (forall k :: 0 <= k < j ==> !FrameAt(encoded, line[k].packet.origin)) ==> Key(line[j])
    ensures forall i: nat :: ConsecutiveFrames(encoded, line, i, j) ==>
              Adjacent(encoded, line[i].packet.origin, line[j].packet.origin) || (Key(line[j]) && Discontinuity(line[j]))
  {
    DecodablePrefix(encoded, line, line[..j + 1]);
    assert line[..j + 1][..j] == line[..j] && line[..j + 1][j] == line[j];
    if forall k :: 0 <= k < j ==> !FrameAt(encoded, line[k].packet.origin) {
      LastFrameNone(encoded, line[..j]);
    }
    forall i: nat | ConsecutiveFrames(encoded, line, i, j)
      ensures Adjacent(encoded, line[i].packet.origin, line[j].packet.origin) || (Key(line[j]) && Discontinuity(line[j]))
    {
      LastFrameIs(encoded, line[..j], i);
    }
  }

  lemma {:induction false} LastFrameNone(encoded: seq<PacketOutput>, line: seq<OutboundPacket>)
    requires forall k :: 0 <= k < |line| ==> !FrameAt(encoded, line[k].packet.origin)
    ensures LastFrame(encoded, line) == None
  {
    if line != [] {
      LastFrameNone(encoded, line[..|line| - 1]);
    }
  }

  lemma {:induction false} LastFrameIs(encoded: seq<PacketOutput>, line: seq<OutboundPacket>, i: nat)
    requires i < |line| && FrameAt(encoded, line[i].packet.origin)
    requires forall k :: i < k < |line| ==> !FrameAt(encoded, line[k].packet.origin)
    ensures LastFrame(encoded, line) == Some(line[i].packet.origin)
  {
    if i < |line| - 1 {
      LastFrameIs(encoded, line[..|line| - 1], i);
    }
  }

  /** In every interleaving: the first frame sent is a key frame, and a frame sent after another
      is the encoder's next frame unless it is a key frame flagged as a discontinuity. */
  lemma {:induction false} SentFramesAreConsecutive(config: OutputConfig, sinkConfig: SinkConfig, steps: seq<Step>, j: nat)
    requires ValidConfig(sinkConfig)
    requires var d := Run(config, sinkConfig, steps);
             j < |d.sink.sent| && FrameAt(d.encoded, d.sink.sent[j].packet.origin)
    ensures var d := Run(config, sinkConfig, steps);
            var sent := d.sink.sent;
            && ((forall k :: 0 <= k < j ==> !FrameAt(d.encoded, sent[k].packet.origin)) ==> Key(sent[j]))
            && (forall i: nat :: ConsecutiveFrames(d.encoded, sent, i, j) ==>
                  Adjacent(d.encoded, sent[i].packet.origin, sent[j].packet.origin)
                  || (Key(sent[j]) && Discontinuity(sent[j])))
  {
    SentIsDecodable(config, sinkConfig, steps);
    var d := Run(config, sinkConfig, steps);
    DecodableMeans(d.encoded, d.sink.sent, j);
  }

  /** While recovering, a key frame has been requested and none has come out of the encoder since. */
  lemma {:induction false} RecoveringHasRequested(config: OutputConfig, sinkConfig: SinkConfig, steps: seq<Step>)
    requires ValidConfig(sinkConfig)
    requires var d := Run(config, sinkConfig, steps);
             !d.ended && d.worker.Idle? && d.controller.state == Recovering
    ensures var d := Run(config, sinkConfig, steps);
            d.requests != [] && NoKeyFrameSince(d.encoded, d.requests[|d.requests| - 1])
  {
    RunKeeps(config, sinkConfig, steps);
  }

  // ---------- where the code falls short of the protocol text ----------

  /** The wire format has a flag for end of stream.  The packet that ends a stream carries it
      exactly when the encoder set it on the packet itself. */
  lemma {:induction false} EndOfStreamIsMarked(encoded: seq<PacketOutput>, p: OutboundPacket)
    requires Carries(encoded, p) && IsTerminal(encoded[p.packet.origin])
    ensures HasFlag(p.packet.header.flags, 4) <==> encoded[p.packet.origin].packet.flags.endOfStream
  {
    FlagBitsRead(WireFlags(encoded[p.packet.origin].packet.flags, Discontinuity(p)));
  }

  /** The end of a stream, from an encoder that reports it by the dequeue status with an empty
      packet, all the way to the socket. */
  function EmptyEndOfStream(time: i64): DequeueResult {
    EndOfStreamPacket(EncodedPacket([], EncodedFlags(false, false, false), time, 0))
  }

  predicate IsEndingRun(steps: seq<Step>, time: i64) {
    && |steps| == 4 && steps[0] == EncoderOutput(EmptyEndOfStream(time)) && steps[1] == SenderStep(Pop)
    && steps[2] == SenderStep(Write(VIDEO_PACKET_HEADER_SIZE)) && steps[3] == SenderStep(Complete)
  }

  /** Such a run ends in order, and the one packet on the wire, the end of the stream, is not marked
      as one. */
  lemma {:induction false} UnmarkedEndOfStream(config: OutputConfig, sinkConfig: SinkConfig, steps: seq<Step>, time: i64)
    requires ValidConfig(sinkConfig) && HasMatchingDisplayAspect(config.geometry) && time >= 0 && IsEndingRun(steps, time)
    ensures var d := Run(config, sinkConfig, steps);
            && d.ended && d.controller.state == OutputEnded && d.encoded == [EmptyEndOfStream(time)]
            && |d.sink.sent| == 1 && d.sink.sent[0].packet.origin == 0 && IsTerminal(d.encoded[0])
            && d.sink.wire == d.sink.sent[0].Wire()
            && !HasFlag(d.sink.sent[0].packet.header.flags, 4)
  {
    var p := EndingRunSends(config, sinkConfig, steps, time);
    FlagBitsRead(WireFlags(EncodedFlags(false, false, false), false));
    hide Run;
  }

  lemma {:induction false} EndingRunSends(config: OutputConfig, sinkConfig: SinkConfig, steps: seq<Step>, time: i64)
    returns (p: OutboundPacket)
    requires ValidConfig(sinkConfig) && HasMatchingDisplayAspect(config.geometry) && time >= 0 && IsEndingRun(steps, time)
    ensures var d := Run(config, sinkConfig, steps);
            && d.ended && d.controller.state == OutputEnded && d.encoded == [EmptyEndOfStream(time)]
            && d.sink.sent == [p] && d.sink.wire == p.Wire()
    ensures p.packet.origin == 0 && p.packet.header.flags == FlagBits(WireFlags(EncodedFlags(false, false, false), false))
  {
    hide Outbound;
    hide HasMatchingDisplayAspect;
    hide SubmitBatchStep;
    hide HostPacket;
    hide FlagBits;
    hide Prepare;
    hide Apply;
    hide ApplySinkStep;
    var start, output := Start(config, sinkConfig), EmptyEndOfStream(time);
    var host;
    host, p := EmptyLastPacket(config, output);
    AloneInTheQueue(start.sink, host);
    var d := Fed(start, output, host);
    SendsAll(d.sink, p);
    RunOfFour(config, sinkConfig, steps, d);
    hide Start;
    hide Run;
  }

  lemma {:induction false} RunOfFour(config: OutputConfig, sinkConfig: SinkConfig, steps: seq<Step>, d: Delivery)
    requires |steps| == 4 && Apply(Start(config, sinkConfig), steps[0]) == d
    requires forall k :: 1 <= k < 4 ==> steps[k].SenderStep? && ByOtherThreads(steps[k].step)
    ensures Run(config, sinkConfig, steps)
            == d.(sink := ApplySinkStep(ApplySinkStep(ApplySinkStep(d.sink, steps[1].step), steps[2].step), steps[3].step))
  {
    hide ApplySinkStep;
    assert steps[..3][..2] == steps[..2] && steps[..2][..1] == steps[..1] && steps[..1][..0] == [];
    assert Run(config, sinkConfig, steps[..0]) == Start(config, sinkConfig);
    hide Start;
    assert Run(config, sinkConfig, steps[..1]) == d;
    var second := ApplySinkStep(d.sink, steps[1].step);
    assert Run(config, sinkConfig, steps[..2]) == d.(sink := second);
    var third := ApplySinkStep(second, steps[2].step);
    assert Run(config, sinkConfig, steps[..3]) == d.(sink := third);
  }

  /** A sink that takes the last packet ends the run. */
  lemma {:induction false} Fed(start: Delivery, output: DequeueResult, host: HostVideoPacket) returns (d: Delivery)
    requires start.worker.Idle? && !start.ended && start.encoded == [] && output == WithOrdinal(output, 0)
    requires output.EndOfStreamPacket? && Prepare(start.controller, output, true).1 == Submission([host], Terminal)
    requires SubmitBatchStep(start.sink, [host]).1 == EnqueueResult(Accepted, false)
    ensures d == Apply(start, EncoderOutput(output))
    ensures d.ended && d.controller.state == OutputEnded && d.encoded == [output]
    ensures d.sink == SubmitBatchStep(start.sink, [host]).0
  {
    d := Apply(start, EncoderOutput(output));
    hide Prepare;
    hide SubmitBatchStep;
  }

  lemma {:induction false} EmptyLastPacket(config: OutputConfig, output: DequeueResult)
    returns (host: HostVideoPacket, p: OutboundPacket)
    requires output.EndOfStreamPacket? && output == EmptyEndOfStream(output.packet.presentationTimeUs)
    requires HasMatchingDisplayAspect(config.geometry) && output.packet.presentationTimeUs >= 0
    ensures Prepare(NewController(config), output, true).1 == Submission([host], Terminal) && host.payload == []
    ensures Outbound(host) == Some(p) && p.packet.origin == 0
    ensures p.packet.header.flags == FlagBits(WireFlags(output.packet.flags, false))
  {
    host := HostPacket(config, output.packet, 0, false, 0);
    p := Outbound(host).value;
    hide EncodeHeader;
    hide IsValidHeader;
  }

  /** A new sink takes one packet that has no payload. */
  lemma {:induction false} AloneInTheQueue(s: Sink, host: HostVideoPacket)
    requires s == NewSink(s.config) && ValidConfig(s.config) && Outbound(host).Some? && host.payload == []
    ensures var (t, answer) := SubmitBatchStep(s, [host]);
            && answer == EnqueueResult(Accepted, false)
            && t.queue == [Outbound(host).value] && t.current.None? && t.sent == [] && t.wire == [] && !t.stopped
    ensures Outbound(host).value.WireSize() == VIDEO_PACKET_HEADER_SIZE
  {
    hide EncodeHeader;
    hide IsValidHeader;
    var batch := [host];
    assert Serializable(batch) && batch[..0] == [];
    assert OutboundAll(batch) == [Outbound(host).value];
    hide Outbound;
    assert WireBytes([Outbound(host).value]) == 80;
  }

  lemma {:induction false} SendsAll(s: Sink, p: OutboundPacket)
    requires s.queue == [p] && s.current.None? && s.sent == [] && s.wire == [] && !s.stopped
    requires p.WireSize() == VIDEO_PACKET_HEADER_SIZE
    ensures var t := ApplySinkStep(ApplySinkStep(ApplySinkStep(s, Pop), Write(VIDEO_PACKET_HEADER_SIZE)), Complete);
            t.sent == [p] && t.wire == p.Wire()
  {
  }
}

/** The drop-oldest sender queue in front of the host audio socket.

    `Sink` holds the state guarded by the mutex, the sender thread's local variables, and history
    variables: `accepted` lists the packets taken from callers, `wire` those sent completely, each
    with its position among the accepted ones and the connection it went out on, and `lost` counts
    those given up for want of a working connection. */
module HostAudioSink {
  import opened Bytes

  const STREAM_START: bv32 := 1
  const DISCONTINUITY: bv32 := 2
  const STREAM_END: bv32 := 4
  const MAXIMUM_AUDIO_PAYLOAD := 1275

  datatype AudioPacketHeader = AudioPacketHeader(
    streamId: u32, generation: u32, sequence: u64, presentationTimestampNs: u64, sampleRate: u32, channelCount: u16,
    codec: u16, frameCount: u32, payloadSize: u32, flags: bv32, firstFramePosition: u64)

  datatype HostAudioPacket = HostAudioPacket(header: AudioPacketHeader, payload: seq<byte>)

  predicate HasFlag(flags: bv32, flag: bv32) { flags & flag != 0 }

  /** What the packet serializer accepts. */
  predicate IsValidHeader(h: AudioPacketHeader) {
    && h.streamId != 0 && h.generation != 0 && h.sequence != 0
    && h.sampleRate == 48000 && h.channelCount == 2 && h.codec == 1 && h.frameCount == 240
    && 0 < h.payloadSize <= MAXIMUM_AUDIO_PAYLOAD
    && h.flags & !(STREAM_START | DISCONTINUITY | STREAM_END) == 0
  }

  /** `ordinal` is a history variable: how many packets were accepted before this one. */
  datatype Queued = Queued(packet: HostAudioPacket, ordinal: nat)

  datatype Sent = Sent(header: AudioPacketHeader, payload: seq<byte>, ordinal: nat, connection: nat)

  /** Where the sender thread is: waiting, holding a popped packet, about to record a failed or
      refused packet (counting a failed send or not), or about to count a sent one. */
  datatype Sender = Waiting | Holding(current: Queued, discontinuity: bool) | Refused(sendFailed: bool) | Finishing

  datatype AudioStats = AudioStats(
    acceptedPackets: nat, droppedPackets: nat, sentPackets: nat, connectionFailures: nat, sendFailures: nat,
    bufferedPackets: nat)

  datatype Sink = Sink(
    maxBufferedPackets: nat, queue: seq<Queued>, stopped: bool, forceDiscontinuity: bool, activeGeneration: u32,
    stats: AudioStats,
    sender: Sender, connected: bool, deliveredGeneration: u32, deliveredSequence: u64,
    accepted: seq<HostAudioPacket>, connections: nat, lost: nat, wire: seq<Sent>)

  function NewSink(maxBufferedPackets: nat): Sink {
    Sink(maxBufferedPackets, [], false, true, 0, AudioStats(0, 0, 0, 0, 0, 0), Waiting, false, 0, 0, [], 0, 0, [])
  }

  // ---------- callers ----------

  function ChangeGeneration(s: Sink, generation: u32): Sink {
    if s.activeGeneration == generation then s
    else s.(stats := s.stats.(droppedPackets := s.stats.droppedPackets + |s.queue|), queue := [],
            activeGeneration := generation, forceDiscontinuity := true)
  }

  function DropOldest(s: Sink): Sink {
    if |s.queue| != s.maxBufferedPackets || s.queue == [] then s
    else s.(queue := s.queue[1..], stats := s.stats.(droppedPackets := s.stats.droppedPackets + 1),
            forceDiscontinuity := true)
  }

  function Append(s: Sink, packet: HostAudioPacket): Sink {
    s.(queue := s.queue + [Queued(packet, |s.accepted|)], accepted := s.accepted + [packet],
       stats := s.stats.(acceptedPackets := s.stats.acceptedPackets + 1, bufferedPackets := |s.queue| + 1))
  }

  function EnqueueStep(s: Sink, packet: HostAudioPacket): (Sink, bool) {
    if packet.payload == [] || |packet.payload| > MAXIMUM_AUDIO_PAYLOAD || s.stopped then (s, false)
    else
      var sized := packet.(header := packet.header.(payloadSize := |packet.payload|));
      (Append(DropOldest(ChangeGeneration(s, packet.header.generation)), sized), true)
  }

  function MarkStep(s: Sink): Sink { s.(forceDiscontinuity := true) }

  function DiscardStep(s: Sink): Sink {
    s.(stats := s.stats.(droppedPackets := s.stats.droppedPackets + |s.queue|, bufferedPackets := 0), queue := [],
       forceDiscontinuity := true)
  }

  function StopStep(s: Sink): Sink { s.(stopped := true, queue := []) }

  // ---------- the sender ----------

  predicate CanPop(s: Sink) { s.sender.Waiting? && !s.stopped && s.queue != [] }

  function PopStep(s: Sink): Sink
    requires CanPop(s)
  {
    s.(sender := Holding(s.queue[0], s.forceDiscontinuity), queue := s.queue[1..], forceDiscontinuity := false,
       stats := s.stats.(bufferedPackets := |s.queue| - 1))
  }

  /** Outcome of looking for a connection. */
  datatype Connect = TooSoon | NobodyThere | AcceptFailed | Connected

  predicate CanConnect(s: Sink) { s.sender.Holding? && !s.connected }

  function ConnectStep(s: Sink, outcome: Connect): Sink
    requires CanConnect(s)
  {
    match outcome
    case TooSoon => s.(sender := Refused(false), lost := s.lost + 1)
    case NobodyThere => s.(sender := Refused(false), lost := s.lost + 1)
    case AcceptFailed =>
      s.(sender := Refused(false), lost := s.lost + 1, stats := s.stats.(connectionFailures := s.stats.connectionFailures + 1))
    case Connected =>
      s.(connected := true, connections := s.connections + 1, sender := Holding(s.sender.current, true))
  }

  predicate CanSend(s: Sink) { s.sender.Holding? && s.connected }

  /** The header as it goes out. */
  function Stamped(s: Sink): AudioPacketHeader
    requires s.sender.Holding?
  {
    var h := s.sender.current.packet.header;
    var streamStart := h.generation != s.deliveredGeneration;
    h.(sequence := if streamStart then 1 else (s.deliveredSequence + 1) % 0x1_0000_0000_0000_0000,
       flags := Marked(h.flags, streamStart, s.sender.discontinuity))
  }

  /** Serialize and write; `ok` is whether the socket takes everything. */
  function SendStep(s: Sink, ok: bool): Sink
    requires CanSend(s)
  {
    var header := Stamped(s);
    if !IsValidHeader(header) || !ok then s.(connected := false, sender := Refused(true), lost := s.lost + 1)
    else
      s.(deliveredGeneration := header.generation, deliveredSequence := header.sequence, sender := Finishing,
         wire := s.wire + [Sent(header, s.sender.current.packet.payload, s.sender.current.ordinal, s.connections)])
  }

  /** The locked section after a packet was given up or sent. */
  function RecordStep(s: Sink): Sink {
    match s.sender
    case Refused(sendFailed) =>
      s.(sender := Waiting, forceDiscontinuity := true,
         stats := s.stats.(sendFailures := s.stats.sendFailures + if sendFailed then 1 else 0))
    case Finishing => s.(sender := Waiting, stats := s.stats.(sentPackets := s.stats.sentPackets + 1))
    case _ => s
  }

  /** Every step of every thread. */
  datatype Step =
    | Enqueue(packet: HostAudioPacket) | Mark | Discard | Stop | Pop | TryConnect(outcome: Connect) | Send(ok: bool) | Record

  /** A step that is not enabled changes nothing. */
  function Apply(s: Sink, step: Step): Sink {
    match step
    case Enqueue(packet) => EnqueueStep(s, packet).0
    case Mark => MarkStep(s)
    case Discard => DiscardStep(s)
    case Stop => StopStep(s)
    case Pop => if CanPop(s) then PopStep(s) else s
    case TryConnect(outcome) => if CanConnect(s) then ConnectStep(s, outcome) else s
    case Send(ok) => if CanSend(s) then SendStep(s, ok) else s
    case Record => RecordStep(s)
  }

  function Run(s: Sink, steps: seq<Step>): Sink {
    if steps == [] then s else Apply(Run(s, steps[..|steps| - 1]), steps[|steps| - 1])
  }

  // ---------- what goes out ----------

  /** The packet was accepted right after the one sent before it, which went out on the same
      connection. */
  predicate Follows(wire: seq<Sent>, k: nat)
    requires k < |wire|
  {
    k > 0 && wire[k].ordinal == wire[k - 1].ordinal + 1 && wire[k].connection == wire[k - 1].connection
  }

  predicate StartsRun(wire: seq<Sent>, k: nat)
    requires k < |wire|
  {
    k == 0 || wire[k].header.generation != wire[k - 1].header.generation
  }

  /** Apart from sequence number and flags, a packet goes out as it was accepted. */
  predicate IsAccepted(accepted: seq<HostAudioPacket>, sent: Sent) {
    && sent.ordinal < |accepted|
    && sent.payload == accepted[sent.ordinal].payload
    && sent.header == accepted[sent.ordinal].header.(sequence := sent.header.sequence, flags := sent.header.flags)
  }

  /** No gap stays unmarked; sequence numbers restart at 1 with every run of one generation, and
      the start of a run is marked and nothing else is, unless the caller marked it. */
  predicate GoodEntry(accepted: seq<HostAudioPacket>, wire: seq<Sent>, k: nat)
    requires k < |wire|
  {
    var h := wire[k].header;
    && IsValidHeader(h)
    && IsAccepted(accepted, wire[k])
    && (!Follows(wire, k) ==> HasFlag(h.flags, DISCONTINUITY))
    && (k > 0 ==> wire[k - 1].ordinal < wire[k].ordinal && wire[k - 1].connection <= wire[k].connection)
    && h.sequence == (if StartsRun(wire, k) then 1 else wire[k - 1].header.sequence + 1)
    && (HasFlag(h.flags, STREAM_START)
        <==> StartsRun(wire, k) || HasFlag(accepted[wire[k].ordinal].header.flags, STREAM_START))
    && (StartsRun(wire, k) ==> HasFlag(h.flags, DISCONTINUITY))
  }

  ghost predicate GoodWire(accepted: seq<HostAudioPacket>, wire: seq<Sent>) {
    forall k :: 0 <= k < |wire| ==> GoodEntry(accepted, wire, k)
  }

  /** Ordinal of the packet that would be popped next. */
  function NextOrdinal(s: Sink): int { |s.accepted| - |s.queue| }

  /** The last packet sent was accepted right before number `n`. */
  predicate LastSentBefore(s: Sink, n: int) {
    s.wire != [] && s.wire[|s.wire| - 1].ordinal + 1 == n
  }

  predicate NoUnmarkedGap(s: Sink) {
    match s.sender
    case Waiting => s.stopped || s.forceDiscontinuity || LastSentBefore(s, NextOrdinal(s))
    case Finishing => s.stopped || s.forceDiscontinuity || LastSentBefore(s, NextOrdinal(s))
    case Holding(q, d) =>
      && (s.stopped || s.forceDiscontinuity || q.ordinal + 1 == NextOrdinal(s))
      && (d || LastSentBefore(s, q.ordinal))
    case Refused(_) => true
  }

  predicate SameConnection(s: Sink) {
    && (s.wire != [] ==> s.wire[|s.wire| - 1].connection <= s.connections)
    && (s.connected ==> (s.sender.Holding? && s.sender.discontinuity)
                        || (s.wire != [] && s.wire[|s.wire| - 1].connection == s.connections))
  }

  ghost predicate GoodQueue(s: Sink) {
    && |s.queue| <= s.maxBufferedPackets && |s.queue| <= |s.accepted|
    && (forall i :: 0 <= i < |s.queue| ==> s.queue[i] == Queued(s.accepted[NextOrdinal(s) + i], NextOrdinal(s) + i))
    && (forall i :: 0 <= i < |s.queue| ==> s.queue[i].packet.header.generation == s.activeGeneration)
    && (s.stopped || s.stats.bufferedPackets == |s.queue|)
  }

  predicate InOrder(s: Sink) {
    && (s.sender.Holding? ==>
          && s.sender.current.ordinal < NextOrdinal(s)
          && s.sender.current.packet == s.accepted[s.sender.current.ordinal])
    && (s.wire != [] ==>
          s.wire[|s.wire| - 1].ordinal < if s.sender.Holding? then s.sender.current.ordinal else NextOrdinal(s))
  }

  predicate Delivered(s: Sink) {
    if s.wire == [] then s.deliveredGeneration == 0
    else
      var h := s.wire[|s.wire| - 1].header;
      s.deliveredGeneration == h.generation && s.deliveredSequence == h.sequence
  }

  function InHand(s: Sink): nat { if s.sender.Holding? then 1 else 0 }

  /** Every accepted packet was sent, dropped or lost, or is still queued or in hand. */
  predicate Accounted(s: Sink) {
    && s.stats.acceptedPackets == |s.accepted|
    && s.stats.sentPackets + (if s.sender.Finishing? then 1 else 0) == |s.wire|
    && (!s.stopped ==> |s.accepted| == |s.wire| + s.stats.droppedPackets + s.lost + |s.queue| + InHand(s))
  }

  ghost predicate Inv(s: Sink) {
    && s.maxBufferedPackets > 0
    && GoodWire(s.accepted, s.wire) && GoodQueue(s) && NoUnmarkedGap(s) && SameConnection(s) && Delivered(s)
    && InOrder(s) && Accounted(s)
  }

  lemma {:induction false} SetFlagIsSet(flags: bv32)
    ensures HasFlag(flags | STREAM_START, STREAM_START) && HasFlag(flags | DISCONTINUITY, DISCONTINUITY)
  {
    assert (flags | STREAM_START) & STREAM_START == STREAM_START;
    assert (flags | DISCONTINUITY) & DISCONTINUITY == DISCONTINUITY;
  }

  lemma {:induction false} StartSurvivesDiscontinuity(flags: bv32)
    ensures HasFlag(flags | DISCONTINUITY, STREAM_START) == HasFlag(flags, STREAM_START)
  {
    assert (flags | DISCONTINUITY) & STREAM_START == flags & STREAM_START;
  }

  lemma {:induction false} DiscontinuitySurvivesStart(flags: bv32)
    ensures HasFlag(flags | STREAM_START, DISCONTINUITY) == HasFlag(flags, DISCONTINUITY)
  {
    assert (flags | STREAM_START) & DISCONTINUITY == flags & DISCONTINUITY;
  }

  function Marked(flags: bv32, streamStart: bool, discontinuity: bool): (marked: bv32)
    ensures HasFlag(marked, DISCONTINUITY) <==> streamStart || discontinuity || HasFlag(flags, DISCONTINUITY)
    ensures HasFlag(marked, STREAM_START) <==> streamStart || HasFlag(flags, STREAM_START)
    ensures !streamStart && !discontinuity ==> marked == flags
  {
    hide HasFlag;
    var started := if streamStart then flags | STREAM_START else flags;
    SetFlagIsSet(flags);
    SetFlagIsSet(started);
    StartSurvivesDiscontinuity(started);
    DiscontinuitySurvivesStart(flags);
    if streamStart || discontinuity then started | DISCONTINUITY else started
  }

  lemma {:induction false} WireGrows(accepted: seq<HostAudioPacket>, wire: seq<Sent>, next: Sent)
    requires GoodWire(accepted, wire) && GoodEntry(accepted, wire + [next], |wire|)
    ensures GoodWire(accepted, wire + [next])
  {
    hide HasFlag;
    hide IsValidHeader;
    hide IsAccepted;
    forall k | 0 <= k < |wire| ensures GoodEntry(accepted, wire + [next], k) {
      assert GoodEntry(accepted, wire, k);
    }
  }

  lemma {:induction false} AcceptedGrows(accepted: seq<HostAudioPacket>, wire: seq<Sent>, packet: HostAudioPacket)
    requires GoodWire(accepted, wire)
    ensures GoodWire(accepted + [packet], wire)
  {
    hide HasFlag;
    hide IsValidHeader;
    forall k | 0 <= k < |wire| ensures GoodEntry(accepted + [packet], wire, k) {
      assert GoodEntry(accepted, wire, k);
    }
  }

  lemma {:induction false} SendKeeps(s: Sink, ok: bool)
    requires Inv(s) && CanSend(s)
    ensures Inv(SendStep(s, ok))
  {
    var h := Stamped(s);
    hide HasFlag;
    hide Marked;
    if ok && IsValidHeader(h) {
      var next := Sent(h, s.sender.current.packet.payload, s.sender.current.ordinal, s.connections);
      assert h.sequence != 0 && h.generation != 0;
      hide IsValidHeader;
      assert GoodEntry(s.accepted, s.wire + [next], |s.wire|);
      WireGrows(s.accepted, s.wire, next);
      hide GoodEntry;
    }
  }

  lemma {:induction false} EnqueueKeeps(s: Sink, packet: HostAudioPacket)
    requires Inv(s)
    ensures Inv(EnqueueStep(s, packet).0)
  {
    if EnqueueStep(s, packet).1 {
      var sized := packet.(header := packet.header.(payloadSize := |packet.payload|));
      AcceptedGrows(s.accepted, s.wire, sized);
      hide GoodWire;
      ChangeKeeps(s, packet.header.generation);
      hide ChangeGeneration;
      DropKeeps(ChangeGeneration(s, packet.header.generation));
      hide DropOldest;
      AppendKeeps(DropOldest(ChangeGeneration(s, packet.header.generation)), sized);
    }
  }

  /** The invariant inside `Enqueue`, where the buffered count may lag behind. */
  ghost predicate InvInside(s: Sink) {
    && s.maxBufferedPackets > 0 && !s.stopped
    && GoodQueue(s.(stats := s.stats.(bufferedPackets := |s.queue|))) && NoUnmarkedGap(s) && SameConnection(s)
    && Delivered(s) && InOrder(s) && Accounted(s)
  }

  lemma {:induction false} ChangeKeeps(s: Sink, generation: u32)
    requires Inv(s) && !s.stopped
    ensures var t := ChangeGeneration(s, generation);
            InvInside(t) && t.accepted == s.accepted && t.wire == s.wire && t.activeGeneration == generation
  {
    hide GoodWire;
  }

  lemma {:induction false} DropKeeps(s: Sink)
    requires InvInside(s)
    ensures var t := DropOldest(s);
            && InvInside(t) && t.accepted == s.accepted && t.wire == s.wire && t.activeGeneration == s.activeGeneration
            && |t.queue| < t.maxBufferedPackets
  {
  }

  lemma {:induction false} AppendKeeps(s: Sink, packet: HostAudioPacket)
    requires InvInside(s) && |s.queue| < s.maxBufferedPackets && packet.header.generation == s.activeGeneration
    requires GoodWire(s.accepted + [packet], s.wire)
    ensures Inv(Append(s, packet))
  {
    hide GoodWire;
  }

  lemma {:induction false} CallersKeep(s: Sink, step: Step)
    requires Inv(s) && (step.Mark? || step.Discard? || step.Stop? || step.Record?)
    ensures Inv(Apply(s, step))
  {
    hide GoodWire;
    hide SendStep;
    hide EnqueueStep;
    hide ConnectStep;
    hide PopStep;
  }

  lemma {:induction false} PopKeeps(s: Sink)
    requires Inv(s) && CanPop(s)
    ensures Inv(PopStep(s))
  {
    hide GoodWire;
  }

  lemma {:induction false} ConnectKeeps(s: Sink, outcome: Connect)
    requires Inv(s) && CanConnect(s)
    ensures Inv(ConnectStep(s, outcome))
  {
    hide GoodWire;
    var t := ConnectStep(s, outcome);
    assert GoodQueue(t);
    hide GoodQueue;
  }

  lemma {:induction false} ApplyKeeps(s: Sink, step: Step)
    requires Inv(s)
    ensures Inv(Apply(s, step))
  {
    hide Inv;
    match step
    case Enqueue(packet) => EnqueueKeeps(s, packet);
    case Send(ok) => if CanSend(s) { SendKeeps(s, ok); }
    case Pop => if CanPop(s) { PopKeeps(s); }
    case TryConnect(outcome) => if CanConnect(s) { ConnectKeeps(s, outcome); }
    case _ => CallersKeep(s, step);
  }

  lemma {:induction false} RunKeeps(maxBufferedPackets: nat, steps: seq<Step>)
    requires maxBufferedPackets > 0
    ensures Inv(Run(NewSink(maxBufferedPackets), steps))
    ensures Run(NewSink(maxBufferedPackets), steps).maxBufferedPackets == maxBufferedPackets
  {
    if steps == [] {
      assert Inv(NewSink(maxBufferedPackets));
    } else {
      hide Inv;
      RunKeeps(maxBufferedPackets, steps[..|steps| - 1]);
      BoundIsFixed(Run(NewSink(maxBufferedPackets), steps[..|steps| - 1]), steps[|steps| - 1]);
      hide Apply;
      ApplyKeeps(Run(NewSink(maxBufferedPackets), steps[..|steps| - 1]), steps[|steps| - 1]);
    }
  }

  lemma {:induction false} BoundIsFixed(s: Sink, step: Step)
    ensures Apply(s, step).maxBufferedPackets == s.maxBufferedPackets
  {
  }

  // ---------- every interleaving ----------

  /** Packets go out in the order they were accepted, and a packet that does not directly follow
      the one sent before it, or is the first on its connection, is marked as a discontinuity. */
  lemma {:induction false} GapsAreMarked(maxBufferedPackets: nat, steps: seq<Step>, k: nat)
    requires maxBufferedPackets > 0 && k < |Run(NewSink(maxBufferedPackets), steps).wire|
    ensures var s := Run(NewSink(maxBufferedPackets), steps);
            && IsValidHeader(s.wire[k].header) && IsAccepted(s.accepted, s.wire[k])
            && (k > 0 ==> s.wire[k - 1].ordinal < s.wire[k].ordinal && s.wire[k - 1].connection <= s.wire[k].connection)
            && (k == 0 || s.wire[k].ordinal != s.wire[k - 1].ordinal + 1 || s.wire[k].connection != s.wire[k - 1].connection ==>
                  HasFlag(s.wire[k].header.flags, DISCONTINUITY))
  {
    hide Run;
    hide HasFlag;
    RunKeeps(maxBufferedPackets, steps);
    assert GoodEntry(Run(NewSink(maxBufferedPackets), steps).accepted, Run(NewSink(maxBufferedPackets), steps).wire, k);
  }

  /** Each maximal run of one generation on the wire is numbered 1, 2, 3, ...: packet `k` of a run
      that starts at `i` has number `k - i + 1`, and only the first is marked as the start. */
  lemma {:induction false} RunsAreNumbered(maxBufferedPackets: nat, steps: seq<Step>, i: nat, k: nat)
    requires maxBufferedPackets > 0
    requires var wire := Run(NewSink(maxBufferedPackets), steps).wire;
             && i <= k < |wire| && StartsRun(wire, i)
             && forall j :: i < j <= k ==> wire[j].header.generation == wire[j - 1].header.generation
    ensures var s := Run(NewSink(maxBufferedPackets), steps);
            && s.wire[k].header.sequence == k - i + 1
            && s.wire[k].ordinal < |s.accepted|
            && (!HasFlag(s.accepted[s.wire[k].ordinal].header.flags, STREAM_START) ==>
                  (HasFlag(s.wire[k].header.flags, STREAM_START) <==> k == i))
  {
    hide Run;
    hide HasFlag;
    hide IsValidHeader;
    RunKeeps(maxBufferedPackets, steps);
    var s := Run(NewSink(maxBufferedPackets), steps);
    assert GoodEntry(s.accepted, s.wire, k);
    if k > i {
      RunsAreNumbered(maxBufferedPackets, steps, i, k - 1);
    }
  }

  /** The queue holds the newest accepted packets, all of one generation, within its bound, and
      no packet goes missing from the books. */
  lemma {:induction false} QueueHoldsOneGeneration(maxBufferedPackets: nat, steps: seq<Step>)
    requires maxBufferedPackets > 0
    ensures var s := Run(NewSink(maxBufferedPackets), steps);
            && |s.queue| <= maxBufferedPackets && |s.queue| <= |s.accepted|
            && (forall i :: 0 <= i < |s.queue| ==>
                  && s.queue[i].packet == s.accepted[|s.accepted| - |s.queue| + i]
                  && s.queue[i].packet.header.generation == s.activeGeneration)
            && Accounted(s)
  {
    hide Run;
    hide GoodWire;
    RunKeeps(maxBufferedPackets, steps);
  }

  /** A packet of one byte. */
  function Sample(generation: u32): HostAudioPacket {
    HostAudioPacket(AudioPacketHeader(1, generation, 0, 0, 48000, 2, 1, 240, 1, 0, 0), [0])
  }

  /** A packet goes all the way. */
  function Delivery(generation: u32): seq<Step> {
    [Enqueue(Sample(generation)), Pop, TryConnect(Connected), Send(true), Record]
  }

  /** The sender is idle, and at most one packet waits, filling the queue. */
  predicate IsIdle(s: Sink) {
    s.sender.Waiting? && !s.stopped && s.maxBufferedPackets == 1 && |s.queue| <= 1 && s.deliveredSequence <= 0xffff
  }

  /** What comes of one delivery; a packet that waited is dropped. */
  ghost predicate IsDelivered(s: Sink, generation: u32, t: Sink) {
    && IsIdle(s) && IsIdle(t.(deliveredSequence := 0)) && t.queue == [] && t.connected
    && |t.accepted| == |s.accepted| + 1 && |t.wire| == |s.wire| + 1 && t.wire[..|s.wire|] == s.wire
    && t.activeGeneration == t.deliveredGeneration == generation
    && var sent := t.wire[|s.wire|];
    && sent.ordinal == |s.accepted| && sent.header.generation == generation
    && t.deliveredSequence == sent.header.sequence
       == (if generation == s.deliveredGeneration then s.deliveredSequence + 1 else 1)
    && t.connections == sent.connection == (if s.connected then s.connections else s.connections + 1)
    && (HasFlag(sent.header.flags, STREAM_START) <==> generation != s.deliveredGeneration)
    && (HasFlag(sent.header.flags, DISCONTINUITY)
        <==> generation != s.deliveredGeneration || generation != s.activeGeneration || !s.connected || s.forceDiscontinuity
             || s.queue != [])
    && !t.forceDiscontinuity
  }

  lemma {:induction false} Delivers(s: Sink, generation: u32)
    requires IsIdle(s) && generation != 0
    ensures IsDelivered(s, generation, Run(s, Delivery(generation)))
  {
    var steps := Delivery(generation);
    var a := EnqueueStep(s, Sample(generation)).0;
    SampleWaits(s, generation);
    hide EnqueueStep;
    var b := PopStep(a);
    var c := Apply(b, TryConnect(Connected));
    assert c == b.(connected := true, sender := c.sender, connections := c.connections);
    SampleGoesOut(c, generation);
    hide SendStep;
    RunOfFive(s, steps, a, b, c, SendStep(c, true));
    hide Run;
    hide HasFlag;
  }

  lemma {:induction false} SampleGoesOut(s: Sink, generation: u32)
    requires CanSend(s) && s.sender.current.packet == Sample(generation) && generation != 0
    requires s.deliveredSequence <= 0xffff
    ensures var t, h := SendStep(s, true), Stamped(s);
            && t == s.(deliveredGeneration := generation, deliveredSequence := h.sequence, sender := Finishing,
                       wire := s.wire + [Sent(h, [0], s.sender.current.ordinal, s.connections)])
            && h.generation == generation
            && h.sequence == (if generation == s.deliveredGeneration then s.deliveredSequence + 1 else 1)
            && (HasFlag(h.flags, STREAM_START) <==> generation != s.deliveredGeneration)
            && (HasFlag(h.flags, DISCONTINUITY) <==> generation != s.deliveredGeneration || s.sender.discontinuity)
  {
    SampleIsValid(s, generation);
    hide IsValidHeader;
    hide Marked;
    hide HasFlag;
  }

  lemma {:induction false} SampleWaits(s: Sink, generation: u32)
    requires IsIdle(s)
    ensures var a := EnqueueStep(s, Sample(generation)).0;
            && CanPop(a) && a.queue == [Queued(Sample(generation), |s.accepted|)] && a.activeGeneration == generation
            && a.accepted == s.accepted + [Sample(generation)]
            && a.forceDiscontinuity == (s.forceDiscontinuity || generation != s.activeGeneration || s.queue != [])
            && a == s.(queue := a.queue, activeGeneration := generation, accepted := a.accepted,
                       forceDiscontinuity := a.forceDiscontinuity, stats := a.stats)
  {
  }

  lemma {:induction false} SampleIsValid(s: Sink, generation: u32)
    requires s.sender.Holding? && s.sender.current.packet == Sample(generation) && generation != 0
    requires s.deliveredSequence <= 0xffff
    ensures IsValidHeader(Stamped(s))
    ensures HasFlag(Stamped(s).flags, STREAM_START) <==> generation != s.deliveredGeneration
    ensures HasFlag(Stamped(s).flags, DISCONTINUITY) <==> generation != s.deliveredGeneration || s.sender.discontinuity
  {
  }

  lemma {:induction false} RunOfFive(s: Sink, steps: seq<Step>, a: Sink, b: Sink, c: Sink, d: Sink)
    requires |steps| == 5 && Apply(s, steps[0]) == a && Apply(a, steps[1]) == b && Apply(b, steps[2]) == c
    requires Apply(c, steps[3]) == d
    ensures Run(s, steps) == Apply(d, steps[4])
  {
    hide Apply;
    assert steps[..4][..3] == steps[..3] && steps[..3][..2] == steps[..2] && steps[..2][..1] == steps[..1];
    assert Run(s, steps[..1]) == a;
    assert Run(s, steps[..2]) == b;
    assert Run(s, steps[..3]) == c;
    assert Run(s, steps[..4]) == d;
  }

  lemma {:induction false} RunAppends(s: Sink, first: seq<Step>, second: seq<Step>)
    ensures Run(s, first + second) == Run(Run(s, first), second)
  {
    if second == [] {
      assert first + second == first;
    } else {
      var n := |second| - 1;
      assert (first + second)[..|first| + n] == first + second[..n];
      RunAppends(s, first, second[..n]);
    }
  }

  /** A packet dropped on the way leaves no gap in the numbers: of three accepted packets the first
      and the third go out, on one connection, as numbers 1 and 2; only the flag tells. */
  lemma {:induction false} LostPacketsAreNotNumbered(generation: u32)
    requires generation != 0
    ensures var s := Run(NewSink(1), Delivery(generation) + [Enqueue(Sample(generation))] + Delivery(generation));
            && |s.accepted| == 3 && |s.wire| == 2 && s.wire[0].ordinal == 0 && s.wire[1].ordinal == 2
            && s.wire[0].header.generation == s.wire[1].header.generation
            && s.wire[0].header.sequence == 1 && s.wire[1].header.sequence == 2
            && s.wire[0].connection == s.wire[1].connection
            && HasFlag(s.wire[1].header.flags, DISCONTINUITY) && !HasFlag(s.wire[1].header.flags, STREAM_START)
  {
    var start, steps := NewSink(1), Delivery(generation);
    var lone: seq<Step> := [Enqueue(Sample(generation))];
    RunAppends(start, steps + lone, steps);
    RunAppends(start, steps, lone);
    var s1 := Run(start, steps);
    Delivers(start, generation);
    assert lone[..0] == [];
    var s2 := Run(s1, lone);
    assert s2 == EnqueueStep(s1, Sample(generation)).0;
    SampleWaits(s1, generation);
    hide Run;
    hide HasFlag;
    hide EnqueueStep;
    Delivers(s2, generation);
    assert Run(s2, steps).wire[..1][0] == s1.wire[0];
  }

  /** A generation that comes back after another one starts anew: number 1, with the flag for the
      first packet. */
  lemma {:induction false} ReturningGenerationStartsAgain(generation: u32, other: u32)
    requires generation != 0 && other != 0 && generation != other
    ensures var s := Run(NewSink(1), Delivery(generation) + Delivery(other) + Delivery(generation));
            && |s.wire| == 3 && s.wire[0].header.generation == s.wire[2].header.generation == generation
            && forall k :: 0 <= k < 3 ==> s.wire[k].header.sequence == 1 && HasFlag(s.wire[k].header.flags, STREAM_START)
  {
    var start, steps := NewSink(1), Delivery(generation);
    RunAppends(start, steps + Delivery(other), steps);
    RunAppends(start, steps, Delivery(other));
    Delivers(start, generation);
    var s1 := Run(start, steps);
    hide HasFlag;
    hide Run;
    Delivers(s1, other);
    var s2 := Run(s1, Delivery(other));
    Delivers(s2, generation);
    assert s2.wire[..1][0] == s1.wire[0];
    assert Run(s2, steps).wire[..2][0] == s2.wire[0] && Run(s2, steps).wire[..2][1] == s2.wire[1];
  }

  // ---------- the sink itself ----------

  /** Each method is one critical section, or one stretch of the sender thread outside the lock. */
  class Impl {
    const maxBufferedPackets: nat
    var queue: seq<Queued>
    var stopped: bool
    var forceDiscontinuity: bool
    var activeGeneration: u32
    var stats: AudioStats
    // local to the sender thread
    var sender: Sender
    var connected: bool
    var deliveredGeneration: u32
    var deliveredSequence: u64
    ghost var accepted: seq<HostAudioPacket>
    ghost var connections: nat
    ghost var lost: nat
    ghost var wire: seq<Sent>

    ghost predicate Valid()
      reads this
    {
      Inv(Abs())
    }

    ghost function Abs(): Sink
      reads this
    {
      Sink(maxBufferedPackets, queue, stopped, forceDiscontinuity, activeGeneration, stats, sender, connected,
           deliveredGeneration, deliveredSequence, accepted, connections, lost, wire)
    }

    constructor (maxBufferedPackets: nat)
      requires maxBufferedPackets > 0
      ensures Valid() && Abs() == NewSink(maxBufferedPackets)
    {
      this.maxBufferedPackets := maxBufferedPackets;
      queue, stopped, forceDiscontinuity, activeGeneration := [], false, true, 0;
      stats := AudioStats(0, 0, 0, 0, 0, 0);
      sender, connected, deliveredGeneration, deliveredSequence := Waiting, false, 0, 0;
      accepted, connections, lost, wire := [], 0, 0, [];
      new;
      assert Inv(NewSink(maxBufferedPackets));
    }

    method EnqueuePacket(packet: HostAudioPacket) returns (ok: bool)
      requires Valid()
      modifies this
      ensures Valid() && (Abs(), ok) == EnqueueStep(old(Abs()), packet)
    {
      EnqueueKeeps(Abs(), packet);
      assert stats.acceptedPackets == |accepted| && maxBufferedPackets > 0;
      hide Inv;
      if packet.payload == [] || |packet.payload| > MAXIMUM_AUDIO_PAYLOAD {
        return false;
      }
      var sized := packet.(header := packet.header.(payloadSize := |packet.payload|));
      if stopped {
        return false;
      }
      if activeGeneration != sized.header.generation {
        StartGeneration(sized.header.generation);
      }
      if |queue| == maxBufferedPackets {
        DropFront();
      }
      PushBack(sized);
      ok := true;
    }

    method StartGeneration(generation: u32)
      requires activeGeneration != generation
      modifies this`stats, this`queue, this`activeGeneration, this`forceDiscontinuity
      ensures Abs() == ChangeGeneration(old(Abs()), generation) && stats.acceptedPackets == old(stats.acceptedPackets)
    {
      stats := stats.(droppedPackets := stats.droppedPackets + |queue|);
      queue := [];
      activeGeneration := generation;
      forceDiscontinuity := true;
    }

    method DropFront()
      requires |queue| == maxBufferedPackets > 0
      modifies this`stats, this`queue, this`forceDiscontinuity
      ensures Abs() == DropOldest(old(Abs())) && stats.acceptedPackets == old(stats.acceptedPackets)
    {
      queue := queue[1..];
      stats := stats.(droppedPackets := stats.droppedPackets + 1);
      forceDiscontinuity := true;
    }

    method PushBack(packet: HostAudioPacket)
      requires stats.acceptedPackets == |accepted|
      modifies this`stats, this`queue, this`accepted
      ensures Abs() == Append(old(Abs()), packet)
    {
      queue := queue + [Queued(packet, stats.acceptedPackets)];
      accepted := accepted + [packet];
      stats := stats.(acceptedPackets := stats.acceptedPackets + 1, bufferedPackets := |queue|);
    }

    method MarkDiscontinuity()
      requires Valid()
      modifies this`forceDiscontinuity
      ensures Valid() && Abs() == MarkStep(old(Abs()))
    {
      CallersKeep(Abs(), Mark);
      hide Inv;
      forceDiscontinuity := true;
    }

    method DiscardPending()
      requires Valid()
      modifies this
      ensures Valid() && Abs() == DiscardStep(old(Abs()))
    {
      CallersKeep(Abs(), Discard);
      hide Inv;
      stats := stats.(droppedPackets := stats.droppedPackets + |queue|);
      queue := [];
      stats := stats.(bufferedPackets := 0);
      forceDiscontinuity := true;
    }

    method StopSink()
      requires Valid()
      modifies this
      ensures Valid() && Abs() == StopStep(old(Abs()))
    {
      CallersKeep(Abs(), Stop);
      hide Inv;
      stopped := true;
      queue := [];
    }

    /** The sender takes the oldest packet and the pending discontinuity. */
    method TakeFront()
      requires Valid() && CanPop(Abs())
      modifies this
      ensures Valid() && Abs() == PopStep(old(Abs()))
    {
      PopKeeps(Abs());
      hide Inv;
      sender := Holding(queue[0], forceDiscontinuity);
      queue := queue[1..];
      forceDiscontinuity := false;
      stats := stats.(bufferedPackets := |queue|);
    }

    /** Without a connection the packet waits for none: it is refused unless one is there. */
    method AcceptConnection(outcome: Connect)
      requires Valid() && CanConnect(Abs())
      modifies this
      ensures Valid() && Abs() == ConnectStep(old(Abs()), outcome)
    {
      ConnectKeeps(Abs(), outcome);
      hide Inv;
      match outcome
      case Connected => KeepConnection();
      case AcceptFailed =>
        stats := stats.(connectionFailures := stats.connectionFailures + 1);
        GiveUp(false);
      case _ => GiveUp(false);
    }

    /** The next packet is the first on its connection. */
    method KeepConnection()
      requires sender.Holding?
      modifies this`connected, this`connections, this`sender
      ensures Abs() == old(Abs()).(connected := true, connections := old(connections) + 1,
                                   sender := Holding(old(sender).current, true))
    {
      connected, connections := true, connections + 1;
      sender := Holding(sender.current, true);
    }

    /** The packet in hand is given up. */
    method GiveUp(sendFailed: bool)
      modifies this`sender, this`lost
      ensures Abs() == old(Abs()).(sender := Refused(sendFailed), lost := old(lost) + 1)
    {
      sender, lost := Refused(sendFailed), lost + 1;
    }

    /** The packet in hand is out. */
    method RememberDelivery(header: AudioPacketHeader)
      requires sender.Holding?
      modifies this`sender, this`wire, this`deliveredGeneration, this`deliveredSequence
      ensures Abs() == old(Abs()).(
                         sender := Finishing, deliveredGeneration := header.generation, deliveredSequence := header.sequence,
                         wire := old(wire) + [Sent(header, old(sender).current.packet.payload, old(sender).current.ordinal,
                                                   connections)])
    {
      wire := wire + [Sent(header, sender.current.packet.payload, sender.current.ordinal, connections)];
      deliveredGeneration := header.generation;
      deliveredSequence := header.sequence;
      sender := Finishing;
    }

    /** Number and mark the packet. */
    method StampHeader() returns (header: AudioPacketHeader)
      requires sender.Holding?
      ensures header == Stamped(Abs())
    {
      header := sender.current.packet.header;
      var marked := sender.discontinuity;
      var streamStart := header.generation != deliveredGeneration;
      header := header.(sequence := if streamStart then 1 else (deliveredSequence + 1) % 0x1_0000_0000_0000_0000);
      if streamStart {
        header := header.(flags := header.flags | STREAM_START);
        marked := true;
      }
      if marked {
        header := header.(flags := header.flags | DISCONTINUITY);
      }
    }

    /** Serialize and write the packet. */
    method SendCurrent(ok: bool)
      requires Valid() && CanSend(Abs())
      modifies this
      ensures Valid() && Abs() == SendStep(old(Abs()), ok)
    {
      SendKeeps(Abs(), ok);
      hide Inv;
      hide IsValidHeader;
      var header := StampHeader();
      hide Stamped;
      if !IsValidHeader(header) || !ok {
        connected := false;
        GiveUp(true);
        return;
      }
      RememberDelivery(header);
    }

    /** The last critical section of a turn. */
    method RecordOutcome()
      requires Valid() && (sender.Refused? || sender.Finishing?)
      modifies this
      ensures Valid() && Abs() == RecordStep(old(Abs()))
    {
      CallersKeep(Abs(), Record);
      hide Inv;
      if sender.Refused? {
        if sender.sendFailed {
          stats := stats.(sendFailures := stats.sendFailures + 1);
        }
        forceDiscontinuity := true;
      } else {
        stats := stats.(sentPackets := stats.sentPackets + 1);
      }
      sender := Waiting;
    }
  }
}

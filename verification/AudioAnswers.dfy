/** What the audio sink drops and what it marks, exactly. */
module AudioAnswers {
  import opened Bytes
  import opened HostAudioSink

  // ---------- what is dropped ----------

  /** What stays of the queue when a packet joins it. */
  function Kept(s: Sink, packet: HostAudioPacket): seq<Queued> {
    if packet.header.generation != s.activeGeneration then []
    else if |s.queue| == s.maxBufferedPackets && s.queue != [] then s.queue[1..]
    else s.queue
  }

  /** In every run, a packet is taken exactly when its payload fits and the sink runs; then it joins
      the end of the queue, from which a new generation drops everything, and a full queue the oldest
      packet and no other; a drop is counted and marks the gap. */
  lemma {:induction false} OnlyTheOldestIsDropped(maxBufferedPackets: nat, steps: seq<Step>, packet: HostAudioPacket)
    requires maxBufferedPackets > 0
    ensures var s := Run(NewSink(maxBufferedPackets), steps);
            var (s', ok) := EnqueueStep(s, packet);
            IsEnqueued(s, packet, s', ok) && |s'.queue| <= maxBufferedPackets
  {
    RunKeeps(maxBufferedPackets, steps);
    hide Run;
    EnqueueIs(Run(NewSink(maxBufferedPackets), steps), packet);
    hide EnqueueStep;
    hide GoodWire;
    hide IsEnqueued;
    EnqueueKeeps(Run(NewSink(maxBufferedPackets), steps), packet);
    BoundIsFixed(Run(NewSink(maxBufferedPackets), steps), Enqueue(packet));
  }

  ghost predicate IsEnqueued(s: Sink, packet: HostAudioPacket, s': Sink, ok: bool) {
    && (ok <==> 1 <= |packet.payload| <= 1275 && !s.stopped)
    && (!ok ==> s' == s)
    && (ok ==>
          && var sized := packet.(header := packet.header.(payloadSize := |packet.payload|));
          && s'.queue == Kept(s, packet) + [Queued(sized, |s.accepted|)] && s'.accepted == s.accepted + [sized]
          && s'.activeGeneration == packet.header.generation
          && s'.stats.droppedPackets == s.stats.droppedPackets + |s.queue| - |Kept(s, packet)|
          && (s'.forceDiscontinuity <==>
                s.forceDiscontinuity || |Kept(s, packet)| < |s.queue| || packet.header.generation != s.activeGeneration)
          && s'.wire == s.wire && s'.sender == s.sender && s'.connections == s.connections && !s'.stopped)
  }

  lemma {:induction false} EnqueueIs(s: Sink, packet: HostAudioPacket)
    requires s.maxBufferedPackets > 0
    ensures var (s', ok) := EnqueueStep(s, packet); IsEnqueued(s, packet, s', ok)
  {
  }

  /** A stopped sink is empty and stays so: nothing is taken and nothing popped any more. */
  lemma {:induction false} StoppedSinksAreEmpty(maxBufferedPackets: nat, steps: seq<Step>, step: Step)
    ensures var s := Run(NewSink(maxBufferedPackets), steps);
            var t := Apply(s, step);
            && (s.stopped ==> s.queue == [])
            && (t.stopped <==> s.stopped || step.Stop?)
            && (s.stopped ==> t.accepted == s.accepted && !CanPop(t) && (t.sender.Holding? ==> s.sender.Holding?))
  {
    if steps != [] {
      StoppedSinksAreEmpty(maxBufferedPackets, steps[..|steps| - 1], steps[|steps| - 1]);
    }
    hide Stamped;
    hide IsValidHeader;
  }

  // ---------- what is marked ----------

  /** What callers asked for: a mark not yet on its way, one on the packet at hand, and for each packet
      sent whether it carried one. */
  datatype Wishes = Wishes(asked: bool, held: bool, sent: seq<bool>)

  /** A mark or a discard asks for a mark, and the next packet popped takes it. */
  function NextWishes(w: Wishes, s: Sink, step: Step): Wishes {
    match step
    case Mark => w.(asked := true)
    case Discard => w.(asked := true)
    case Pop => if CanPop(s) then Wishes(false, w.asked, w.sent) else w
    case Send(ok) => if |Apply(s, step).wire| > |s.wire| then w.(sent := w.sent + [w.held]) else w
    case _ => w
  }

  function WishesOf(maxBufferedPackets: nat, steps: seq<Step>): Wishes {
    if steps == [] then Wishes(false, false, [])
    else
      var n := |steps| - 1;
      NextWishes(WishesOf(maxBufferedPackets, steps[..n]), Run(NewSink(maxBufferedPackets), steps[..n]), steps[n])
  }

  predicate CallerMarked(accepted: seq<HostAudioPacket>, sent: Sent) {
    sent.ordinal < |accepted| && HasFlag(accepted[sent.ordinal].header.flags, DISCONTINUITY)
  }

  /** The mark is there exactly for a gap, a new connection, a new run, or by a caller's wish. */
  predicate IsMarkedRightly(accepted: seq<HostAudioPacket>, wire: seq<Sent>, wished: bool, k: nat)
    requires k < |wire|
  {
    HasFlag(wire[k].header.flags, DISCONTINUITY)
    <==> wished || CallerMarked(accepted, wire[k]) || !Follows(wire, k) || StartsRun(wire, k)
  }

  ghost predicate AllMarkedRightly(accepted: seq<HostAudioPacket>, wire: seq<Sent>, wished: seq<bool>) {
    |wished| == |wire| && forall k :: 0 <= k < |wire| ==> IsMarkedRightly(accepted, wire, wished[k], k)
  }

  /** A packet that would not follow the last one sent. */
  predicate WouldGap(s: Sink, ordinal: int, generation: u32) {
    || s.wire == [] || s.wire[|s.wire| - 1].ordinal + 1 != ordinal
    || s.wire[|s.wire| - 1].header.generation != generation
  }

  /** A pending mark means a wish, or that the next packet leaves a gap; and no wish is forgotten. */
  predicate MarkMeansGap(s: Sink, w: Wishes) {
    && (w.asked ==> s.forceDiscontinuity)
    && match s.sender
       case Holding(q, d) =>
         && (w.held ==> d)
         && (d ==> w.held || WouldGap(s, q.ordinal, q.packet.header.generation)
                   || s.connections != s.wire[|s.wire| - 1].connection)
         && (s.forceDiscontinuity && !s.stopped ==>
               || w.asked || q.ordinal + 1 != NextOrdinal(s)
               || (s.queue != [] && s.activeGeneration != q.packet.header.generation))
       case Refused(_) => s.wire == [] || s.wire[|s.wire| - 1].ordinal + 1 < NextOrdinal(s)
       case _ =>
         s.forceDiscontinuity && !s.stopped ==>
           || w.asked || s.wire == [] || s.wire[|s.wire| - 1].ordinal + 1 != NextOrdinal(s)
           || (s.queue != [] && s.wire[|s.wire| - 1].header.generation != s.activeGeneration)
  }

  ghost predicate MarkInv(s: Sink, w: Wishes) {
    && (s.accepted != [] ==> s.activeGeneration == s.accepted[|s.accepted| - 1].header.generation)
    && MarkMeansGap(s, w) && AllMarkedRightly(s.accepted, s.wire, w.sent)
  }

  lemma {:induction false} EnqueueKeepsMarks(s: Sink, w: Wishes, packet: HostAudioPacket)
    requires Inv(s) && MarkInv(s, w)
    ensures MarkInv(EnqueueStep(s, packet).0, w)
  {
    if EnqueueStep(s, packet).1 {
      MarksStayRight(s, w, packet.(header := packet.header.(payloadSize := |packet.payload|)));
    }
    EnqueueIs(s, packet);
    hide EnqueueStep;
    hide AllMarkedRightly;
    LastIsNewest(s, w);
    hide GoodQueue;
    hide GoodWire;
    hide SameConnection;
    hide Delivered;
    hide Accounted;
  }

  lemma {:induction false} MarksStayRight(s: Sink, w: Wishes, packet: HostAudioPacket)
    requires GoodWire(s.accepted, s.wire) && AllMarkedRightly(s.accepted, s.wire, w.sent)
    ensures AllMarkedRightly(s.accepted + [packet], s.wire, w.sent)
  {
    hide HasFlag;
    hide IsValidHeader;
    forall k | 0 <= k < |s.wire| ensures IsMarkedRightly(s.accepted + [packet], s.wire, w.sent[k], k) {
      assert IsMarkedRightly(s.accepted, s.wire, w.sent[k], k) && GoodEntry(s.accepted, s.wire, k);
    }
  }

  /** The last packet sent is of the active generation when it is the newest accepted. */
  lemma {:induction false} LastIsNewest(s: Sink, w: Wishes)
    requires Inv(s) && MarkInv(s, w)
    ensures s.wire != [] ==>
              var last := s.wire[|s.wire| - 1];
              && last.ordinal < |s.accepted|
              && (last.ordinal + 1 == |s.accepted| ==> last.header.generation == s.activeGeneration)
    ensures s.sender.Holding? && s.sender.current.ordinal + 1 == |s.accepted| ==>
              s.sender.current.packet.header.generation == s.activeGeneration
  {
    if s.wire != [] {
      assert GoodEntry(s.accepted, s.wire, |s.wire| - 1);
      assert IsAccepted(s.accepted, s.wire[|s.wire| - 1]);
    }
    hide GoodEntry;
    hide AllMarkedRightly;
  }

  lemma {:induction false} SendKeepsMarks(s: Sink, w: Wishes, ok: bool)
    requires Inv(s) && MarkInv(s, w) && CanSend(s)
    ensures MarkInv(SendStep(s, ok), NextWishes(w, s, Send(ok)))
  {
    var t, v := SendStep(s, ok), NextWishes(w, s, Send(ok));
    if |t.wire| > |s.wire| {
      forall k | 0 <= k < |t.wire| ensures IsMarkedRightly(t.accepted, t.wire, v.sent[k], k) {
        if k < |s.wire| {
          assert IsMarkedRightly(s.accepted, s.wire, w.sent[k], k);
        } else {
          SentIsMarkedRightly(s, w, ok);
        }
      }
    }
    hide Stamped;
    hide GoodWire;
    hide AllMarkedRightly;
    hide IsValidHeader;
  }

  lemma {:induction false} SentIsMarkedRightly(s: Sink, w: Wishes, ok: bool)
    requires Inv(s) && MarkMeansGap(s, w) && CanSend(s) && ok && IsValidHeader(Stamped(s))
    ensures IsMarkedRightly(s.accepted, SendStep(s, ok).wire, w.held, |s.wire|)
  {
    var h, q := Stamped(s), s.sender.current;
    var wire := SendStep(s, ok).wire;
    assert HasFlag(h.flags, DISCONTINUITY)
      <==> q.packet.header.generation != s.deliveredGeneration || s.sender.discontinuity
           || HasFlag(q.packet.header.flags, DISCONTINUITY);
    if s.wire != [] {
      assert GoodEntry(s.accepted, s.wire, |s.wire| - 1);
    }
    SendKeeps(s, ok);
    assert GoodEntry(s.accepted, wire, |s.wire|);
    hide Marked;
    hide HasFlag;
    hide GoodWire;
    hide IsValidHeader;
  }

  lemma {:induction false} CallersKeepMarks(s: Sink, w: Wishes, step: Step)
    requires Inv(s) && MarkInv(s, w) && (step.Mark? || step.Discard? || step.Stop? || step.Record?)
    ensures MarkInv(Apply(s, step), NextWishes(w, s, step))
  {
    hide GoodWire;
    hide AllMarkedRightly;
    hide EnqueueStep;
    hide SendStep;
    hide ConnectStep;
    hide PopStep;
    hide Accounted;
  }

  lemma {:induction false} SenderKeepsMarks(s: Sink, w: Wishes, step: Step)
    requires Inv(s) && MarkInv(s, w) && (step.Pop? || step.TryConnect?)
    ensures MarkInv(Apply(s, step), NextWishes(w, s, step))
  {
    hide GoodWire;
    hide AllMarkedRightly;
    hide EnqueueStep;
    hide SendStep;
    hide Accounted;
  }

  lemma {:induction false} RunKeepsMarks(maxBufferedPackets: nat, steps: seq<Step>)
    requires maxBufferedPackets > 0
    ensures MarkInv(Run(NewSink(maxBufferedPackets), steps), WishesOf(maxBufferedPackets, steps))
  {
    if steps != [] {
      var n := |steps| - 1;
      RunKeepsMarks(maxBufferedPackets, steps[..n]);
      RunKeeps(maxBufferedPackets, steps[..n]);
      var s, step := Run(NewSink(maxBufferedPackets), steps[..n]), steps[n];
      var w := WishesOf(maxBufferedPackets, steps[..n]);
      hide Inv;
      hide MarkInv;
      if step.Enqueue? {
        EnqueueKeepsMarks(s, w, step.packet);
      } else if step.Pop? || step.TryConnect? {
        SenderKeepsMarks(s, w, step);
      } else if !step.Send? {
        CallersKeepMarks(s, w, step);
      } else if CanSend(s) {
        SendKeepsMarks(s, w, step.ok);
      }
    }
  }

  /** In every run the discontinuity flag says exactly what it should: the packet does not directly
      follow the one sent before it, is the first on its connection or of its run, came with the flag,
      or was the next one popped after a caller asked for a mark or discarded the queue. */
  lemma {:induction false} MarksMeanGaps(maxBufferedPackets: nat, steps: seq<Step>, k: nat)
    requires maxBufferedPackets > 0 && k < |Run(NewSink(maxBufferedPackets), steps).wire|
    ensures var s, w := Run(NewSink(maxBufferedPackets), steps), WishesOf(maxBufferedPackets, steps);
            |w.sent| == |s.wire| && IsMarkedRightly(s.accepted, s.wire, w.sent[k], k)
  {
    RunKeepsMarks(maxBufferedPackets, steps);
    hide Run;
    hide WishesOf;
    hide IsMarkedRightly;
  }

  // ---------- what fails ----------

  predicate FailsToAccept(s: Sink, step: Step) {
    step.TryConnect? && step.outcome.AcceptFailed? && s.sender.Holding? && !s.connected
  }

  predicate FailsToSend(s: Sink, step: Step) {
    step.Send? && s.sender.Holding? && s.connected && (!step.ok || !IsValidHeader(Stamped(s)))
  }

  function Failures(maxBufferedPackets: nat, steps: seq<Step>, sends: bool): nat {
    if steps == [] then 0
    else
      var n := |steps| - 1;
      var s := Run(NewSink(maxBufferedPackets), steps[..n]);
      Failures(maxBufferedPackets, steps[..n], sends)
      + if (if sends then FailsToSend(s, steps[n]) else FailsToAccept(s, steps[n])) then 1 else 0
  }

  /** Every failed accept and every failed send is counted, the latter in the section after it. */
  lemma {:induction false} FailuresAreCounted(maxBufferedPackets: nat, steps: seq<Step>)
    ensures var s := Run(NewSink(maxBufferedPackets), steps);
            && s.stats.connectionFailures == Failures(maxBufferedPackets, steps, false)
            && s.stats.sendFailures + (if s.sender == Refused(true) then 1 else 0) == Failures(maxBufferedPackets, steps, true)
  {
    if steps != [] {
      var n := |steps| - 1;
      FailuresAreCounted(maxBufferedPackets, steps[..n]);
      StepCountsFailures(Run(NewSink(maxBufferedPackets), steps[..n]), steps[n]);
      hide Apply;
    }
  }

  lemma {:induction false} StepCountsFailures(s: Sink, step: Step)
    ensures var t := Apply(s, step);
            && t.stats.connectionFailures == s.stats.connectionFailures + (if FailsToAccept(s, step) then 1 else 0)
            && t.stats.sendFailures + (if t.sender == Refused(true) then 1 else 0)
               == s.stats.sendFailures + (if s.sender == Refused(true) then 1 else 0) + (if FailsToSend(s, step) then 1 else 0)
  {
    hide Stamped;
    hide IsValidHeader;
  }
}

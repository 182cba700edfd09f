/** Packet order of the VA-API encoder backend, across replacements of its codec.

    The codec is abstract: a queue that takes frames and gives their packets back in order, and may
    ask to be tried again or fail at any time. A packet is named by the frame it encodes. */
module VaapiEncoder {
  import opened Options

  const CODEC_OPERATION_TIMEOUT_US := 5_000_000
  const POLL_INTERVAL_US := 250
  const INT32_MAX := 0x7fff_ffff

  /** `picture` names what is shown; a repeated picture keeps its name. */
  datatype Frame = Frame(picture: nat, presentationTimeNanos: int, keyRequested: bool)

  datatype SendStatus = Taken | SendAgain | SendFailed

  /** What a codec does when a packet is asked for: give one if it has any, ask for patience, or break. */
  datatype ReadAnswer = Gives | Waits | Breaks

  /** What a codec answers the n-th time it is offered something, and the n-th time it is read. */
  datatype Script = Script(answers: nat -> SendStatus, readings: nat -> ReadAnswer)

  datatype ReceiveStatus = Ready(packet: Frame) | TryAgain | Ended | ReceiveFailed

  /** `NoCodec` stands for polling a codec that could not be replaced. */
  datatype DequeueResult = FormatChanged | Packet(packet: Frame) | EndOfStream | NothingYet | Failed | NoCodec

  /** What one offer of input comes to. */
  datatype OfferOutcome = InputTaken | InputRefused | GotPacket | GotNothing | ReadFailed

  class Clock {
    var now: int

    constructor () { }

    /** Time passes between any two readings. */
    method Now() returns (t: int)
      modifies this
      ensures t == now >= old(now)
    {
      var passed: int := *;
      if passed > 0 {
        now := now + passed;
      }
      t := now;
    }

    method Sleep(micros: nat)
      modifies this
      ensures now >= old(now) + micros
    {
      var passed: int := *;
      now := now + if passed > micros then passed else micros;
    }

    /** Sleep for a while, unless it is late already. */
    method SleepUntil(deadline: int) returns (late: bool)
      modifies this
      ensures now >= old(now)
      ensures if late then now >= deadline else now >= old(now) + POLL_INTERVAL_US && old(now) < deadline
    {
      var t := Now();
      late := t >= deadline;
      if !late {
        Sleep(POLL_INTERVAL_US);
      }
    }
  }

  /** Frames taken and not given back yet. The codec follows its script, but that it takes nothing
      once it is draining and then ends when it is empty; `stalls` bounds how often in all it will ask
      for patience when it is read before it breaks. */
  class Codec {
    const script: Script
    var asked: nat
    var read: nat
    var inside: seq<Frame>
    var draining: bool
    var stalls: nat

    constructor (script: Script)
      ensures inside == [] && !draining && asked == read == 0 && this.script == script
    {
      this.script, asked, read := script, 0, 0;
      inside, draining := [], false;
      stalls := *;
    }

    /** `None` announces the end of the input. */
    method SendFrame(frame: Option<Frame>) returns (status: SendStatus)
      modifies this`inside, this`draining, this`asked
      ensures asked == old(asked) + 1
      ensures status == if script.answers(old(asked)) == Taken && old(draining) then SendFailed else script.answers(old(asked))
      ensures status != Taken ==> inside == old(inside) && draining == old(draining)
      ensures status == Taken && frame.Some? ==> inside == old(inside) + [frame.value] && !draining
      ensures status == Taken && frame.None? ==> inside == old(inside) && draining
    {
      var answer := script.answers(asked);
      asked := asked + 1;
      if answer != Taken {
        return answer;
      }
      if draining {
        return SendFailed;
      }
      if frame.Some? {
        inside := inside + [frame.value];
      } else {
        draining := true;
      }
      status := Taken;
    }

    method ReceivePacket() returns (status: ReceiveStatus)
      modifies this`inside, this`stalls, this`read
      ensures read == old(read) + 1
      ensures status.Ready? <==> script.readings(old(read)).Gives? && old(inside) != []
      ensures status.Ready? ==> old(inside) == [status.packet] + inside && stalls == old(stalls)
      ensures !status.Ready? ==> inside == old(inside)
      ensures status.TryAgain? ==> stalls < old(stalls)
      ensures status.Ended? <==> draining && old(inside) == [] && !script.readings(old(read)).Breaks?
      ensures status.ReceiveFailed? ==> script.readings(old(read)).Breaks? || stalls == 0
    {
      var answer := script.readings(read);
      read := read + 1;
      if answer.Gives? && inside != [] {
        status := Ready(inside[0]);
        inside := inside[1..];
        return;
      }
      if answer.Breaks? {
        return ReceiveFailed;
      }
      if draining && inside == [] {
        return Ended;
      }
      if stalls > 0 {
        stalls := stalls - 1;
        return TryAgain;
      }
      status := ReceiveFailed;
    }

    /** Only an empty codec may be freed. */
    method Free()
      requires inside == []
    {
    }
  }

  predicate AsksToBeRead(script: Script, asked: nat, i: nat) { script.answers(asked + i) == SendAgain }

  predicate GivesPacketFirst(script: Script, asked: nat, read: nat, i: nat) {
    AsksToBeRead(script, asked, i) && script.readings(read + i).Gives?
  }

  /** Offered something, the codec asks to be read first `n` times, and gives a packet each time. */
  predicate StopsAfter(script: Script, asked: nat, read: nat, n: nat) {
    && (forall i :: 0 <= i < n ==> GivesPacketFirst(script, asked, read, i))
    && !AsksToBeRead(script, asked, n)
  }

  /** After `turn` offers the codec has always asked to be read; up to `stuck` it gave a packet. */
  ghost predicate Offers(script: Script, asked: nat, read: nat, size: nat, turn: nat, stuck: Option<nat>) {
    && (forall i :: 0 <= i < turn ==> AsksToBeRead(script, asked, i))
    && match stuck
       case None => forall i :: 0 <= i < turn ==> GivesPacketFirst(script, asked, read, i)
       case Some(k) => k < turn && (k >= size || !GivesPacketFirst(script, asked, read, k))
  }

  /** Where the offers end is where the script says, if it says so. */
  lemma {:induction false} OffersEnd(script: Script, asked: nat, read: nat, size: nat, turn: nat, n: nat)
    requires Offers(script, asked, read, size, turn, None) && !AsksToBeRead(script, asked, turn)
    requires n <= size && StopsAfter(script, asked, read, n)
    ensures n == turn
  {
    assert n > turn ==> GivesPacketFirst(script, asked, read, turn);
    assert n < turn ==> AsksToBeRead(script, asked, n);
  }

  lemma {:induction false} StuckForGood(script: Script, asked: nat, read: nat, size: nat, turn: nat, k: nat, n: nat)
    requires Offers(script, asked, read, size, turn, Some(k)) && n <= size
    ensures !StopsAfter(script, asked, read, n)
  {
    assert n <= k ==> AsksToBeRead(script, asked, n);
  }

  function NextStuck(stuck: Option<nat>, turn: nat, gave: bool): Option<nat> {
    if stuck.None? && !gave then Some(turn) else stuck
  }

  lemma {:induction false} OneMoreOffer(script: Script, asked: nat, read: nat, size: nat, turn: nat, stuck: Option<nat>,
                                        gave: bool)
    requires Offers(script, asked, read, size, turn, stuck) && script.answers(asked + turn) == SendAgain
    requires gave ==> script.readings(read + turn).Gives?
    requires !gave && stuck.None? ==> turn >= size || !script.readings(read + turn).Gives?
    ensures Offers(script, asked, read, size, turn + 1, NextStuck(stuck, turn, gave))
  {
  }

  /** What the codec answers after `n` packets decides; those packets were queued in order. */
  ghost predicate OfferedSo(script: Script, asked: nat, read: nat, held: seq<Frame>, before: seq<Frame>, ok: bool,
                            askedNow: nat, readNow: nat, queue: seq<Frame>)
  {
    forall n: nat :: n <= |held| && StopsAfter(script, asked, read, n) ==>
      && ok == (script.answers(asked + n) == Taken) && queue == before + held[..n]
      && askedNow == asked + n + 1 && readNow == read + n
  }

  /** Codec and queue before the first offer. */
  datatype Before = Before(script: Script, asked: nat, read: nat, held: seq<Frame>, queue: seq<Frame>)

  /** After `turn` offers that were no answer, `stuck` the first of them that got no packet: until
      then, the first packets of the codec have moved to the end of the queue. */
  ghost predicate Progress(b: Before, asked: nat, read: nat, queue: seq<Frame>, inside: seq<Frame>, turn: nat,
                           stuck: Option<nat>)
  {
    && asked == b.asked + turn && read == b.read + turn
    && Offers(b.script, b.asked, b.read, |b.held|, turn, stuck)
    && (stuck.None? ==> turn <= |b.held| && queue == b.queue + b.held[..turn] && inside == b.held[turn..])
  }

  lemma {:induction false} FirstOffer(b: Before)
    ensures Progress(b, b.asked, b.read, b.queue, b.held, 0, None)
  {
  }

  lemma {:induction false} NextOffer(b: Before, asked: nat, read: nat, queue: seq<Frame>, inside: seq<Frame>, turn: nat,
                                     stuck: Option<nat>, gave: bool)
    requires Progress(b, asked, read, queue, inside, turn, stuck) && b.script.answers(asked) == SendAgain
    requires gave <==> b.script.readings(read).Gives? && inside != []
    ensures Progress(b, asked + 1, read + 1, if gave then queue + [inside[0]] else queue, if gave then inside[1..] else inside,
                     turn + 1, NextStuck(stuck, turn, gave))
  {
    OneMoreOffer(b.script, b.asked, b.read, |b.held|, turn, stuck, gave);
    hide Offers;
  }

  lemma {:induction false} AnswerEnds(b: Before, asked: nat, read: nat, queue: seq<Frame>, inside: seq<Frame>, turn: nat,
                                      stuck: Option<nat>)
    requires Progress(b, asked, read, queue, inside, turn, stuck) && b.script.answers(asked) != SendAgain
    ensures OfferedSo(b.script, b.asked, b.read, b.held, b.queue, b.script.answers(asked) == Taken, asked + 1, read, queue)
  {
    if stuck.Some? {
      VainReadEnds(b, asked, read, queue, inside, turn, stuck, b.script.answers(asked) == Taken, asked + 1, read);
    } else {
      forall n: nat | n <= |b.held| && StopsAfter(b.script, b.asked, b.read, n) ensures n == turn {
        OffersEnd(b.script, b.asked, b.read, |b.held|, turn, n);
      }
    }
  }

  lemma {:induction false} VainReadEnds(b: Before, asked: nat, read: nat, queue: seq<Frame>, inside: seq<Frame>, turn: nat,
                                        stuck: Option<nat>, ok: bool, askedNow: nat, readNow: nat)
    requires Progress(b, asked, read, queue, inside, turn, stuck) && stuck.Some?
    ensures OfferedSo(b.script, b.asked, b.read, b.held, b.queue, ok, askedNow, readNow, queue)
  {
    forall n: nat | n <= |b.held| ensures !StopsAfter(b.script, b.asked, b.read, n) {
      StuckForGood(b.script, b.asked, b.read, |b.held|, turn, stuck.value, n);
    }
  }

  class Impl {
    const clock: Clock
    const codecs: nat -> Script // what the n-th codec does
    var created: nat
    var bitrate: int
    var codec: Codec?
    var latestPicture: Option<nat>
    var pendingPackets: seq<Frame>
    var formatChangePending: bool
    var forceKeyFrame: bool
    var drainSubmitted: bool
    var endOfStream: bool
    ghost var accepted: seq<Frame> // frames taken by some codec, in order
    ghost var dequeued: seq<Frame> // packets handed out, in order

    ghost function InsideCodec(): seq<Frame>
      reads this, codec
    {
      if codec == null then [] else codec.inside
    }

    /** Nothing is lost, repeated or reordered: packets handed out, queued and still inside the
        codec are the accepted frames. */
    ghost predicate Conserved()
      reads this, codec
    {
      dequeued + pendingPackets + InsideCodec() == accepted
    }

    ghost predicate Valid()
      reads this, codec
    {
      && Conserved()
      && (codec == null ==> drainSubmitted && !endOfStream)
      && (codec != null ==> codec.draining == drainSubmitted)
      && (endOfStream ==> codec != null && codec.draining && codec.inside == [] && pendingPackets == [])
    }

    /** While the codec gives packets, they are queued and the input is offered again. */
    twostate predicate Offered(ok: bool)
      reads this, codec
    {
      && codec == old(codec) && codec != null
      && OfferedSo(codec.script, old(codec.asked), old(codec.read), old(codec.inside), old(pendingPackets), ok,
                   codec.asked, codec.read, pendingPackets)
    }

    /** The last read got no packet, because the codec broke or the time was up. */
    twostate predicate ReadInVain()
      reads this, codec, clock
    {
      && codec != null && codec.read > 0
      && (codec.script.readings(codec.read - 1).Breaks? || codec.stalls == 0
          || (!(codec.script.readings(codec.read - 1).Gives? && codec.inside != [])
              && clock.now >= old(clock.now) + CODEC_OPERATION_TIMEOUT_US))
    }

    /** Input is refused only by the codec itself, or when it asked to be read and a read was in vain. */
    twostate predicate RefusedForCause()
      reads this, codec, clock
    {
      && codec == old(codec) && codec != null && codec.asked > old(codec.asked)
      && (codec.script.answers(codec.asked - 1) == SendFailed
          || (codec.script.answers(codec.asked - 1) == SendAgain && codec.read > old(codec.read) && ReadInVain()))
    }

    constructor (bitrate: int, codecs: nat -> Script)
      ensures Valid() && fresh(clock) && fresh(codec) && accepted == dequeued == [] && !drainSubmitted && !forceKeyFrame
      ensures codec.script == codecs(0) && codec.asked == codec.read == 0 && codec.inside == [] && pendingPackets == []
    {
      this.bitrate, this.codecs, created := bitrate, codecs, 1;
      clock := new Clock();
      codec := new Codec(codecs(0));
      latestPicture, pendingPackets := None, [];
      formatChangePending, forceKeyFrame, drainSubmitted, endOfStream := true, false, false, false;
      accepted, dequeued := [], [];
    }

    /** Offer input until the codec takes it, moving packets it gives back to the queue; each turn
        takes a packet out of the codec or brings the deadline closer. */
    method QueuePacketsUntilInputAccepted(frame: Option<Frame>) returns (ok: bool)
      requires Valid() && codec != null && !drainSubmitted && !endOfStream
      modifies this`pendingPackets, this`accepted, codec, clock
      ensures Conserved() && codec == old(codec) && codec != null
      ensures old(pendingPackets) <= pendingPackets
      ensures codec.draining == (ok && frame.None?)
      ensures accepted == if ok && frame.Some? then old(accepted) + [frame.value] else old(accepted)
      ensures Offered(ok) && (!ok ==> RefusedForCause()) && clock.now >= old(clock.now)
    {
      ghost var b := Before(codec.script, codec.asked, codec.read, codec.inside, pendingPackets);
      var outcome;
      ghost var turn, stuck, queue, inside;
      outcome, turn, stuck, queue, inside := OfferUntilDecided(frame, b);
      hide Progress;
      hide OfferedSo;
      if outcome == InputTaken || outcome == InputRefused {
        AnswerEnds(b, codec.asked - 1, codec.read, queue, inside, turn, stuck);
      } else {
        VainReadEnds(b, codec.asked, codec.read, queue, inside, turn, stuck, false, codec.asked, codec.read);
      }
      ok := outcome == InputTaken;
    }

    /** The loop; `queue` and `inside` are what they were at the last offer. */
    method OfferUntilDecided(frame: Option<Frame>, ghost b: Before)
      returns (outcome: OfferOutcome, ghost turn: nat, ghost stuck: Option<nat>, ghost queue: seq<Frame>,
               ghost inside: seq<Frame>)
      requires Conserved() && codec != null && !codec.draining
      requires b == Before(codec.script, codec.asked, codec.read, codec.inside, pendingPackets)
      modifies this`pendingPackets, this`accepted, codec, clock
      ensures Conserved() && codec == old(codec) && codec != null && clock.now >= old(clock.now)
      ensures old(pendingPackets) <= pendingPackets && codec.draining == (outcome == InputTaken && frame.None?)
      ensures accepted == if outcome == InputTaken && frame.Some? then old(accepted) + [frame.value] else old(accepted)
      ensures outcome != GotPacket && pendingPackets == queue && codec.asked > b.asked
      ensures codec.script.answers(codec.asked - 1)
              == if outcome == InputTaken then Taken else if outcome == InputRefused then SendFailed else SendAgain
      ensures Progress(b, if outcome == InputTaken || outcome == InputRefused then codec.asked - 1 else codec.asked, codec.read,
                       queue, inside, turn, stuck)
      ensures outcome == ReadFailed || outcome == GotNothing ==> stuck.Some? && codec.read > b.read && ReadInVain()
    {
      turn, stuck, queue, inside := 0, None, pendingPackets, codec.inside;
      FirstOffer(b);
      hide Progress;
      hide Conserved;
      var start := clock.Now();
      var deadline := start + CODEC_OPERATION_TIMEOUT_US;
      while true
        invariant Conserved() && codec == old(codec) && codec != null && !codec.draining
        invariant accepted == old(accepted) && b.queue <= pendingPackets && b.asked <= codec.asked && b.read <= codec.read
        invariant clock.now >= old(clock.now) && deadline >= old(clock.now) + CODEC_OPERATION_TIMEOUT_US
        invariant pendingPackets == queue && codec.inside == inside
        invariant Progress(b, codec.asked, codec.read, queue, inside, turn, stuck)
        decreases if clock.now < deadline then deadline - clock.now else 0, |codec.inside|
      {
        outcome := Offer(frame);
        if outcome == InputTaken || outcome == InputRefused {
          break;
        }
        NextOffer(b, codec.asked - 1, codec.read - 1, queue, inside, turn, stuck, outcome == GotPacket);
        stuck, turn := NextStuck(stuck, turn, outcome == GotPacket), turn + 1;
        queue, inside := pendingPackets, codec.inside;
        if outcome == GotPacket {
          continue;
        }
        if outcome == ReadFailed {
          break;
        }
        var late := clock.SleepUntil(deadline);
        if late {
          break;
        }
      }
    }

    /** Offer the input once; a codec that wants to be read first is, and its packet queued. */
    method Offer(frame: Option<Frame>) returns (outcome: OfferOutcome)
      requires Conserved() && codec != null && !codec.draining
      modifies this`pendingPackets, this`accepted, codec
      ensures Conserved() && codec == old(codec) && codec.asked == old(codec.asked) + 1
      ensures codec.draining == (outcome == InputTaken && frame.None?)
      ensures accepted == if outcome == InputTaken && frame.Some? then old(accepted) + [frame.value] else old(accepted)
      ensures match codec.script.answers(old(codec.asked))
              case Taken => outcome == InputTaken
              case SendFailed => outcome == InputRefused
              case SendAgain =>
                if codec.script.readings(old(codec.read)).Gives? && old(codec.inside) != [] then outcome == GotPacket
                else outcome == ReadFailed || outcome == GotNothing
      ensures codec.read == old(codec.read) + if outcome == InputTaken || outcome == InputRefused then 0 else 1
      ensures outcome == ReadFailed ==> codec.script.readings(old(codec.read)).Breaks? || codec.stalls == 0
      ensures if outcome == GotPacket then
                pendingPackets == old(pendingPackets) + [old(codec.inside)[0]] && codec.inside == old(codec.inside)[1..]
              else pendingPackets == old(pendingPackets) && (outcome != InputTaken ==> codec.inside == old(codec.inside))
    {
      var sendStatus := codec.SendFrame(frame);
      if sendStatus == Taken {
        if frame.Some? {
          TakeFrame(dequeued, pendingPackets, old(codec.inside), frame.value);
          accepted := accepted + [frame.value];
        }
        return InputTaken;
      }
      if sendStatus != SendAgain {
        return InputRefused;
      }
      var receiveStatus := codec.ReceivePacket();
      if receiveStatus.Ready? {
        MovePacket(dequeued, pendingPackets, receiveStatus.packet, codec.inside);
        pendingPackets := pendingPackets + [receiveStatus.packet];
        return GotPacket;
      }
      outcome := if receiveStatus.ReceiveFailed? then ReadFailed else GotNothing;
    }

    /** `prepared` is whether the picture could be brought to the codec's surface, `retained` whether
        a reference for later repeats could be made. */
    method SubmitFrame(picture: nat, presentationTimeNanos: int, prepared: bool, retained: bool) returns (ok: bool)
      requires Valid()
      modifies this, codec, clock
      ensures Valid() && codec == old(codec) && dequeued == old(dequeued)
      ensures old(pendingPackets) <= pendingPackets && drainSubmitted == old(drainSubmitted)
      ensures accepted
              == old(accepted) + if ok then [Frame(picture, presentationTimeNanos, old(forceKeyFrame))] else []
      ensures ok ==> latestPicture == Some(picture) && !forceKeyFrame
      ensures ok ==> prepared && retained
      ensures presentationTimeNanos < 0 || old(drainSubmitted) || !prepared ==> !ok && forceKeyFrame == old(forceKeyFrame)
      ensures presentationTimeNanos >= 0 && !old(drainSubmitted) && prepared ==>
                && !forceKeyFrame // even when the frame is not taken
                && (!retained ==> !ok)
                && (retained ==> Offered(ok) && (!ok ==> RefusedForCause()))
    {
      if presentationTimeNanos < 0 || drainSubmitted {
        return false;
      }
      if !prepared {
        return false;
      }
      var frame := Frame(picture, presentationTimeNanos, forceKeyFrame);
      forceKeyFrame := false;
      if !retained {
        return false;
      }
      ok := QueuePacketsUntilInputAccepted(Some(frame));
      if ok {
        latestPicture := Some(picture);
      }
    }

    /** `cloned` is whether the retained frame could be referenced once more. */
    method RepeatLastFrame(presentationTimeNanos: int, cloned: bool) returns (ok: bool)
      requires Valid()
      modifies this, codec, clock
      ensures Valid() && codec == old(codec) && dequeued == old(dequeued)
      ensures old(pendingPackets) <= pendingPackets && drainSubmitted == old(drainSubmitted)
      ensures latestPicture == old(latestPicture)
      ensures ok ==> latestPicture.Some?
                     && accepted == old(accepted) + [Frame(latestPicture.value, presentationTimeNanos, old(forceKeyFrame))]
      ensures !ok ==> accepted == old(accepted)
      ensures presentationTimeNanos < 0 || old(drainSubmitted) || latestPicture.None? || !cloned ==>
                !ok && forceKeyFrame == old(forceKeyFrame)
      ensures presentationTimeNanos >= 0 && !old(drainSubmitted) && latestPicture.Some? && cloned ==>
                && !forceKeyFrame // even when the codec refuses
                && Offered(ok) && (!ok ==> RefusedForCause())
    {
      if presentationTimeNanos < 0 || drainSubmitted || latestPicture.None? {
        return false;
      }
      if !cloned {
        return false;
      }
      var frame := Frame(latestPicture.value, presentationTimeNanos, forceKeyFrame);
      forceKeyFrame := false;
      ok := QueuePacketsUntilInputAccepted(Some(frame));
    }

    method RequestKeyFrame() returns (ok: bool)
      requires Valid()
      modifies this`forceKeyFrame
      ensures Valid() && ok == !drainSubmitted && forceKeyFrame == (ok || old(forceKeyFrame))
    {
      if drainSubmitted {
        return false;
      }
      forceKeyFrame := true;
      ok := true;
    }

    method SignalEndOfInputStream() returns (ok: bool)
      requires Valid()
      modifies this, codec, clock
      ensures Valid() && codec == old(codec) && accepted == old(accepted) && dequeued == old(dequeued)
      ensures old(pendingPackets) <= pendingPackets && drainSubmitted == (ok || old(drainSubmitted))
      ensures forceKeyFrame == old(forceKeyFrame)
      ensures !old(drainSubmitted) ==> Offered(ok) && (!ok ==> RefusedForCause())
    {
      if drainSubmitted {
        return true;
      }
      ok := QueuePacketsUntilInputAccepted(None);
      if ok {
        drainSubmitted := true;
      }
    }

    /** Ends the codec's input and moves everything it still holds to the queue. */
    method DrainCodecToQueue() returns (ok: bool)
      requires Valid() && codec != null && !drainSubmitted && !endOfStream
      modifies this, codec, clock
      ensures Valid() && codec == old(codec) && codec != null
      ensures accepted == old(accepted) && dequeued == old(dequeued) && old(pendingPackets) <= pendingPackets
      ensures ok ==> codec.inside == [] && drainSubmitted
      ensures bitrate == old(bitrate) && !endOfStream && latestPicture == old(latestPicture)
      ensures forceKeyFrame == old(forceKeyFrame)
      ensures !ok ==> if drainSubmitted then ReadInVain() else RefusedForCause()
    {
      ok := QueuePacketsUntilInputAccepted(None);
      if !ok {
        return false;
      }
      drainSubmitted := true;
      var start := clock.Now();
      var deadline := start + CODEC_OPERATION_TIMEOUT_US;
      while true
        invariant Valid() && codec == old(codec) && codec != null && drainSubmitted && !endOfStream
        invariant accepted == old(accepted) && dequeued == old(dequeued) && old(pendingPackets) <= pendingPackets
        invariant bitrate == old(bitrate) && latestPicture == old(latestPicture) && forceKeyFrame == old(forceKeyFrame)
        invariant clock.now >= old(clock.now) && deadline >= old(clock.now) + CODEC_OPERATION_TIMEOUT_US
        decreases if clock.now < deadline then deadline - clock.now else 0, |codec.inside|
      {
        var status := codec.ReceivePacket();
        if status.Ready? {
          MovePacket(dequeued, pendingPackets, status.packet, codec.inside);
          pendingPackets := pendingPackets + [status.packet];
          continue;
        }
        if status.Ended? {
          return true;
        }
        if status.ReceiveFailed? {
          return false;
        }
        var late := clock.SleepUntil(deadline);
        if late {
          return false;
        }
      }
    }

    /** `opens` is whether a codec with the new settings can be opened. */
    method CreateCodec(opens: bool) returns (ok: bool)
      requires codec == null
      modifies this`codec, this`created, this`formatChangePending, this`drainSubmitted, this`endOfStream
      ensures ok == opens
      ensures ok ==> codec != null && fresh(codec) && codec.inside == [] && !codec.draining
                     && formatChangePending && !drainSubmitted && !endOfStream
      ensures !ok ==> codec == null && formatChangePending == old(formatChangePending)
                      && drainSubmitted == old(drainSubmitted) && endOfStream == old(endOfStream)
    {
      if !opens {
        return false;
      }
      codec := new Codec(codecs(created));
      created := created + 1;
      formatChangePending, drainSubmitted, endOfStream := true, false, false;
      ok := true;
    }

    /** A new bitrate needs a new codec: the old one is drained and, once empty, freed. No packet
        is lost or overtaken, and the next frame is asked to be a key frame. */
    method SetBitrate(bitrateBps: int, opens: bool) returns (ok: bool)
      requires Valid()
      modifies this, codec, clock
      ensures Valid() && accepted == old(accepted) && dequeued == old(dequeued)
      ensures old(pendingPackets) <= pendingPackets
      ensures ok ==> bitrate == bitrateBps && !drainSubmitted
      ensures ok && codec != old(codec) ==>
                && opens && fresh(codec) && codec.inside == [] && forceKeyFrame && formatChangePending
                && pendingPackets == old(pendingPackets) + old(InsideCodec())
      ensures codec == null && old(codec) != null ==> !ok && pendingPackets == old(pendingPackets) + old(InsideCodec())
      ensures !(0 < bitrateBps <= INT32_MAX) || old(drainSubmitted) ==> !ok && codec == old(codec) && bitrate == old(bitrate)
      ensures old(drainSubmitted) ==> drainSubmitted
      ensures !ok || codec == old(codec) ==> forceKeyFrame == old(forceKeyFrame)
      ensures ok ==> (codec == old(codec) <==> bitrateBps == old(bitrate))
      ensures 0 < bitrateBps <= INT32_MAX && !old(drainSubmitted) && !ok ==>
                && bitrateBps != old(bitrate)
                && if codec == null then !opens else if drainSubmitted then ReadInVain() else RefusedForCause()
      ensures codec == old(codec) || codec == null || fresh(codec)
    {
      if bitrateBps <= 0 || bitrateBps > INT32_MAX || drainSubmitted {
        return false;
      }
      if bitrateBps == bitrate {
        return true;
      }
      ok := DrainCodecToQueue();
      if !ok {
        return false;
      }
      SameTail(dequeued, pendingPackets, old(pendingPackets), old(InsideCodec()));
      codec.Free();
      codec := null;
      bitrate := bitrateBps;
      ok := CreateCodec(opens);
      if !ok {
        return false;
      }
      forceKeyFrame := true;
    }

    /** The oldest packet not handed out yet, or why there is none: an end of stream means that
        every accepted frame was handed out. */
    method DequeueOutput(timeoutUs: int) returns (result: DequeueResult)
      requires Valid()
      modifies this, codec, clock
      ensures Valid() && codec == old(codec) && accepted == old(accepted)
      ensures result.NoCodec? <==> codec == null && !old(formatChangePending) && old(pendingPackets) == []
      ensures result.FormatChanged? <==> old(formatChangePending)
      ensures result.Packet? ==>
                && dequeued == old(dequeued) + [result.packet] && |dequeued| <= |accepted|
                && result.packet == accepted[|old(dequeued)|]
      ensures !result.Packet? ==> dequeued == old(dequeued)
      ensures result.EndOfStream? ==> drainSubmitted && dequeued == accepted
      ensures !formatChangePending && drainSubmitted == old(drainSubmitted) && forceKeyFrame == old(forceKeyFrame)
      ensures !old(formatChangePending) && old(pendingPackets) != [] ==>
                result == Packet(old(pendingPackets)[0]) && pendingPackets == old(pendingPackets)[1..]
      ensures !old(formatChangePending) && old(pendingPackets) == [] && codec != null ==>
                if old(endOfStream) then result == EndOfStream else Polled(timeoutUs, result)
    {
      if formatChangePending {
        formatChangePending := false;
        return FormatChanged;
      }
      if pendingPackets != [] {
        result := Packet(pendingPackets[0]);
        pendingPackets := pendingPackets[1..];
        dequeued := dequeued + [result.packet];
        return;
      }
      if endOfStream {
        return EndOfStream;
      }
      if codec == null {
        return NoCodec;
      }
      result := PollCodec(timeoutUs);
    }

    /** The codec is read at least once: a packet it gives is handed out at once, its end is reported,
        a failure is the codec's, and nothing comes only when the time is up. */
    twostate predicate Polled(timeoutUs: int, result: DequeueResult)
      reads this, codec, clock
    {
      && codec == old(codec) && codec != null && codec.read > old(codec.read)
      && (codec.script.readings(old(codec.read)).Gives? && old(codec.inside) != [] ==> result == Packet(old(codec.inside)[0]))
      && (old(codec.draining) && old(codec.inside) == [] && !codec.script.readings(old(codec.read)).Breaks? ==>
            result == EndOfStream)
      && (result.Failed? ==> codec.script.readings(codec.read - 1).Breaks? || codec.stalls == 0)
      && (result.NothingYet? ==>
            && timeoutUs >= 0 && clock.now >= old(clock.now) + timeoutUs
            && !(codec.script.readings(codec.read - 1).Gives? && codec.inside != []))
    }

    method PollCodec(timeoutUs: int) returns (result: DequeueResult)
      requires Valid() && codec != null && pendingPackets == [] && !endOfStream
      modifies this`dequeued, this`endOfStream, codec, clock
      ensures Valid() && codec == old(codec) && pendingPackets == []
      ensures !result.FormatChanged? && !result.NoCodec? && Polled(timeoutUs, result)
      ensures result.Packet? ==>
                && dequeued == old(dequeued) + [result.packet] && |dequeued| <= |accepted|
                && result.packet == accepted[|old(dequeued)|]
      ensures !result.Packet? ==> dequeued == old(dequeued)
      ensures result.EndOfStream? ==> drainSubmitted && dequeued == accepted
    {
      var waitForever := timeoutUs < 0;
      var start := clock.Now();
      var deadline := start + if timeoutUs > 0 then timeoutUs else 0;
      while true
        invariant Valid() && codec == old(codec) && codec != null && !endOfStream && dequeued == old(dequeued)
        invariant codec.read >= old(codec.read) && codec.inside == old(codec.inside) && codec.draining == old(codec.draining)
        invariant codec.read > old(codec.read) ==>
                    && !(codec.script.readings(old(codec.read)).Gives? && codec.inside != [])
                    && !(codec.draining && codec.inside == [] && !codec.script.readings(old(codec.read)).Breaks?)
        invariant clock.now >= old(clock.now) && deadline >= old(clock.now) + if timeoutUs > 0 then timeoutUs else 0
        decreases codec.stalls
      {
        var status := codec.ReceivePacket();
        if status.Ready? {
          dequeued := dequeued + [status.packet];
          return Packet(status.packet);
        }
        if status.Ended? {
          endOfStream := true;
          return EndOfStream;
        }
        if status.ReceiveFailed? {
          return Failed;
        }
        var now := clock.Now();
        if (!waitForever && now >= deadline) || timeoutUs == 0 {
          return NothingYet;
        }
        clock.Sleep(POLL_INTERVAL_US);
      }
    }
  }

  datatype Operation =
    | Submit(picture: nat, presentationTimeNanos: int, prepared: bool, retained: bool)
    | Repeat(presentationTimeNanos: int, cloned: bool)
    | AskForKeyFrame
    | EndInput
    | ChangeBitrate(bitrateBps: int, opens: bool)
    | Dequeue(timeoutUs: int)

  /** What an operation comes to. A key frame request is `Raised` by a caller's request that is not
      refused or by a new codec; `Refused` is a frame that came as far as clearing the request
      and was not taken. */
  datatype Outcome = Raised | Took(frame: Frame) | Refused | Dequeued(result: DequeueResult) | Nothing

  /** The packets handed out in a run. */
  function Packets(outcomes: seq<Outcome>): seq<Frame> {
    if outcomes == [] then []
    else
      var last := outcomes[|outcomes| - 1];
      Packets(outcomes[..|outcomes| - 1]) + if last.Dequeued? && last.result.Packet? then [last.result.packet] else []
  }

  /** The frames the codecs took in a run. */
  function FramesTaken(outcomes: seq<Outcome>): seq<Frame> {
    if outcomes == [] then []
    else
      var last := outcomes[|outcomes| - 1];
      FramesTaken(outcomes[..|outcomes| - 1]) + if last.Took? then [last.frame] else []
  }

  /** How an outcome may look. */
  predicate Fits(operation: Operation, outcome: Outcome) {
    match operation
    case Submit(picture, pts, prepared, retained) =>
      || outcome.Nothing? || (outcome.Refused? && pts >= 0 && prepared)
      || (outcome.Took? && prepared && retained && outcome.frame.picture == picture && outcome.frame.presentationTimeNanos == pts)
    case Repeat(pts, cloned) =>
      || outcome.Nothing? || (outcome.Refused? && pts >= 0 && cloned)
      || (outcome.Took? && cloned && outcome.frame.presentationTimeNanos == pts)
    case AskForKeyFrame => outcome.Raised? || outcome.Nothing?
    case EndInput => outcome.Nothing?
    case ChangeBitrate(bitrateBps, opens) => outcome.Nothing? || (outcome.Raised? && 0 < bitrateBps <= INT32_MAX && opens)
    case Dequeue(_) => outcome.Dequeued?
  }

  /** Whether a key frame is asked for, one operation later. */
  function StillAsked(asked: bool, outcome: Outcome): bool {
    outcome.Raised? || (asked && !outcome.Took? && !outcome.Refused?)
  }

  method Perform(backend: Impl, operation: Operation) returns (outcome: Outcome)
    requires backend.Valid()
    modifies backend, backend.codec, backend.clock
    ensures backend.Valid() && Fits(operation, outcome)
    ensures backend.codec == old(backend.codec) || backend.codec == null || fresh(backend.codec)
    ensures backend.dequeued
            == old(backend.dequeued) + if outcome.Dequeued? && outcome.result.Packet? then [outcome.result.packet] else []
    ensures backend.accepted == old(backend.accepted) + if outcome.Took? then [outcome.frame] else []
    ensures outcome.Took? ==> outcome.frame.keyRequested == old(backend.forceKeyFrame)
    ensures backend.forceKeyFrame == StillAsked(old(backend.forceKeyFrame), outcome)
    ensures operation.Submit? ==>
              (outcome.Nothing? <==>
                 operation.presentationTimeNanos < 0 || old(backend.drainSubmitted) || !operation.prepared)
    ensures operation.Repeat? ==>
              (outcome.Nothing? <==> operation.presentationTimeNanos < 0 || old(backend.drainSubmitted)
                                     || old(backend.latestPicture).None? || !operation.cloned)
    ensures operation.AskForKeyFrame? ==> outcome.Raised? == !backend.drainSubmitted
    ensures old(backend.drainSubmitted) ==> backend.drainSubmitted && !outcome.Took?
    ensures outcome == Dequeued(EndOfStream) ==> backend.drainSubmitted && backend.dequeued == backend.accepted
  {
    var keyRequested := backend.forceKeyFrame;
    var ok;
    match operation
    case Submit(picture, pts, prepared, retained) =>
      var checked := pts >= 0 && !backend.drainSubmitted && prepared;
      ok := backend.SubmitFrame(picture, pts, prepared, retained);
      outcome := if ok then Took(Frame(picture, pts, keyRequested)) else if checked then Refused else Nothing;
    case Repeat(pts, cloned) =>
      var checked := pts >= 0 && !backend.drainSubmitted && backend.latestPicture.Some? && cloned;
      ok := backend.RepeatLastFrame(pts, cloned);
      outcome := if ok then Took(Frame(backend.latestPicture.value, pts, keyRequested)) else if checked then Refused else Nothing;
    case AskForKeyFrame =>
      ok := backend.RequestKeyFrame();
      outcome := if ok then Raised else Nothing;
    case EndInput =>
      ok := backend.SignalEndOfInputStream();
      outcome := Nothing;
    case ChangeBitrate(bitrateBps, opens) =>
      var codec := backend.codec;
      ok := backend.SetBitrate(bitrateBps, opens);
      outcome := if ok && backend.codec != codec then Raised else Nothing;
    case Dequeue(timeoutUs) =>
      var result := backend.DequeueOutput(timeoutUs);
      outcome := Dequeued(result);
  }

  /** Before the `j`-th outcome a key frame is asked for and no frame was offered to the codec since. */
  predicate IsAsked(outcomes: seq<Outcome>, j: nat)
    requires j <= |outcomes|
  {
    exists k :: 0 <= k < j && outcomes[k].Raised? && forall m :: k < m < j ==> !outcomes[m].Took? && !outcomes[m].Refused?
  }

  /** A frame carries the request exactly when it is asked for. */
  predicate MarksWhatIsAsked(outcomes: seq<Outcome>) {
    forall j :: 0 <= j < |outcomes| && outcomes[j].Took? ==> (outcomes[j].frame.keyRequested <==> IsAsked(outcomes, j))
  }

  /** Any run of a new backend: the packets handed out are the accepted frames in the order of their
      submission, whatever codecs they went through, and after an end of stream all of them; and a
      frame is marked as a key frame exactly when one was asked for since the last frame offered. */
  method Drive(backend: Impl, operations: seq<Operation>) returns (outcomes: seq<Outcome>)
    requires backend.Valid() && backend.accepted == backend.dequeued == [] && !backend.forceKeyFrame
    modifies backend, backend.codec, backend.clock
    ensures backend.Valid() && |outcomes| == |operations|
    ensures forall k :: 0 <= k < |outcomes| ==> Fits(operations[k], outcomes[k])
    ensures Packets(outcomes) == backend.dequeued <= backend.accepted == FramesTaken(outcomes)
    ensures Dequeued(EndOfStream) in outcomes ==> Packets(outcomes) == FramesTaken(outcomes)
    ensures MarksWhatIsAsked(outcomes) && backend.forceKeyFrame == IsAsked(outcomes, |outcomes|)
  {
    hide Packets;
    hide FramesTaken;
    hide MarksWhatIsAsked;
    hide IsAsked;
    hide Fits;
    outcomes := [];
    Nowhere();
    for k := 0 to |operations|
      invariant backend.Valid() && (backend.codec == old(backend.codec) || backend.codec == null || fresh(backend.codec))
      invariant |outcomes| == k && forall i :: 0 <= i < k ==> Fits(operations[i], outcomes[i])
      invariant Packets(outcomes) == backend.dequeued && FramesTaken(outcomes) == backend.accepted
      invariant Dequeued(EndOfStream) in outcomes ==> backend.drainSubmitted && backend.dequeued == backend.accepted
      invariant MarksWhatIsAsked(outcomes) && backend.forceKeyFrame == IsAsked(outcomes, |outcomes|)
    {
      ghost var before := outcomes;
      var outcome := Perform(backend, operations[k]);
      outcomes := outcomes + [outcome];
      OneMore(before, outcome);
      if Dequeued(EndOfStream) in before {
        NothingMore(backend.dequeued, backend.pendingPackets, backend.InsideCodec(), backend.accepted);
      }
    }
  }

  lemma {:induction false} Nowhere()
    ensures Packets([]) == FramesTaken([]) == [] && MarksWhatIsAsked([]) && !IsAsked([], 0)
  {
  }

  lemma {:induction false} OneMore(outcomes: seq<Outcome>, outcome: Outcome)
    ensures var more := outcomes + [outcome];
            && Packets(more)
               == Packets(outcomes) + (if outcome.Dequeued? && outcome.result.Packet? then [outcome.result.packet] else [])
            && FramesTaken(more) == FramesTaken(outcomes) + (if outcome.Took? then [outcome.frame] else [])
            && IsAsked(more, |more|) == StillAsked(IsAsked(outcomes, |outcomes|), outcome)
            && (MarksWhatIsAsked(outcomes) && (outcome.Took? ==> outcome.frame.keyRequested == IsAsked(outcomes, |outcomes|))
                ==> MarksWhatIsAsked(more))
  {
    assert (outcomes + [outcome])[..|outcomes|] == outcomes;
    NextAsked(outcomes, outcome);
    hide IsAsked;
  }

  lemma {:induction false} NextAsked(outcomes: seq<Outcome>, outcome: Outcome)
    ensures var more := outcomes + [outcome];
            && (forall j :: 0 <= j <= |outcomes| ==> IsAsked(more, j) == IsAsked(outcomes, j))
            && IsAsked(more, |more|) == StillAsked(IsAsked(outcomes, |outcomes|), outcome)
  {
    var more, n := outcomes + [outcome], |outcomes|;
    forall j | 0 <= j <= n ensures IsAsked(more, j) == IsAsked(outcomes, j) {
      assert forall m :: 0 <= m < j ==> more[m] == outcomes[m];
      if IsAsked(outcomes, j) {
        var k :| 0 <= k < j && outcomes[k].Raised? && forall m :: k < m < j ==> !outcomes[m].Took? && !outcomes[m].Refused?;
        assert more[k].Raised?;
      }
      if IsAsked(more, j) {
        var k :| 0 <= k < j && more[k].Raised? && forall m :: k < m < j ==> !more[m].Took? && !more[m].Refused?;
        assert outcomes[k].Raised?;
      }
    }
    if StillAsked(IsAsked(outcomes, n), outcome) {
      if outcome.Raised? {
        assert more[n].Raised?;
      } else {
        assert IsAsked(more, n);
        var k :| 0 <= k < n && more[k].Raised? && forall m :: k < m < n ==> !more[m].Took? && !more[m].Refused?;
        assert more[k].Raised?;
      }
    }
    if IsAsked(more, n + 1) && !outcome.Raised? {
      var k :| 0 <= k < n + 1 && more[k].Raised? && forall m :: k < m < n + 1 ==> !more[m].Took? && !more[m].Refused?;
      assert more[n] == outcome && k < n;
      assert IsAsked(more, n);
    }
  }

  /** When a request survives. It was raised at `i`; no frame was accepted since, up to `j`, where one
      is accepted or the run ends. Then the frame carries a request, or one is still pending, exactly
      when no frame was refused since, or a request was raised after the last refusal. */
  lemma {:induction false} RequestSurvives(outcomes: seq<Outcome>, i: nat, j: nat)
    requires i < j <= |outcomes| && outcomes[i].Raised? && (forall m :: i < m < j ==> !outcomes[m].Took?)
    requires MarksWhatIsAsked(outcomes) && (j < |outcomes| ==> outcomes[j].Took?)
    ensures (if j < |outcomes| then outcomes[j].frame.keyRequested else IsAsked(outcomes, j))
            <==> forall m :: i < m < j && outcomes[m].Refused? ==> exists k :: m < k < j && outcomes[k].Raised?
  {
    if IsAsked(outcomes, j) {
      var k :| 0 <= k < j && outcomes[k].Raised? && forall m :: k < m < j ==> !outcomes[m].Took? && !outcomes[m].Refused?;
      assert forall m :: i < m < j && outcomes[m].Refused? ==> m < k;
    }
    if forall m :: i < m < j && outcomes[m].Refused? ==> exists k :: m < k < j && outcomes[k].Raised? {
      LastRaise(outcomes, i, j);
    }
  }

  lemma {:induction false} LastRaise(outcomes: seq<Outcome>, i: nat, j: nat)
    requires i < j <= |outcomes| && outcomes[i].Raised? && (forall m :: i < m < j ==> !outcomes[m].Took?)
    requires forall m :: i < m < j && outcomes[m].Refused? ==> exists k :: m < k < j && outcomes[k].Raised?
    ensures IsAsked(outcomes, j)
    decreases j - i
  {
    if m :| i < m < j && outcomes[m].Refused? {
      var k :| m < k < j && outcomes[k].Raised?;
      LastRaise(outcomes, k, j);
    } else {
      assert forall m :: i < m < j ==> !outcomes[m].Took? && !outcomes[m].Refused?;
    }
  }

  /** A request and its loss: the codec refuses the first frame, and the next one is not marked. */
  method LoseRequestBySubmission() returns (backend: Impl, asked: bool, first: bool, second: bool)
    ensures asked && !first && second && !backend.forceKeyFrame
    ensures backend.accepted == [Frame(2, 20, false)]
  {
    backend := new Impl(1_000_000, n => Script(k => if k == 0 then SendFailed else Taken, k => Waits));
    asked := backend.RequestKeyFrame();
    assert StopsAfter(backend.codec.script, 0, 0, 0) && StopsAfter(backend.codec.script, 1, 0, 0);
    first := backend.SubmitFrame(1, 10, true, true);
    second := backend.SubmitFrame(2, 20, true, true);
  }

  /** The same with a repeat that is refused. */
  method LoseRequestByRepeat() returns (backend: Impl, asked: bool, first: bool, second: bool)
    ensures asked && !first && second && !backend.forceKeyFrame
    ensures backend.accepted == [Frame(1, 10, false), Frame(1, 30, false)]
  {
    backend := new Impl(1_000_000, n => Script(k => if k == 1 then SendFailed else Taken, k => Waits));
    assert StopsAfter(backend.codec.script, 0, 0, 0) && StopsAfter(backend.codec.script, 1, 0, 0);
    assert StopsAfter(backend.codec.script, 2, 0, 0);
    var submitted := backend.SubmitFrame(1, 10, true, true);
    asked := backend.RequestKeyFrame();
    first := backend.RepeatLastFrame(20, true);
    second := backend.RepeatLastFrame(30, true);
  }

  /** Once everything was handed out, there is nothing more to hand out. */
  lemma {:induction false} NothingMore(handedOut: seq<Frame>, queue: seq<Frame>, inside: seq<Frame>, accepted: seq<Frame>)
    requires handedOut + queue + inside == accepted
    ensures |handedOut| <= |accepted| && (|handedOut| == |accepted| ==> handedOut == accepted)
  {
  }

  lemma {:induction false} SameTail(handedOut: seq<Frame>, queue: seq<Frame>, before: seq<Frame>, inside: seq<Frame>)
    requires handedOut + queue + [] == handedOut + before + inside
    ensures queue == before + inside
  {
    assert (handedOut + queue + [])[|handedOut|..] == queue;
    assert (handedOut + before + inside)[|handedOut|..] == before + inside;
  }

  /** A packet moves from the codec to the queue. */
  lemma {:induction false} MovePacket(handedOut: seq<Frame>, queue: seq<Frame>, packet: Frame, inside: seq<Frame>)
    ensures handedOut + queue + ([packet] + inside) == handedOut + (queue + [packet]) + inside
  {
  }

  lemma {:induction false} TakeFrame(handedOut: seq<Frame>, queue: seq<Frame>, inside: seq<Frame>, frame: Frame)
    ensures handedOut + queue + (inside + [frame]) == handedOut + queue + inside + [frame]
  {
  }
}

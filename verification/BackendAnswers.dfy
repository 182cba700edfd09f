/** What the video backend answers and does, request by request, in terms a caller can check. */
module BackendAnswers {
  import opened Bytes
  import opened Options
  import opened VideoPacketProtocol
  import FramePacing
  import opened VideoBackend

  // ---------- configuration ----------

  /** Every field of the configuration: the update's value where its bit is set, else as before. */
  ghost predicate IsStored(c: SessionConfig, u: ConfigUpdate, stored: SessionConfig) {
    && stored.encoder.bitrateBps == (if u.fields & 1 != 0 then u.bitrateBps else c.encoder.bitrateBps)
    && stored.encoder.frameRate == (if u.fields & 2 != 0 then u.frameRate else c.encoder.frameRate)
    && stored.encoder.width == (if u.fields & 4 != 0 then u.codedWidth else c.encoder.width)
    && stored.encoder.height == (if u.fields & 4 != 0 then u.codedHeight else c.encoder.height)
    && stored.geometry.codedWidth == (if u.fields & 4 != 0 then u.codedWidth else c.geometry.codedWidth)
    && stored.geometry.codedHeight == (if u.fields & 4 != 0 then u.codedHeight else c.geometry.codedHeight)
    && stored.encoder.iFrameIntervalSeconds
       == (if u.fields & 8 != 0 then u.iFrameIntervalSeconds else c.encoder.iFrameIntervalSeconds)
    && stored.encoder.backend == (if u.fields & 16 != 0 then u.backend else c.encoder.backend)
    && stored.geometry == c.geometry.(codedWidth := stored.geometry.codedWidth, codedHeight := stored.geometry.codedHeight)
  }

  predicate IsForStream(id: Identity, u: ConfigUpdate) { u.displayId == id.displayId && u.streamId == id.streamId }

  predicate IsWithinLimits(u: ConfigUpdate) {
    && u.fields != 0 && u.fields & !63 == 0
    && (u.fields & 1 != 0 ==> 100_000 <= u.bitrateBps <= 100_000_000)
    && (u.fields & 2 != 0 ==> 1 <= u.frameRate <= 60)
    && (u.fields & 4 != 0 ==> 320 <= u.codedWidth <= 7680 && 320 <= u.codedHeight <= 4320)
    && (u.fields & 8 != 0 ==> 1 <= u.iFrameIntervalSeconds <= 60)
  }

  predicate IsSupported(u: ConfigUpdate) { (u.fields & 32 != 0 ==> u.codecId == 1) && (u.fields & 16 != 0 ==> u.backend <= 3) }

  predicate FitsDisplay(c: SessionConfig, u: ConfigUpdate) {
    u.fields & 4 != 0 ==> HasMatchingDisplayAspect(c.geometry.(codedWidth := u.codedWidth, codedHeight := u.codedHeight))
  }

  predicate IsAcceptable(id: Identity, c: SessionConfig, u: ConfigUpdate) {
    IsForStream(id, u) && IsWithinLimits(u) && IsSupported(u) && FitsDisplay(c, u)
  }

  /** The update asks for something else than is desired now, apart from the bitrate. */
  predicate NeedsNewSession(c: SessionConfig, u: ConfigUpdate) {
    || (u.fields & 2 != 0 && u.frameRate != c.encoder.frameRate)
    || (u.fields & 4 != 0 && (u.codedWidth != c.geometry.codedWidth || u.codedHeight != c.geometry.codedHeight))
    || (u.fields & 8 != 0 && u.iFrameIntervalSeconds != c.encoder.iFrameIntervalSeconds)
    || (u.fields & 16 != 0 && u.backend != c.encoder.backend)
  }

  predicate ChangesBitrate(c: SessionConfig, u: ConfigUpdate) { u.fields & 1 != 0 && u.bitrateBps != c.encoder.bitrateBps }

  /** When an update is refused and why, when it is pending, applied or failed; `None` is a failure. */
  ghost predicate IsAnswered(id: Identity, s: State, u: ConfigUpdate, taken: bool, result: Option<ConfigResult>) {
    var c, acceptable := s.desired, IsAcceptable(id, s.desired, u);
    && (result == Some(NoActiveStream) <==> !IsForStream(id, u))
    && (result == Some(InvalidConfig) <==>
          IsForStream(id, u) && (!IsWithinLimits(u) || (IsSupported(u) && !FitsDisplay(c, u))))
    && (result == Some(UnsupportedConfig) <==> IsForStream(id, u) && IsWithinLimits(u) && !IsSupported(u))
    && (result == Some(Pending) <==> acceptable && (NeedsNewSession(c, u) || !IsAccepting(s)))
    && (result == Some(Applied) <==>
          acceptable && !NeedsNewSession(c, u) && IsAccepting(s) && (taken || !ChangesBitrate(c, u)))
    && (result == None <==>
          acceptable && !NeedsNewSession(c, u) && IsAccepting(s) && !taken && ChangesBitrate(c, u))
  }

  predicate IsTaken(result: Option<ConfigResult>) { result == Some(Pending) || result == Some(Applied) }

  /** The whole of what an update does. An update that is taken is stored, and marks a live session
      for a reset exactly when it needs a new one; a bitrate that is applied is the running one. */
  lemma {:induction false} UpdatesAreAnswered(id: Identity, s: State, u: ConfigUpdate, taken: bool)
    requires IsValidConfig(s.desired)
    ensures var (s', result) := ApplyConfig(id, s, u, taken);
            && IsAnswered(id, s, u, taken, result)
            && (if IsTaken(result) then IsStored(s.desired, u, s'.desired) else s'.desired == s.desired)
            && (s'.resetRequired <==>
                  || s.resetRequired || result.None?
                  || (s.session.Some? && IsTaken(result) && NeedsNewSession(s.desired, u)))
            && (result == Some(Applied) && ChangesBitrate(s.desired, u) ==>
                  s'.session.Some? && s'.session.value.config.encoder.bitrateBps == u.bitrateBps)
  {
    SelectionIs(u);
    RefusalIs(id, s.desired, u);
    hide HasMatchingDisplayAspect;
    hide Refusal;
    hide Selects;
    hide IsForStream;
    hide IsWithinLimits;
    hide IsSupported;
    hide FitsDisplay;
  }

  lemma {:induction false} SelectionIs(u: ConfigUpdate)
    ensures Selects(u, FIELD_BITRATE) == (u.fields & 1 != 0) && Selects(u, FIELD_FRAME_RATE) == (u.fields & 2 != 0)
    ensures Selects(u, FIELD_RESOLUTION) == (u.fields & 4 != 0) && Selects(u, FIELD_I_FRAME_INTERVAL) == (u.fields & 8 != 0)
    ensures Selects(u, FIELD_BACKEND) == (u.fields & 16 != 0) && Selects(u, FIELD_CODEC) == (u.fields & 32 != 0)
  {
  }

  lemma {:induction false} RefusalIs(id: Identity, c: SessionConfig, u: ConfigUpdate)
    ensures Refusal(id, c, u)
            == if !IsForStream(id, u) then Some(NoActiveStream)
               else if !IsWithinLimits(u) then Some(InvalidConfig)
               else if !IsSupported(u) then Some(UnsupportedConfig)
               else if !FitsDisplay(c, u) then Some(InvalidConfig)
               else None
    ensures Refusal(id, c, u).None? && u.fields & 2 != 0 ==> u.frameRate <= 60
  {
    SelectionIs(u);
    hide Selects;
    hide HasMatchingDisplayAspect;
  }

  /** The step stores a new configuration. */
  predicate Stores(id: Identity, s: State, step: Step) {
    step.StepConfigure? && IsTaken(ApplyConfig(id, s, step.update, step.bitrateTaken).1)
  }

  /** Nothing else changes what is desired. */
  lemma {:induction false} DesiredStays(id: Identity, s: State, step: Step)
    requires IsValidConfig(s.desired) && !Stores(id, s, step)
    ensures Apply(id, s, step).desired == s.desired
  {
    if step.StepConfigure? {
      UpdatesAreAnswered(id, s, step.update, step.bitrateTaken);
    }
    hide ApplyConfig;
    hide CanOpen;
    hide FramePacing.Pace;
  }

  /** In every run, the last update that was taken, at step `k`, decides: its values are desired, and
      a session that accepts frames runs with them, in a new session if one was needed; what it did
      not select is as it was before. */
  lemma {:induction false} SessionsRunAsUpdated(id: Identity, desired: SessionConfig, now: int, steps: seq<Step>, k: nat)
    requires IsValidConfig(desired) && k < |steps|
    requires Stores(id, Run(id, NewBackend(desired, now), steps[..k]), steps[k])
    requires forall j :: k < j < |steps| ==> !Stores(id, Run(id, NewBackend(desired, now), steps[..j]), steps[j])
    ensures var before, s := Run(id, NewBackend(desired, now), steps[..k]), Run(id, NewBackend(desired, now), steps);
            && IsStored(before.desired, steps[k].update, s.desired)
            && (IsAccepting(s) ==>
                  var running := s.session.value.config;
                  && running.geometry == s.desired.geometry
                  && running.encoder == s.desired.encoder.(backend := running.encoder.backend))
            && (IsAccepting(s) && NeedsNewSession(before.desired, steps[k].update) ==> s.sessions > before.sessions)
  {
    var start := NewBackend(desired, now);
    var before, s := Run(id, start, steps[..k]), Run(id, start, steps);
    RunKeeps(id, desired, now, steps);
    RunKeeps(id, desired, now, steps[..k]);
    assert RunsAsDesired(s) && (before.session.None? ==> !before.resetRequired) && IsValidConfig(before.desired);
    hide Inv;
    UpdatesAreAnswered(id, before, steps[k].update, steps[k].bitrateTaken);
    UpdateLasts(id, desired, now, steps, k);
    hide IsStored;
    hide Run;
    hide ApplyConfig;
  }

  /** The session of that update, or a later one. */
  ghost predicate Lasts(stored: State, s: State) {
    && s.desired == stored.desired && s.sessions >= stored.sessions
    && (s.sessions == stored.sessions && (stored.resetRequired || stored.session.None?) ==> s.resetRequired || s.session.None?)
  }

  lemma {:induction false} UpdateLasts(id: Identity, desired: SessionConfig, now: int, steps: seq<Step>, k: nat)
    requires IsValidConfig(desired) && k < |steps| && Stores(id, Run(id, NewBackend(desired, now), steps[..k]), steps[k])
    requires forall j :: k < j < |steps| ==> !Stores(id, Run(id, NewBackend(desired, now), steps[..j]), steps[j])
    ensures Lasts(Apply(id, Run(id, NewBackend(desired, now), steps[..k]), steps[k]), Run(id, NewBackend(desired, now), steps))
  {
    hide Apply;
    hide Stores;
    var n, start := |steps| - 1, NewBackend(desired, now);
    assert Run(id, start, steps) == Apply(id, Run(id, start, steps[..n]), steps[n]);
    hide Run;
    if k < n {
      assert forall j :: 0 <= j <= n ==> steps[..n][..j] == steps[..j];
      assert !Stores(id, Run(id, start, steps[..n]), steps[n]);
      UpdateLasts(id, desired, now, steps[..n], k);
      RunKeeps(id, desired, now, steps[..n]);
      var s := Run(id, start, steps[..n]);
      assert IsValidConfig(s.desired);
      hide Inv;
      hide IsValidConfig;
      DesiredStays(id, s, steps[n]);
      SessionsComeBack(id, s, steps[n]);
    }
  }

  /** Only a new session ends the wait for one. */
  lemma {:induction false} SessionsComeBack(id: Identity, s: State, step: Step)
    ensures var s' := Apply(id, s, step);
            && s'.sessions >= s.sessions
            && (s'.sessions == s.sessions && (s.resetRequired || s.session.None?) ==> s'.resetRequired || s'.session.None?)
  {
    hide CanOpen;
    hide FramePacing.Pace;
    hide Updated;
    hide Refusal;
  }

  // ---------- sessions ----------

  predicate IsGone(s: State) { s.session.None? || s.resetRequired || !s.session.value.connected }

  /** When the next attempt to connect may be made. */
  function Earliest(id: Identity, s: State, clock: Readings): int {
    if s.session.Some? && IsGone(s) then clock.reset + id.reconnectInterval else s.nextReconnect
  }

  /** A session of its own configuration, with nothing registered, submitted, paced or repeated yet. */
  ghost predicate IsOpened(s: State, attempt: Attempt, s': State)
    requires attempt.Opened?
  {
    && s'.session == Some(Session(s'.generation, s.desired.(encoder := s.desired.encoder.(backend := attempt.actualBackend)),
                                  attempt.mode, true, {}))
    && s'.generation == (if s.generation >= 0x7fff_ffff then 1 else s.generation + 1)
    && s'.buffers == map[] && s'.pendingOutputFrames == 0 && s'.nextFrame == 0 && s'.paced == []
    && s'.still.lastSourceFrameAt.None? && s'.still.repeats == [] && !s'.resetRequired
  }

  /** In every run, looking at the session opens a new one exactly when there is none, or the old one
      is marked or has lost its connection, the time has come, and an encoder can be opened; the
      interval starts anew with each reset and each attempt. A good session is left alone. */
  lemma {:induction false} SessionsOpenWhenDue(id: Identity, desired: SessionConfig, now: int, steps: seq<Step>,
                                               clock: Readings, attempt: Attempt)
    requires IsValidConfig(desired)
    ensures var s := Run(id, NewBackend(desired, now), steps);
            var s', due := Maintain(id, s, clock, attempt), IsGone(s) && clock.check >= Earliest(id, s, clock);
            && s'.desired == s.desired && s'.submitted == s.submitted
            && (!IsGone(s) ==> s' == s)
            && (due && attempt.Opened? ==> s'.sessions == s.sessions + 1 && IsOpened(s, attempt, s'))
            && (!(due && attempt.Opened?) ==> s'.sessions == s.sessions && s'.generation == s.generation)
            && (IsGone(s) && !(due && attempt.Opened?) ==> s'.session.None? && s'.buffers == map[])
            && (IsGone(s) ==>
                  s'.nextReconnect == if due then clock.attempt + id.reconnectInterval else Earliest(id, s, clock))
  {
    hide Run;
    RunKeeps(id, desired, now, steps);
    var s := Run(id, NewBackend(desired, now), steps);
    assert CanOpen(s.desired) && (s.session.None? ==> !s.resetRequired && s.buffers == map[]);
    hide Inv;
    hide CanOpen;
  }

  // ---------- buffers ----------

  /** The step registers buffer `b`, and the encoder knows it as `v`. */
  predicate RegistersAs(id: Identity, s: State, step: Step, b: u64, v: u64) {
    && step.StepRegister? && step.bufferId == b && step.imported == Some(v)
    && step.displayId == id.displayId && step.generation == s.generation && IsAccepting(s)
  }

  /** The step reaches the encoder with buffer `b`, taken or not. */
  predicate Reregisters(id: Identity, s: State, step: Step, b: u64) {
    && step.StepRegister? && step.bufferId == b
    && step.displayId == id.displayId && step.generation == s.generation && IsAccepting(s)
  }

  /** Step `k` is the last registration of `b` in the session of now, and made it `v`. */
  ghost predicate IsLastRegistration(id: Identity, start: State, steps: seq<Step>, k: nat, b: u64, v: u64) {
    && k < |steps| && RegistersAs(id, Run(id, start, steps[..k]), steps[k], b, v)
    && Run(id, start, steps[..k]).sessions == Run(id, start, steps).sessions
    && forall j :: k < j < |steps| ==> !Reregisters(id, Run(id, start, steps[..j]), steps[j], b)
  }

  /** In every run with a session, the table holds exactly the last registrations of that session. */
  lemma {:induction false} TableHoldsRegistrations(id: Identity, desired: SessionConfig, now: int, steps: seq<Step>, b: u64,
                                                   v: u64)
    requires IsValidConfig(desired) && Run(id, NewBackend(desired, now), steps).session.Some?
    ensures var s := Run(id, NewBackend(desired, now), steps);
            b in s.buffers && s.buffers[b] == v
            <==> exists k: nat :: IsLastRegistration(id, NewBackend(desired, now), steps, k, b, v)
  {
    var n, start := |steps| - 1, NewBackend(desired, now);
    var s, s' := Run(id, start, steps[..n]), Run(id, start, steps);
    RunKeeps(id, desired, now, steps[..n]);
    EntryComesFrom(id, s, steps[n], b, v);
    SessionLasts(id, s, steps[n]);
    hide Inv;
    hide Run;
    hide Apply;
    if RegistersAs(id, s, steps[n], b, v) {
      assert IsLastRegistration(id, start, steps, n, b, v);
    } else if s'.sessions == s.sessions && !Reregisters(id, s, steps[n], b) {
      TableHoldsRegistrations(id, desired, now, steps[..n], b, v);
      RegistrationLasts(id, start, steps, steps[..n], b, v);
    } else {
      forall k: nat ensures !IsLastRegistration(id, start, steps, k, b, v) {
        if k < n {
          SessionsGrow(id, start, steps[..n], k);
          assert steps[..n][..k] == steps[..k];
        }
      }
    }
  }

  lemma {:induction false} RegistrationLasts(id: Identity, start: State, steps: seq<Step>, before: seq<Step>, b: u64, v: u64)
    requires steps != [] && before == steps[..|steps| - 1]
    requires var s := Run(id, start, before);
             && s.sessions == Run(id, start, steps).sessions && !Reregisters(id, s, steps[|steps| - 1], b)
    ensures (exists k: nat :: IsLastRegistration(id, start, steps, k, b, v))
            <==> exists k: nat :: IsLastRegistration(id, start, before, k, b, v)
  {
    hide Run;
    var n := |steps| - 1;
    forall k: nat ensures IsLastRegistration(id, start, steps, k, b, v) <==> IsLastRegistration(id, start, before, k, b, v) {
      assert forall j :: 0 <= j <= n ==> before[..j] == steps[..j];
      assert forall j :: 0 <= j < n ==> before[j] == steps[j];
      hide Reregisters;
    }
  }

  lemma {:induction false} SessionsGrow(id: Identity, start: State, steps: seq<Step>, k: nat)
    requires k <= |steps|
    ensures Run(id, start, steps[..k]).sessions <= Run(id, start, steps).sessions
  {
    if k == |steps| {
      assert steps[..k] == steps;
    } else {
      var n := |steps| - 1;
      SessionsGrow(id, start, steps[..n], k);
      assert steps[..n][..k] == steps[..k];
      SessionsComeBack(id, Run(id, start, steps[..n]), steps[n]);
      hide Apply;
    }
  }

  /** One step of the table. */
  lemma {:induction false} EntryComesFrom(id: Identity, s: State, step: Step, b: u64, v: u64)
    requires (s.session.None? ==> s.buffers == map[]) && Apply(id, s, step).session.Some?
    ensures var s' := Apply(id, s, step);
            b in s'.buffers && s'.buffers[b] == v
            <==> || RegistersAs(id, s, step, b, v)
                 || (s'.sessions == s.sessions && !Reregisters(id, s, step, b) && b in s.buffers && s.buffers[b] == v)
  {
    hide CanOpen;
    hide FramePacing.Pace;
    hide Updated;
    hide Refusal;
  }

  lemma {:induction false} SessionLasts(id: Identity, s: State, step: Step)
    ensures var s' := Apply(id, s, step);
            && s'.sessions >= s.sessions && (s'.session.Some? && s'.sessions == s.sessions ==> s.session.Some?)
            && (step.StepRegister? ==> s'.sessions == s.sessions)
  {
    hide CanOpen;
    hide FramePacing.Pace;
    hide Updated;
    hide Refusal;
  }

  // ---------- requests ----------

  /** The answers to a registration. One that reaches the encoder concerns the table and the registered
      buffers alone, but that replacing a buffer ends the repetition of the last frame. */
  lemma {:induction false} RegistrationsAreAnswered(id: Identity, s: State, d: u64, g: u32, b: u64, imported: Option<u64>)
    ensures var (s', status) := RegisterBuffer(id, s, d, g, b, imported);
            && (status == NoStream <==> d != id.displayId || (g == s.generation && !IsAccepting(s)))
            && (status == StaleGeneration <==> d == id.displayId && g != s.generation)
            && (status == UnsupportedBuffer <==>
                  d == id.displayId && g == s.generation && IsAccepting(s) && imported.None?)
            && (status == Accepted <==> d == id.displayId && g == s.generation && IsAccepting(s) && imported.Some?)
            && (status == StaleGeneration || d != id.displayId ==> s' == s)
            && (status == Accepted || status == UnsupportedBuffer ==>
                  && s'.session.Some?
                  && s' == s.(buffers := s'.buffers, still := s'.still,
                              session := Some(s.session.value.(registered := s'.session.value.registered)))
                  && (if b in s.buffers then s'.still.lastSourceFrameAt.None? && s'.still.repeats == []
                      else s'.still == s.still))
            && (status == NoStream && d == id.displayId && s.session.Some? ==> s'.resetRequired)
  {
  }

  /** The answers to a frame. A frame that the pacer drops is answered when its fence has signalled;
      one that it keeps is answered when it is copied. */
  lemma {:induction false} FramesAreAnswered(id: Identity, s: State, d: u64, g: u32, b: u64, pts: i64, now: int, fence: bool,
                                             copied: bool)
    ensures var (s', status) := SubmitFrame(id, s, d, g, b, pts, now, fence, copied);
            var reaches := d == id.displayId && g == s.generation && IsAccepting(s);
            var drop := FramePacing.Pace(s.nextFrame, pts, s.desired.encoder.frameRate).1;
            && (status == NoStream <==> d != id.displayId || (g == s.generation && !IsAccepting(s)))
            && (status == StaleGeneration <==> d == id.displayId && g != s.generation)
            && (status == BufferUnknown <==> reaches && b !in s.buffers)
            && (status == Accepted <==> reaches && b in s.buffers && if drop then fence else copied)
            && (status == InternalError <==> reaches && b in s.buffers && if drop then !fence else !copied)
            && (if status == Accepted && !drop
                then && s'.pendingOutputFrames == s.pendingOutputFrames + 1
                     && s'.still == StaticFrame(Some(now), None, pts, false, [])
                else s'.still == s.still && (s'.pendingOutputFrames == if s'.resetRequired && !s.resetRequired then 0
                                                                       else s.pendingOutputFrames))
  {
    hide FramePacing.Pace;
  }

  // ---------- output ----------

  /** The stamp of the last frame or repeat. */
  ghost function LastStamp(s: State): int
    requires s.submitted != []
  {
    if s.still.repeats == [] then s.submitted[|s.submitted| - 1].presentationTimeNanos
    else s.still.repeats[|s.still.repeats| - 1].stamp
  }

  /** A repeat is due: the backend is to make it, a frame was submitted half a second ago, nothing is
      pending, and the repeat before is a second old. */
  ghost predicate IsDue(s: State, now: int) {
    && IsAccepting(s) && s.session.value.mode.BackendManaged? && s.pendingOutputFrames == 0
    && s.still.lastSourceFrameAt.Some? && now >= s.still.lastSourceFrameAt.value + 500_000_000
    && (s.still.repeats != [] ==> now >= s.still.repeats[|s.still.repeats| - 1].at + 1_000_000_000)
  }

  /** In every run a repeat is made exactly when it is due, its stamp fits and the encoder takes it; it
      is stamped a second after the stamp before it or with the time it is made, whichever is later.
      A repeat that is due and fails resets the session. */
  lemma {:induction false} RepeatsAreMadeWhenDue(id: Identity, desired: SessionConfig, start: int, steps: seq<Step>, now: i64,
                                                 repeated: bool)
    requires IsValidConfig(desired)
    ensures var s := Run(id, NewBackend(desired, start), steps);
            var s' := RepeatStaticFrame(s, now, repeated);
            if !IsDue(s, now) then s' == s
            else
              && s.submitted != []
              && var last := LastStamp(s);
              if repeated && last + 1_000_000_000 <= 0x7fff_ffff_ffff_ffff
              then && s'.still.repeats
                      == s.still.repeats + [Repeat(now, if last + 1_000_000_000 >= now then last + 1_000_000_000 else now)]
                   && s'.pendingOutputFrames == 1 && !s'.resetRequired
              else s'.resetRequired && s'.still == s.still
  {
    hide Run;
    RunKeeps(id, desired, start, steps);
    var s := Run(id, NewBackend(desired, start), steps);
    assert GoodRepeats(s);
    hide Inv;
    hide AreSpaced;
  }

  /** Output of a live session: pending frames go down by all that came out until an answer made no
      progress or ended the stream, but not below zero; a failure on the way resets the session. */
  lemma {:induction false} DrainsCountDown(id: Identity, s: State, answers: seq<DrainAnswer>, now: int, n: nat)
    requires IsAccepting(s) && 0 < n <= (if id.maxPacketsPerDrain == 0 then 1 else id.maxPacketsPerDrain)
    requires forall k :: 0 <= k < n - 1 ==> GoesOn(AnswerAt(answers, k))
    requires n == (if id.maxPacketsPerDrain == 0 then 1 else id.maxPacketsPerDrain) || !GoesOn(AnswerAt(answers, n - 1))
    ensures var s' := Drain(id, s, answers, now);
            if AnswerAt(answers, n - 1).success then
              && !s'.resetRequired
              && s'.pendingOutputFrames == if Completed(answers, n) >= s.pendingOutputFrames then 0
                                           else s.pendingOutputFrames - Completed(answers, n)
            else s'.resetRequired && s'.pendingOutputFrames == 0
  {
    CallsAreUnique(answers, PacketLimit(id), n);
    hide CallsMade;
    hide Completed;
    hide Unmatched;
  }
}

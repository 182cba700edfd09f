/** Sessions, buffers and configuration of the video frame consumer.

    `State` is what the backend's mutex guards, with history variables: `sessions` counts the
    sessions opened, `submitted` lists the frames handed to an encoder, `paced` the positive stamps
    the pacer kept in the session opened last, `still.repeats` the repeats of the last frame. */
module VideoBackend {
  import opened Bytes
  import opened Options
  import opened VideoPacketProtocol
  import opened FramePacing

  const LAST_GENERATION := 0x7fff_ffff // generations run through 1..LAST_GENERATION
  const STATIC_FRAME_INITIAL_DELAY := 500_000_000
  const STATIC_FRAME_REPEAT_INTERVAL := 1_000_000_000

  const FIELD_BITRATE: bv32 := 1
  const FIELD_FRAME_RATE: bv32 := 2
  const FIELD_RESOLUTION: bv32 := 4
  const FIELD_I_FRAME_INTERVAL: bv32 := 8
  const FIELD_BACKEND: bv32 := 16
  const FIELD_CODEC: bv32 := 32
  const KNOWN_FIELDS: bv32 := 63

  /** A rate with a nonzero frame interval, or zero for no pacing. */
  type Rate = x: int | 0 <= x <= NANOS_PER_SECOND

  datatype EncoderConfig = EncoderConfig(
    backend: nat, width: u32, height: u32, bitrateBps: u32, frameRate: Rate, iFrameIntervalSeconds: u32)

  datatype SessionConfig = SessionConfig(encoder: EncoderConfig, geometry: VideoGeometry)

  datatype ConfigUpdate = ConfigUpdate(
    displayId: u64, streamId: u32, fields: bv32, backend: nat, codecId: u32, codedWidth: u32, codedHeight: u32,
    frameRate: u32, bitrateBps: u32, iFrameIntervalSeconds: u32)

  datatype ConfigResult = Applied | Pending | InvalidConfig | UnsupportedConfig | NoActiveStream

  datatype Status = Accepted | NoStream | StaleGeneration | UnsupportedBuffer | BufferUnknown | InternalError

  datatype Identity = Identity(displayId: u64, streamId: u32, reconnectInterval: nat, maxPacketsPerDrain: nat)

  /** Who repeats the last frame of a display at rest. */
  datatype RepeatMode = Unsupported | CodecManaged | BackendManaged

  /** One encoder session: `config` is what it runs with, `registered` the buffers it knows. */
  datatype Session = Session(
    generation: u32, config: SessionConfig, mode: RepeatMode, connected: bool, registered: set<u64>)

  /** A repetition of the last frame: when it was made and how it was stamped. */
  datatype Repeat = Repeat(at: int, stamp: int)

  datatype StaticFrame = StaticFrame(
    lastSourceFrameAt: Option<int>, lastRepeatAt: Option<int>, lastPresentationTimeNanos: i64, started: bool,
    repeats: seq<Repeat>)

  const NO_STATIC_FRAME: StaticFrame := StaticFrame(None, None, 0, false, [])

  datatype Submitted = Submitted(requested: u32, generation: u32, encoderBufferId: u64, presentationTimeNanos: i64)

  datatype State = State(
    desired: SessionConfig, session: Option<Session>, buffers: map<u64, u64>, generation: u32, resetRequired: bool,
    pendingOutputFrames: nat, nextFrame: u64, still: StaticFrame, nextReconnect: int,
    sessions: nat, submitted: seq<Submitted>, paced: seq<i64>)

  function NewBackend(desired: SessionConfig, now: int): State {
    State(desired, None, map[], 0, false, 0, 0, NO_STATIC_FRAME, now, 0, [], [])
  }

  function NextGeneration(generation: u32): (next: u32)
    ensures 1 <= next <= LAST_GENERATION && next != generation
  {
    if generation >= LAST_GENERATION then 1 else generation + 1
  }

  // ---------- sessions ----------

  predicate IsAccepting(s: State) { s.session.Some? && !s.resetRequired && s.session.value.connected }

  function MarkForReset(s: State): State {
    if s.session.None? || s.resetRequired then s else s.(resetRequired := true, pendingOutputFrames := 0)
  }

  /** What a session can be opened with. */
  predicate CanOpen(c: SessionConfig) {
    && HasMatchingDisplayAspect(c.geometry)
    && c.encoder.width == c.geometry.codedWidth && c.encoder.height == c.geometry.codedHeight
  }

  /** What comes of trying to open a session. */
  datatype Attempt = NothingOpened | Opened(actualBackend: nat, mode: RepeatMode)

  /** What the clock says around one look at the session. */
  datatype Readings = Readings(reset: int, check: int, attempt: int)

  function ResetIfNeeded(id: Identity, s: State, now: int): State {
    if !s.resetRequired then s
    else s.(session := None, buffers := map[], still := NO_STATIC_FRAME, resetRequired := false,
            nextReconnect := now + id.reconnectInterval)
  }

  function OpenSession(s: State, actualBackend: nat, mode: RepeatMode): State {
    var generation := NextGeneration(s.generation);
    s.(generation := generation,
       session := Some(Session(generation, s.desired.(encoder := s.desired.encoder.(backend := actualBackend)),
                               mode, true, {})),
       buffers := map[], pendingOutputFrames := 0, nextFrame := 0, still := NO_STATIC_FRAME, sessions := s.sessions + 1,
       paced := [])
  }

  function Maintain(id: Identity, s: State, clock: Readings, attempt: Attempt): State {
    var marked := if s.session.Some? && !s.session.value.connected then MarkForReset(s) else s;
    var clean := ResetIfNeeded(id, marked, clock.reset);
    if clean.session.Some? || clock.check < clean.nextReconnect then clean
    else
      var waiting := clean.(nextReconnect := clock.attempt + id.reconnectInterval);
      if attempt.NothingOpened? || !CanOpen(s.desired) then waiting
      else OpenSession(waiting, attempt.actualBackend, attempt.mode)
  }

  /** Whether a request for a display and a generation may go to the session. */
  function Validate(id: Identity, s: State, displayId: u64, generation: u32): (State, Status) {
    if displayId != id.displayId then (s, NoStream)
    else if generation != s.generation then (s, StaleGeneration)
    else if !IsAccepting(s) then (MarkForReset(s), NoStream)
    else (s, Accepted)
  }

  // ---------- buffers and frames ----------

  function WithRegistered(s: State, registered: set<u64>): State
    requires s.session.Some?
  {
    s.(session := Some(s.session.value.(registered := registered)))
  }

  function DropBuffer(s: State, bufferId: u64): State
    requires s.session.Some?
  {
    if bufferId !in s.buffers then s
    else WithRegistered(s, s.session.value.registered - {s.buffers[bufferId]})
         .(buffers := s.buffers - {bufferId}, still := NO_STATIC_FRAME)
  }

  /** `imported` is the id under which the encoder knows the buffer, if it takes it. */
  function RegisterBuffer(id: Identity, s: State, displayId: u64, generation: u32, bufferId: u64, imported: Option<u64>)
    : (State, Status)
  {
    var (checked, status) := Validate(id, s, displayId, generation);
    if status != Accepted then (checked, status)
    else
      var dropped := DropBuffer(checked, bufferId);
      if imported.None? then (dropped, UnsupportedBuffer)
      else
        (WithRegistered(dropped, dropped.session.value.registered + {imported.value})
         .(buffers := dropped.buffers[bufferId := imported.value]), Accepted)
  }

  function SubmitFrame(id: Identity, s: State, displayId: u64, generation: u32, bufferId: u64,
                       presentationTimeNanos: i64, now: int, fenceSignals: bool, copied: bool): (State, Status)
  {
    var (checked, status) := Validate(id, s, displayId, generation);
    if status != Accepted then (checked, status)
    else if bufferId !in checked.buffers then (checked, BufferUnknown)
    else
      var (next, drop) := Pace(checked.nextFrame, presentationTimeNanos, checked.desired.encoder.frameRate);
      var kept := if drop || presentationTimeNanos <= 0 then checked.paced else checked.paced + [presentationTimeNanos];
      var paced := checked.(nextFrame := next, paced := kept);
      if drop then (paced, if fenceSignals then Accepted else InternalError)
      else if !copied then (paced, InternalError)
      else
        (paced.(pendingOutputFrames := paced.pendingOutputFrames + 1,
                still := StaticFrame(Some(now), None, presentationTimeNanos, false, []),
                submitted := paced.submitted + [Submitted(generation, paced.session.value.generation,
                                                          paced.buffers[bufferId], presentationTimeNanos)]),
         Accepted)
  }

  // ---------- configuration ----------

  predicate Selects(u: ConfigUpdate, field: bv32) { u.fields & field != 0 }

  predicate IsResolutionWithinBounds(width: u32, height: u32) {
    width >= 320 && height >= 320 && width <= 7680 && height <= 4320
  }

  function WithResolution(c: SessionConfig, width: u32, height: u32): SessionConfig {
    SessionConfig(c.encoder.(width := width, height := height), c.geometry.(codedWidth := width, codedHeight := height))
  }

  /** Why an update cannot be taken, before anything is changed. */
  function Refusal(id: Identity, c: SessionConfig, u: ConfigUpdate): Option<ConfigResult> {
    if u.displayId != id.displayId || u.streamId != id.streamId then Some(NoActiveStream)
    else if u.fields & !KNOWN_FIELDS != 0 || u.fields == 0 then Some(InvalidConfig)
    else if Selects(u, FIELD_BITRATE) && (u.bitrateBps < 100_000 || u.bitrateBps > 100_000_000) then Some(InvalidConfig)
    else if Selects(u, FIELD_FRAME_RATE) && (u.frameRate == 0 || u.frameRate > 60) then Some(InvalidConfig)
    else if Selects(u, FIELD_RESOLUTION) && !IsResolutionWithinBounds(u.codedWidth, u.codedHeight) then Some(InvalidConfig)
    else if Selects(u, FIELD_I_FRAME_INTERVAL) && (u.iFrameIntervalSeconds == 0 || u.iFrameIntervalSeconds > 60)
    then Some(InvalidConfig)
    else if Selects(u, FIELD_CODEC) && u.codecId != 1 then Some(UnsupportedConfig)
    else if Selects(u, FIELD_BACKEND) && u.backend > 3 then Some(UnsupportedConfig)
    else if Selects(u, FIELD_RESOLUTION)
            && !HasMatchingDisplayAspect(c.geometry.(codedWidth := u.codedWidth, codedHeight := u.codedHeight))
    then Some(InvalidConfig)
    else None
  }

  /** The configuration with the selected fields replaced. */
  function Updated(c: SessionConfig, u: ConfigUpdate): SessionConfig
    requires Selects(u, FIELD_FRAME_RATE) ==> u.frameRate <= 60
  {
    var sized := if Selects(u, FIELD_RESOLUTION) then WithResolution(c, u.codedWidth, u.codedHeight) else c;
    var e := sized.encoder;
    sized.(encoder := EncoderConfig(
      if Selects(u, FIELD_BACKEND) then u.backend else e.backend, e.width, e.height,
      if Selects(u, FIELD_BITRATE) then u.bitrateBps else e.bitrateBps,
      if Selects(u, FIELD_FRAME_RATE) then u.frameRate else e.frameRate,
      if Selects(u, FIELD_I_FRAME_INTERVAL) then u.iFrameIntervalSeconds else e.iFrameIntervalSeconds))
  }

  /** Changes that need a new session. */
  predicate IsStructural(c: SessionConfig, u: ConfigUpdate) {
    || (Selects(u, FIELD_FRAME_RATE) && c.encoder.frameRate != u.frameRate)
    || (Selects(u, FIELD_RESOLUTION) && (c.geometry.codedWidth != u.codedWidth || c.geometry.codedHeight != u.codedHeight))
    || (Selects(u, FIELD_I_FRAME_INTERVAL) && c.encoder.iFrameIntervalSeconds != u.iFrameIntervalSeconds)
    || (Selects(u, FIELD_BACKEND) && c.encoder.backend != u.backend)
  }

  function WithSessionBitrate(s: State, bitrateBps: u32): State
    requires s.session.Some?
  {
    var session := s.session.value;
    s.(session := Some(session.(config := session.config.(encoder := session.config.encoder.(bitrateBps := bitrateBps)))))
  }

  /** `bitrateTaken` is whether the running encoder takes a new bitrate. The answer is `None` when
      the update failed. */
  function ApplyConfig(id: Identity, s: State, u: ConfigUpdate, bitrateTaken: bool): (State, Option<ConfigResult>) {
    var refusal := Refusal(id, s.desired, u);
    if refusal.Some? then (s, refusal)
    else
      var candidate := Updated(s.desired, u);
      var oldBitrate := s.desired.encoder.bitrateBps;
      var stored := s.(desired := candidate);
      if IsStructural(s.desired, u) then (MarkForReset(stored), Some(Pending))
      else if candidate.encoder.bitrateBps == oldBitrate then (stored, Some(if IsAccepting(s) then Applied else Pending))
      else if !IsAccepting(s) then (stored, Some(Pending))
      else if !bitrateTaken then
        (MarkForReset(stored.(desired := candidate.(encoder := candidate.encoder.(bitrateBps := oldBitrate)))), None)
      else (WithSessionBitrate(stored, candidate.encoder.bitrateBps), Some(Applied))
  }

  // ---------- the output worker ----------

  /** What one call for output of the encoder comes to. */
  datatype DrainAnswer = DrainAnswer(success: bool, madeProgress: bool, endOfStream: bool, matched: nat, unmatched: nat)

  /** After the `answers` there is no more output. */
  function AnswerAt(answers: seq<DrainAnswer>, k: nat): DrainAnswer {
    if k < |answers| then answers[k] else DrainAnswer(true, false, false, 0, 0)
  }

  predicate GoesOn(answer: DrainAnswer) { answer.success && answer.madeProgress && !answer.endOfStream }

  /** How many calls one drain makes: up to the first answer that does not go on, at most `limit`. */
  function CallsMade(answers: seq<DrainAnswer>, limit: nat): (n: nat)
    requires limit > 0
    ensures 0 < n <= limit && (forall k :: 0 <= k < n - 1 ==> GoesOn(AnswerAt(answers, k)))
    ensures n < limit ==> !GoesOn(AnswerAt(answers, n - 1))
  {
    if limit == 1 || !GoesOn(AnswerAt(answers, 0)) then 1
    else
      assert forall k: nat :: k > 0 ==> AnswerAt(answers, k) == AnswerAt(answers[1..], k - 1);
      1 + CallsMade(answers[1..], limit - 1)
  }

  /** No other number of calls fits. */
  lemma {:induction false} CallsAreUnique(answers: seq<DrainAnswer>, limit: nat, n: nat)
    requires 0 < n <= limit && (forall k :: 0 <= k < n - 1 ==> GoesOn(AnswerAt(answers, k)))
    requires n < limit ==> !GoesOn(AnswerAt(answers, n - 1))
    ensures n == CallsMade(answers, limit)
  {
  }

  /** Frames that came out in the first `n` answers, and those among them that match no submission. */
  function Completed(answers: seq<DrainAnswer>, n: nat): nat {
    if n == 0 then 0 else Completed(answers, n - 1) + AnswerAt(answers, n - 1).matched + AnswerAt(answers, n - 1).unmatched
  }

  function Unmatched(answers: seq<DrainAnswer>, n: nat): nat {
    if n == 0 then 0 else Unmatched(answers, n - 1) + AnswerAt(answers, n - 1).unmatched
  }

  function PacketLimit(id: Identity): (limit: nat)
    ensures limit > 0
  {
    if id.maxPacketsPerDrain > 1 then id.maxPacketsPerDrain else 1
  }

  predicate CodecRepeats(s: State, unmatched: nat, now: int) {
    && s.session.Some? && s.session.value.mode.CodecManaged? && s.still.lastSourceFrameAt.Some?
    && now - s.still.lastSourceFrameAt.value >= STATIC_FRAME_REPEAT_INTERVAL && unmatched > 0
  }

  function Drain(id: Identity, s: State, answers: seq<DrainAnswer>, now: int): State {
    if !IsAccepting(s) then MarkForReset(s)
    else
      var n := CallsMade(answers, PacketLimit(id));
      if !AnswerAt(answers, n - 1).success then MarkForReset(s)
      else
        var completed := Completed(answers, n);
        s.(pendingOutputFrames := if completed >= s.pendingOutputFrames then 0 else s.pendingOutputFrames - completed,
           still := s.still.(started := s.still.started || CodecRepeats(s, Unmatched(answers, n), now)))
  }

  /** Whether the last frame is due for repetition. */
  predicate RepeatIsDue(s: State, now: int) {
    && IsAccepting(s) && s.session.value.mode.BackendManaged?
    && s.still.lastSourceFrameAt.Some? && s.pendingOutputFrames == 0
    && now - s.still.lastSourceFrameAt.value >= STATIC_FRAME_INITIAL_DELAY
    && (s.still.lastRepeatAt.Some? ==> now - s.still.lastRepeatAt.value >= STATIC_FRAME_REPEAT_INTERVAL)
  }

  function RepeatTime(last: i64, now: int): int {
    var stepped := last + STATIC_FRAME_REPEAT_INTERVAL;
    if stepped >= now then stepped else now
  }

  function RepeatStaticFrame(s: State, now: i64, repeated: bool): State {
    if !RepeatIsDue(s, now) then s
    else if s.still.lastPresentationTimeNanos > INT64_MAX - STATIC_FRAME_REPEAT_INTERVAL then MarkForReset(s)
    else if !repeated then MarkForReset(s)
    else
      var presentationTimeNanos := RepeatTime(s.still.lastPresentationTimeNanos, now);
      s.(pendingOutputFrames := s.pendingOutputFrames + 1,
         still := StaticFrame(s.still.lastSourceFrameAt, Some(now), presentationTimeNanos, true,
                              s.still.repeats + [Repeat(now, presentationTimeNanos)]))
  }

  function Disconnect(s: State): State {
    if s.session.None? then s else s.(session := Some(s.session.value.(connected := false)))
  }

  datatype Step =
    | StepPoll(clock: Readings, attempt: Attempt)
    | StepRegister(displayId: u64, generation: u32, bufferId: u64, imported: Option<u64>)
    | StepSubmit(displayId: u64, generation: u32, bufferId: u64, presentationTimeNanos: i64, now: int, fenceSignals: bool,
                 copied: bool)
    | StepConfigure(update: ConfigUpdate, bitrateTaken: bool)
    | StepDrain(answers: seq<DrainAnswer>, drainedAt: int)
    | StepRepeat(time: i64, repeated: bool)
    | StepDisconnect

  function Apply(id: Identity, s: State, step: Step): State {
    match step
    case StepPoll(clock, attempt) => Maintain(id, s, clock, attempt)
    case StepRegister(d, g, b, imported) => RegisterBuffer(id, s, d, g, b, imported).0
    case StepSubmit(d, g, b, pts, now, fence, copied) => SubmitFrame(id, s, d, g, b, pts, now, fence, copied).0
    case StepConfigure(update, bitrateTaken) => ApplyConfig(id, s, update, bitrateTaken).0
    case StepDrain(answers, now) => Drain(id, s, answers, now)
    case StepRepeat(now, repeated) => RepeatStaticFrame(s, now, repeated)
    case StepDisconnect => Disconnect(s)
  }

  function Run(id: Identity, start: State, steps: seq<Step>): State {
    if steps == [] then start else Apply(id, Run(id, start, steps[..|steps| - 1]), steps[|steps| - 1])
  }

  // ---------- invariants ----------

  predicate IsValidConfig(c: SessionConfig) {
    && CanOpen(c) && 0 < c.encoder.frameRate <= 60
    && 100_000 <= c.encoder.bitrateBps <= 100_000_000 && 0 < c.encoder.iFrameIntervalSeconds <= 60
  }

  /** What a session runs with is what is desired, but for the backend that was found. */
  predicate RunsAsDesired(s: State) {
    IsAccepting(s) ==>
      var running := s.session.value.config;
      running == s.desired.(encoder := s.desired.encoder.(backend := running.encoder.backend))
  }

  predicate GoodGeneration(s: State) {
    && (s.generation == 0 <==> s.sessions == 0) && s.generation <= LAST_GENERATION
    && (s.sessions > 0 ==> s.generation == 1 + (s.sessions - 1) % LAST_GENERATION)
    && (s.session.Some? ==> s.sessions > 0 && s.session.value.generation == s.generation)
  }

  /** Every entry of the buffer table names a buffer the live session has registered. */
  ghost predicate Named(s: State) {
    forall b :: b in s.buffers ==> s.session.Some? && s.buffers[b] in s.session.value.registered
  }

  /** And no two entries name the same. */
  ghost predicate GoodTable(s: State) {
    && Named(s)
    && forall a, b :: a in s.buffers && b in s.buffers && a != b ==> s.buffers[a] != s.buffers[b]
  }

  /** The pacer after the frames of a session: one interval holds the last kept frame and the slot,
      and frames that never go back are spaced. */
  ghost predicate PacerIsAt(kept: seq<i64>, next: u64, interval: nat) {
    && (kept == [] <==> next == 0)
    && (kept != [] ==> kept[|kept| - 1] < next <= kept[|kept| - 1] + interval)
    && (IsStream(kept) ==> Spaced(kept, next, interval))
  }

  ghost predicate GoodPacing(s: State) {
    s.session.Some? ==>
      var frameRate := s.session.value.config.encoder.frameRate;
      frameRate > 0 && PacerIsAt(s.paced, s.nextFrame, Interval(frameRate))
  }

  /** Repeats of a frame that was submitted at `at` and stamped `stamp`: the first comes half a second
      later, each other one a second after the one before it; stamps are a second apart as well. */
  ghost predicate AreSpaced(repeats: seq<Repeat>, at: int, stamp: int) {
    && (forall k :: 0 <= k < |repeats| ==>
          && repeats[k].at >= at + STATIC_FRAME_INITIAL_DELAY + k * STATIC_FRAME_REPEAT_INTERVAL
          && repeats[k].stamp >= stamp + (k + 1) * STATIC_FRAME_REPEAT_INTERVAL
          && repeats[k].stamp >= repeats[k].at)
    && forall j, k :: 0 <= j < k < |repeats| ==>
         && repeats[k].at >= repeats[j].at + (k - j) * STATIC_FRAME_REPEAT_INTERVAL
         && repeats[k].stamp >= repeats[j].stamp + (k - j) * STATIC_FRAME_REPEAT_INTERVAL
  }

  ghost predicate GoodRepeats(s: State) {
    var f, n := s.still, |s.still.repeats|;
    if f.lastSourceFrameAt.None? then f.lastRepeatAt.None? && n == 0
    else
      && s.submitted != []
      && var stamp := s.submitted[|s.submitted| - 1].presentationTimeNanos;
      && AreSpaced(f.repeats, f.lastSourceFrameAt.value, stamp)
      && f.lastRepeatAt == (if n == 0 then None else Some(f.repeats[n - 1].at))
      && f.lastPresentationTimeNanos == if n == 0 then stamp else f.repeats[n - 1].stamp
  }

  ghost predicate Inv(s: State) {
    && (s.session.None? ==> s.buffers == map[] && !s.resetRequired)
    && GoodGeneration(s) && IsValidConfig(s.desired) && RunsAsDesired(s)
    && GoodPacing(s) && GoodRepeats(s)
    && forall k :: 0 <= k < |s.submitted| ==> s.submitted[k].requested == s.submitted[k].generation
  }

  /** The encoder names a buffer it takes by an id that no table entry has. */
  predicate IsFresh(s: State, step: Step) {
    step.StepRegister? && step.imported.Some? ==>
      forall b :: b in s.buffers && b != step.bufferId ==> s.buffers[b] != step.imported.value
  }

  lemma {:induction false} MaintainKeeps(id: Identity, s: State, clock: Readings, attempt: Attempt)
    requires Inv(s)
    ensures Inv(Maintain(id, s, clock, attempt))
    ensures GoodTable(s) ==> GoodTable(Maintain(id, s, clock, attempt))
  {
    GenerationsCount(s.sessions);
    hide HasMatchingDisplayAspect;
  }

  lemma {:induction false} GenerationsCount(n: nat)
    ensures n > 0 ==> NextGeneration(1 + (n - 1) % LAST_GENERATION) == 1 + n % LAST_GENERATION
    ensures 0 % LAST_GENERATION == 0
  {
    if n > 0 {
      assert n == (n - 1) / LAST_GENERATION * LAST_GENERATION + ((n - 1) % LAST_GENERATION + 1);
    }
  }

  lemma {:induction false} RegisterKeeps(id: Identity, s: State, d: u64, g: u32, b: u64, imported: Option<u64>)
    requires Inv(s)
    ensures Inv(RegisterBuffer(id, s, d, g, b, imported).0)
    ensures GoodTable(s) && IsFresh(s, StepRegister(d, g, b, imported)) ==>
              GoodTable(RegisterBuffer(id, s, d, g, b, imported).0)
  {
    hide IsValidConfig;
  }

  /** Pacing one more frame. */
  lemma {:induction false} PacedKeeps(kept: seq<i64>, next: u64, frameRate: u32, t: i64)
    requires IsRate(frameRate) && PacerIsAt(kept, next, Interval(frameRate))
    ensures var (after, drop) := Pace(next, t, frameRate);
            PacerIsAt(if drop || t <= 0 then kept else kept + [t], after, Interval(frameRate))
  {
    if t > 0 {
      var interval := Interval(frameRate);
      var (after, drop) := Pace(next, t, frameRate);
      KeptFrameSetsSlot(next, t, frameRate);
      if !drop && IsStream(kept + [t]) {
        var more := kept + [t];
        assert IsStream(kept) by {
          assert forall i :: 0 <= i < |kept| ==> kept[i] == more[i];
        }
        if kept != [] {
          assert more[|kept| - 1] <= more[|kept|];
          SlotIsNear(next, t, interval);
        }
        hide Spaced;
        SpacedGrows(kept, next, interval, t, after);
      }
    }
  }

  lemma {:induction false} SubmitKeepsPacing(id: Identity, s: State, d: u64, g: u32, b: u64, pts: i64, now: int, fence: bool,
                                             copied: bool)
    requires Inv(s)
    ensures GoodPacing(SubmitFrame(id, s, d, g, b, pts, now, fence, copied).0)
  {
    if Validate(id, s, d, g).1 == Accepted && b in s.buffers {
      PacedKeeps(s.paced, s.nextFrame, s.session.value.config.encoder.frameRate, pts);
    }
    hide PacerIsAt;
    hide GoodRepeats;
    hide GoodGeneration;
    hide Interval;
    hide Pace;
    hide CanOpen;
  }

  lemma {:induction false} SpacingGrows(repeats: seq<Repeat>, at: int, stamp: int, next: Repeat)
    requires AreSpaced(repeats, at, stamp) && next.stamp >= next.at
    requires var n := |repeats|;
             if n == 0 then next.at >= at + STATIC_FRAME_INITIAL_DELAY && next.stamp >= stamp + STATIC_FRAME_REPEAT_INTERVAL
             else && next.at >= repeats[n - 1].at + STATIC_FRAME_REPEAT_INTERVAL
                  && next.stamp >= repeats[n - 1].stamp + STATIC_FRAME_REPEAT_INTERVAL
    ensures AreSpaced(repeats + [next], at, stamp)
  {
    if repeats != [] {
      assert repeats[|repeats| - 1].at >= at + STATIC_FRAME_INITIAL_DELAY + (|repeats| - 1) * STATIC_FRAME_REPEAT_INTERVAL;
    }
  }

  lemma {:induction false} RepeatKeepsSpacing(s: State, now: i64)
    requires GoodRepeats(s) && RepeatIsDue(s, now)
    requires s.still.lastPresentationTimeNanos <= INT64_MAX - STATIC_FRAME_REPEAT_INTERVAL
    ensures GoodRepeats(RepeatStaticFrame(s, now, true))
  {
    var f := s.still;
    SpacingGrows(f.repeats, f.lastSourceFrameAt.value, s.submitted[|s.submitted| - 1].presentationTimeNanos,
                 Repeat(now, RepeatTime(f.lastPresentationTimeNanos, now)));
    hide AreSpaced;
  }

  lemma {:induction false} MarkKeeps(s: State)
    requires Inv(s)
    ensures Inv(MarkForReset(s)) && (GoodTable(s) ==> GoodTable(MarkForReset(s)))
  {
    hide IsValidConfig;
    hide PacerIsAt;
    hide AreSpaced;
    hide Interval;
  }

  lemma {:induction false} RepeatKeeps(s: State, now: i64, repeated: bool)
    requires Inv(s)
    ensures Inv(RepeatStaticFrame(s, now, repeated))
    ensures GoodTable(s) ==> GoodTable(RepeatStaticFrame(s, now, repeated))
  {
    if RepeatIsDue(s, now) {
      MarkKeeps(s);
      if s.still.lastPresentationTimeNanos <= INT64_MAX - STATIC_FRAME_REPEAT_INTERVAL {
        RepeatKeepsSpacing(s, now);
      }
    }
    hide MarkForReset;
    hide GoodRepeats;
    hide IsValidConfig;
    hide GoodGeneration;
    hide PacerIsAt;
    hide Interval;
    hide RepeatTime;
  }

  lemma {:induction false} SubmitKeeps(id: Identity, s: State, d: u64, g: u32, b: u64, pts: i64, now: int, fence: bool,
                                       copied: bool)
    requires Inv(s)
    ensures Inv(SubmitFrame(id, s, d, g, b, pts, now, fence, copied).0)
    ensures GoodTable(s) ==> GoodTable(SubmitFrame(id, s, d, g, b, pts, now, fence, copied).0)
  {
    var s' := SubmitFrame(id, s, d, g, b, pts, now, fence, copied).0;
    assert GoodPacing(s') by { SubmitKeepsPacing(id, s, d, g, b, pts, now, fence, copied); }
    assert AreSpaced([], now, pts);
    MarkKeeps(s);
    hide MarkForReset;
    hide GoodPacing;
    hide IsValidConfig;
    hide Pace;
    hide AreSpaced;
  }

  /** An update that is refused or fails leaves the desired configuration as it was, and a refused
      one leaves everything as it was; an update that is taken changes the selected fields only. */
  lemma {:induction false} UpdateIsAtomic(id: Identity, s: State, u: ConfigUpdate, bitrateTaken: bool)
    requires Inv(s)
    ensures var (s', result) := ApplyConfig(id, s, u, bitrateTaken);
            && IsValidConfig(s'.desired)
            && (result.None? ==> s'.desired == s.desired && s'.resetRequired)
            && (result.Some? && !result.value.Applied? && !result.value.Pending? ==> s' == s)
            && (result.Some? && (result.value.Applied? || result.value.Pending?) ==>
                  Refusal(id, s.desired, u).None? && s'.desired == Updated(s.desired, u))
  {
    hide Selects;
    hide HasMatchingDisplayAspect;
  }

  lemma {:induction false} ConfigureKeeps(id: Identity, s: State, u: ConfigUpdate, bitrateTaken: bool)
    requires Inv(s)
    ensures Inv(ApplyConfig(id, s, u, bitrateTaken).0)
    ensures GoodTable(s) ==> GoodTable(ApplyConfig(id, s, u, bitrateTaken).0)
  {
    UpdateIsAtomic(id, s, u, bitrateTaken);
    hide Selects;
    hide HasMatchingDisplayAspect;
    hide GoodGeneration;
  }

  lemma {:induction false} ApplyKeeps(id: Identity, s: State, step: Step)
    requires Inv(s)
    ensures Inv(Apply(id, s, step))
    ensures GoodTable(s) && IsFresh(s, step) ==> GoodTable(Apply(id, s, step))
  {
    match step
    case StepPoll(clock, attempt) => MaintainKeeps(id, s, clock, attempt);
    case StepRegister(d, g, b, imported) => RegisterKeeps(id, s, d, g, b, imported);
    case StepSubmit(d, g, b, pts, now, fence, copied) => SubmitKeeps(id, s, d, g, b, pts, now, fence, copied);
    case StepConfigure(update, bitrateTaken) => ConfigureKeeps(id, s, update, bitrateTaken);
    case StepRepeat(now, repeated) => RepeatKeeps(s, now, repeated);
    case _ =>
      hide IsValidConfig;
      hide GoodGeneration;
      hide PacerIsAt;
      hide AreSpaced;
  }

  // ---------- every run ----------

  lemma {:induction false} RunKeeps(id: Identity, desired: SessionConfig, now: int, steps: seq<Step>)
    requires IsValidConfig(desired)
    ensures Inv(Run(id, NewBackend(desired, now), steps))
  {
    if steps == [] {
    } else {
      hide Inv;
      hide Apply;
      RunKeeps(id, desired, now, steps[..|steps| - 1]);
      ApplyKeeps(id, Run(id, NewBackend(desired, now), steps[..|steps| - 1]), steps[|steps| - 1]);
    }
  }

  /** In every run: without a session there are no buffers and nothing to reset; a session that
      accepts frames runs with the desired rate, resolution, bitrate and key frame interval; the
      desired configuration is valid; and every frame went to the session it was meant for. */
  lemma {:induction false} SessionsRunAsDesired(id: Identity, desired: SessionConfig, now: int, steps: seq<Step>)
    requires IsValidConfig(desired)
    ensures var s := Run(id, NewBackend(desired, now), steps);
            && (s.session.None? ==> s.buffers == map[] && !s.resetRequired)
            && IsValidConfig(s.desired)
            && (s.session.Some? ==> 1 <= s.session.value.generation == s.generation)
            && (IsAccepting(s) ==>
                  var running := s.session.value.config;
                  && running.geometry == s.desired.geometry
                  && running.encoder.width == s.desired.encoder.width == s.desired.geometry.codedWidth
                  && running.encoder.height == s.desired.encoder.height == s.desired.geometry.codedHeight
                  && running.encoder.frameRate == s.desired.encoder.frameRate
                  && running.encoder.bitrateBps == s.desired.encoder.bitrateBps
                  && running.encoder.iFrameIntervalSeconds == s.desired.encoder.iFrameIntervalSeconds)
            && (forall k :: 0 <= k < |s.submitted| ==> s.submitted[k].requested == s.submitted[k].generation)
  {
    hide Run;
    hide HasMatchingDisplayAspect;
    RunKeeps(id, desired, now, steps);
  }

  ghost predicate AllFresh(id: Identity, start: State, steps: seq<Step>) {
    forall k :: 0 <= k < |steps| ==> IsFresh(Run(id, start, steps[..k]), steps[k])
  }

  /** As long as the encoder never names two buffers by one id, every entry of the buffer table names
      a buffer the live session has registered, and no two entries the same. */
  lemma {:induction false} TableNamesRegisteredBuffers(id: Identity, desired: SessionConfig, now: int, steps: seq<Step>)
    requires IsValidConfig(desired) && AllFresh(id, NewBackend(desired, now), steps)
    ensures GoodTable(Run(id, NewBackend(desired, now), steps))
  {
    if steps == [] {
    } else {
      var start, n := NewBackend(desired, now), |steps| - 1;
      assert forall k :: 0 <= k < n ==> steps[..n][..k] == steps[..k];
      assert AllFresh(id, start, steps[..n]);
      assert IsFresh(Run(id, start, steps[..n]), steps[n]);
      TableNamesRegisteredBuffers(id, desired, now, steps[..n]);
      RunKeeps(id, desired, now, steps[..n]);
      hide Inv;
      hide Apply;
      hide GoodTable;
      ApplyKeeps(id, Run(id, start, steps[..n]), steps[n]);
    }
  }

  /** A request to register a buffer anew, under another id, finds no other entry with the old id. */
  predicate KeepsNames(id: Identity, s: State, step: Step) {
    step.StepRegister? && Validate(id, s, step.displayId, step.generation).1 == Accepted ==>
      || step.bufferId !in s.buffers || step.imported == Some(s.buffers[step.bufferId])
      || forall b :: b in s.buffers && b != step.bufferId ==> s.buffers[b] != s.buffers[step.bufferId]
  }

  /** A registration, also one that the encoder refuses, leaves every entry naming a registered
      buffer exactly when the buffer is new, keeps its id, or shared its old id with no other entry. */
  lemma {:induction false} RegistrationKeepsNames(id: Identity, s: State, d: u64, g: u32, a: u64, imported: Option<u64>)
    requires Named(s) && RegisterBuffer(id, s, d, g, a, imported).1 in {Accepted, UnsupportedBuffer}
    ensures Named(RegisterBuffer(id, s, d, g, a, imported).0)
            <==> (|| a !in s.buffers || imported == Some(s.buffers[a])
                  || forall b :: b in s.buffers && b != a ==> s.buffers[b] != s.buffers[a])
  {
    var s' := RegisterBuffer(id, s, d, g, a, imported).0;
    forall b | b in s.buffers && b != a ensures b in s'.buffers && s'.buffers[b] == s.buffers[b] {
    }
  }

  lemma {:induction false} StepKeepsNames(id: Identity, s: State, step: Step)
    requires Named(s)
    ensures Named(Apply(id, s, step)) <==> KeepsNames(id, s, step)
  {
    match step
    case StepRegister(d, g, b, imported) =>
      if Validate(id, s, d, g).1 == Accepted {
        RegistrationKeepsNames(id, s, d, g, b, imported);
      }
    case _ =>
      hide CanOpen;
      hide Pace;
      hide Updated;
  }

  ghost predicate NamedThroughout(id: Identity, start: State, steps: seq<Step>) {
    forall k :: 0 <= k <= |steps| ==> Named(Run(id, start, steps[..k]))
  }

  /** In a run every entry of the table names a registered buffer at all times exactly when every
      registration that reaches the encoder meets the condition. */
  lemma {:induction false} RunKeepsNames(id: Identity, start: State, steps: seq<Step>)
    requires Named(start)
    ensures NamedThroughout(id, start, steps)
            <==> forall k :: 0 <= k < |steps| ==> KeepsNames(id, Run(id, start, steps[..k]), steps[k])
  {
    hide Named;
    hide KeepsNames;
    hide Apply;
    forall k | 0 <= k < |steps| && Named(Run(id, start, steps[..k]))
      ensures Named(Run(id, start, steps[..k + 1])) <==> KeepsNames(id, Run(id, start, steps[..k]), steps[k])
    {
      assert steps[..k + 1][..k] == steps[..k];
      StepKeepsNames(id, Run(id, start, steps[..k]), steps[k]);
    }
    if NamedThroughout(id, start, steps) {
      forall k | 0 <= k < |steps| ensures KeepsNames(id, Run(id, start, steps[..k]), steps[k]) {
        assert Named(Run(id, start, steps[..k + 1]));
      }
    }
    if forall k :: 0 <= k < |steps| ==> KeepsNames(id, Run(id, start, steps[..k]), steps[k]) {
      NamesReach(id, start, steps);
    }
  }

  lemma {:induction false} NamesReach(id: Identity, start: State, steps: seq<Step>)
    requires Named(start)
    requires forall k :: 0 <= k < |steps| ==> KeepsNames(id, Run(id, start, steps[..k]), steps[k])
    ensures NamedThroughout(id, start, steps)
  {
    hide Named;
    hide KeepsNames;
    hide Apply;
    assert steps[..|steps|] == steps;
    if steps != [] {
      var n := |steps| - 1;
      assert forall k :: 0 <= k <= n ==> steps[..n][..k] == steps[..k];
      NamesReach(id, start, steps[..n]);
      assert Named(Run(id, start, steps[..n][..n]));
      StepKeepsNames(id, Run(id, start, steps[..n]), steps[n]);
      forall k | 0 <= k <= |steps| ensures Named(Run(id, start, steps[..k])) {
        if k <= n {
          assert Named(Run(id, start, steps[..n][..k]));
        }
      }
    }
  }

  /** Otherwise two entries share one registration, and registering the first buffer anew leaves the
      second entry without any. */
  lemma {:induction false} SharedImportDangles(id: Identity, s: State, a: u64, b: u64, other: u64)
    requires IsAccepting(s) && a in s.buffers && a != b && other != s.buffers[a]
    ensures var second := RegisterBuffer(id, s, id.displayId, s.generation, b, Some(s.buffers[a])).0;
            var third := RegisterBuffer(id, second, id.displayId, s.generation, a, Some(other)).0;
            b in third.buffers && third.session.Some? && third.buffers[b] !in third.session.value.registered
  {
  }

  /** A request stamped with the generation of the `j`-th session is stale, and changes nothing, in
      the `k`-th one, unless their distance is a multiple of the generation range. */
  lemma {:induction false} OldRequestsAreStale(id: Identity, desired: SessionConfig, now: int, steps: seq<Step>, j: nat)
    requires IsValidConfig(desired) && 0 < j <= Run(id, NewBackend(desired, now), steps).sessions
    ensures var s := Run(id, NewBackend(desired, now), steps);
            var generation := 1 + (j - 1) % LAST_GENERATION;
            (s.sessions - j) % LAST_GENERATION != 0 ==>
              Validate(id, s, id.displayId, generation) == (s, StaleGeneration)
  {
    hide Run;
    RunKeeps(id, desired, now, steps);
    var s := Run(id, NewBackend(desired, now), steps);
    InvGivesGeneration(s);
    hide Inv;
    if (s.sessions - j) % LAST_GENERATION != 0 {
      GenerationsDiffer(j - 1, s.sessions - 1);
    }
  }

  lemma {:induction false} InvGivesGeneration(s: State)
    requires Inv(s)
    ensures s.sessions > 0 ==> s.generation == 1 + (s.sessions - 1) % LAST_GENERATION
  {
  }

  lemma {:induction false} GenerationsDiffer(j: nat, k: nat)
    requires (k - j) % LAST_GENERATION != 0
    ensures j % LAST_GENERATION != k % LAST_GENERATION
  {
    var a, b := j / LAST_GENERATION, k / LAST_GENERATION;
    assert k - j == (b - a) * LAST_GENERATION + (k % LAST_GENERATION - j % LAST_GENERATION);
  }

  /** The step hands a frame to the encoder. */
  predicate Takes(id: Identity, s: State, step: Step) {
    && step.StepSubmit? && step.displayId == id.displayId && step.generation == s.generation && IsAccepting(s)
    && step.bufferId in s.buffers && step.copied
    && !Pace(s.nextFrame, step.presentationTimeNanos, s.desired.encoder.frameRate).1
  }

  /** The frames of the steps of a run that hand one over. */
  function FramesTaken(id: Identity, start: State, steps: seq<Step>): seq<Submitted> {
    if steps == [] then []
    else
      var n := |steps| - 1;
      var s, step := Run(id, start, steps[..n]), steps[n];
      FramesTaken(id, start, steps[..n])
      + if Takes(id, s, step) then
          [Submitted(s.generation, s.generation, s.buffers[step.bufferId], step.presentationTimeNanos)]
        else []
  }

  /** In every run the encoder gets exactly the frames submitted for the backend's display, under the
      generation of that moment, to a session that accepts frames, in a registered buffer, when the
      pacer keeps them and they can be copied; in that order, and into the session they were meant
      for. */
  lemma {:induction false} SubmittedFramesAreCurrent(id: Identity, desired: SessionConfig, now: int, steps: seq<Step>)
    requires IsValidConfig(desired)
    ensures Run(id, NewBackend(desired, now), steps).submitted == FramesTaken(id, NewBackend(desired, now), steps)
  {
    if steps != [] {
      var n := |steps| - 1;
      SubmittedFramesAreCurrent(id, desired, now, steps[..n]);
      RunKeeps(id, desired, now, steps[..n]);
      var s, step := Run(id, NewBackend(desired, now), steps[..n]), steps[n];
      assert s.session.Some? ==> s.session.value.generation == s.generation;
      hide Inv;
      StepTakes(id, s, step);
    }
  }

  lemma {:induction false} StepTakes(id: Identity, s: State, step: Step)
    requires s.session.Some? ==> s.session.value.generation == s.generation
    ensures Apply(id, s, step).submitted
            == s.submitted + if Takes(id, s, step) then
                               [Submitted(s.generation, s.generation, s.buffers[step.bufferId], step.presentationTimeNanos)]
                             else []
  {
    hide CanOpen;
    hide Pace;
    hide Updated;
  }

  /** Where every entry names a registered buffer, so does every frame handed over. */
  lemma {:induction false} FramesUseRegisteredBuffers(id: Identity, start: State, steps: seq<Step>, k: nat)
    requires Named(start) && k < |steps| && Takes(id, Run(id, start, steps[..k]), steps[k])
    requires forall j :: 0 <= j < |steps| ==> KeepsNames(id, Run(id, start, steps[..j]), steps[j])
    ensures var s := Run(id, start, steps[..k]);
            s.buffers[steps[k].bufferId] in s.session.value.registered
  {
    hide Run;
    hide KeepsNames;
    RunKeepsNames(id, start, steps);
    assert Named(Run(id, start, steps[..k]));
  }

  /** The rate of a session: when the stamps that the pacer kept in it never go back, more than
      `n - 2` intervals lie between any `n` of them. The rate is the session's own from its first
      frame to its last, since a new rate takes effect with a new session. */
  lemma {:induction false} SessionsArePaced(id: Identity, desired: SessionConfig, now: int, steps: seq<Step>, i: nat, j: nat)
    requires IsValidConfig(desired)
    requires var s := Run(id, NewBackend(desired, now), steps);
             s.session.Some? && IsStream(s.paced) && i < j < |s.paced|
    ensures var s := Run(id, NewBackend(desired, now), steps);
            var frameRate, n := s.session.value.config.encoder.frameRate, j - i + 1;
            frameRate > 0 && s.paced[j] - s.paced[i] > (n - 2) * Interval(frameRate)
  {
    hide Run;
    RunKeeps(id, desired, now, steps);
  }

  /** In every run the repeats of a frame keep their distance: the first comes at least half a second
      after the frame, each other one at least a second after the one before it, and every stamp is
      at least a second after the stamp before it and not before the repeat itself. */
  lemma {:induction false} RepeatsAdvance(id: Identity, desired: SessionConfig, now: int, steps: seq<Step>)
    requires IsValidConfig(desired)
    ensures var s := Run(id, NewBackend(desired, now), steps);
            && (s.still.lastSourceFrameAt.None? ==> s.still.repeats == [])
            && (s.still.lastSourceFrameAt.Some? ==>
                  && s.submitted != []
                  && AreSpaced(s.still.repeats, s.still.lastSourceFrameAt.value,
                               s.submitted[|s.submitted| - 1].presentationTimeNanos))
  {
    hide Run;
    hide AreSpaced;
    RunKeeps(id, desired, now, steps);
  }

  // ---------- the backend itself ----------

  /** The encoder and transport of one session; `connected` can only be lost. */
  class EncoderSession {
    const generation: u32
    var config: SessionConfig
    const mode: RepeatMode
    var connected: bool
    var registered: set<u64>
    var matchedFrames: nat
    var unmatchedFrames: nat

    ghost function Value(): Session
      reads this
    {
      Session(generation, config, mode, connected, registered)
    }

    constructor (generation: u32, config: SessionConfig, mode: RepeatMode)
      ensures Value() == Session(generation, config, mode, true, {})
    {
      this.generation, this.config, this.mode, connected, registered := generation, config, mode, true, {};
      matchedFrames, unmatchedFrames := 0, 0;
    }

    method Register(imported: Option<u64>) returns (encoderBufferId: u64, ok: bool)
      modifies this`registered
      ensures ok == imported.Some? && (ok ==> encoderBufferId == imported.value)
      ensures registered == if ok then old(registered) + {encoderBufferId} else old(registered)
    {
      ok := imported.Some?;
      encoderBufferId := 0;
      if ok {
        encoderBufferId := imported.value;
        registered := registered + {encoderBufferId};
      }
    }

    method Unregister(encoderBufferId: u64)
      modifies this`registered
      ensures registered == old(registered) - {encoderBufferId}
    {
      registered := registered - {encoderBufferId};
    }

    method SetBitrate(bitrateBps: u32, taken: bool) returns (ok: bool)
      modifies this`config
      ensures ok == taken
      ensures config == if ok then old(config).(encoder := old(config).encoder.(bitrateBps := bitrateBps)) else old(config)
    {
      ok := taken;
      if ok {
        config := config.(encoder := config.encoder.(bitrateBps := bitrateBps));
      }
    }

    /** One call for output, with its outcome, counts its frames. */
    method DrainOutput(answer: DrainAnswer)
      modifies this`matchedFrames, this`unmatchedFrames
      ensures matchedFrames == old(matchedFrames) + answer.matched
      ensures unmatchedFrames == old(unmatchedFrames) + answer.unmatched
    {
      matchedFrames := matchedFrames + answer.matched;
      unmatchedFrames := unmatchedFrames + answer.unmatched;
    }
  }

  class VideoFrameConsumerBackend {
    const id: Identity
    var desired: SessionConfig
    var session: EncoderSession?
    var buffers: map<u64, u64>
    var generation: u32
    var resetRequired: bool
    var pendingOutputFrames: nat
    var nextFrame: u64
    var still: StaticFrame
    var nextReconnect: int
    ghost var sessions: nat
    ghost var submitted: seq<Submitted>
    ghost var paced: seq<i64>

    ghost function Abs(): State
      reads this, session
    {
      State(desired, if session == null then None else Some(session.Value()), buffers, generation, resetRequired,
            pendingOutputFrames, nextFrame, still, nextReconnect, sessions, submitted, paced)
    }

    /** The one fact the methods need of each other. */
    ghost predicate Valid()
      reads this, session
    {
      (session == null ==> !resetRequired) && generation <= LAST_GENERATION
    }

    constructor (id: Identity, desired: SessionConfig, now: int)
      ensures Valid() && Abs() == NewBackend(desired, now) && this.id == id
    {
      this.id, this.desired := id, desired;
      session, buffers, generation, resetRequired, pendingOutputFrames := null, map[], 0, false, 0;
      nextFrame, still, nextReconnect, sessions, submitted, paced := 0, NO_STATIC_FRAME, now, 0, [], [];
    }

    predicate AcceptsFrames()
      reads this, session
      ensures AcceptsFrames() == IsAccepting(Abs())
    {
      session != null && !resetRequired && session.connected
    }

    method MarkSessionForReset()
      requires Valid()
      modifies this`resetRequired, this`pendingOutputFrames
      ensures Valid() && Abs() == MarkForReset(old(Abs()))
    {
      if session == null || resetRequired {
        return;
      }
      resetRequired := true;
      pendingOutputFrames := 0;
    }

    method MaintainSession(clock: Readings, attempt: Attempt)
      requires Valid()
      modifies this
      ensures Valid() && Abs() == Maintain(id, old(Abs()), clock, attempt)
      ensures session == old(session) || session == null || fresh(session)
    {
      hide CanOpen;
      hide OpenSession;
      if session != null && !session.connected {
        MarkSessionForReset();
      }
      ResetSession(clock.reset);
      if session != null || clock.check < nextReconnect {
        return;
      }
      nextReconnect := clock.attempt + id.reconnectInterval;
      if attempt.NothingOpened? || !CanOpen(desired) {
        return;
      }
      StartSession(attempt.actualBackend, attempt.mode);
    }

    method ResetSession(now: int)
      requires Valid()
      modifies this
      ensures Valid() && Abs() == ResetIfNeeded(id, old(Abs()), now) && (session == null || session == old(session))
    {
      if resetRequired {
        session := null;
        buffers := map[];
        still := NO_STATIC_FRAME;
        resetRequired := false;
        nextReconnect := now + id.reconnectInterval;
      }
    }

    method StartSession(actualBackend: nat, mode: RepeatMode)
      requires Valid() && session == null
      modifies this
      ensures Valid() && Abs() == OpenSession(old(Abs()), actualBackend, mode) && fresh(session)
    {
      hide NextGeneration;
      var candidateGeneration := NextGeneration(generation);
      var sessionConfig := desired.(encoder := desired.encoder.(backend := actualBackend));
      var opening := new EncoderSession(candidateGeneration, sessionConfig, mode);
      ghost var value := opening.Value();
      generation := candidateGeneration;
      session := opening;
      buffers := map[];
      pendingOutputFrames := 0;
      nextFrame := 0;
      still := NO_STATIC_FRAME;
      sessions := sessions + 1;
      paced := [];
      assert session.Value() == value;
    }

    /** What the display is told: it may send frames exactly when they would not be refused. */
    method GetStreamState(displayId: u64, clock: Readings, attempt: Attempt) returns (current: u32, accepting: bool)
      requires Valid()
      modifies this
      ensures Valid() && Abs() == Maintain(id, old(Abs()), clock, attempt) && current == generation
      ensures accepting <==> Validate(id, Abs(), displayId, current).1 == Accepted
    {
      MaintainSession(clock, attempt);
      current := generation;
      accepting := displayId == id.displayId && AcceptsFrames();
    }

    method ValidateRequest(displayId: u64, requested: u32) returns (status: Status)
      requires Valid()
      modifies this`resetRequired, this`pendingOutputFrames
      ensures Valid() && (Abs(), status) == Validate(id, old(Abs()), displayId, requested)
      ensures status == Accepted ==> session != null && !resetRequired
    {
      if displayId != id.displayId {
        return NoStream;
      }
      if requested != generation {
        return StaleGeneration;
      }
      if session == null || resetRequired || !session.connected {
        MarkSessionForReset();
        return NoStream;
      }
      status := Accepted;
    }

    method RegisterImportedBuffer(displayId: u64, requested: u32, bufferId: u64, imported: Option<u64>)
      returns (status: Status)
      requires Valid()
      modifies this, session
      ensures Valid() && session == old(session)
      ensures (Abs(), status) == RegisterBuffer(id, old(Abs()), displayId, requested, bufferId, imported)
    {
      status := ValidateRequest(displayId, requested);
      if status != Accepted {
        return;
      }
      if bufferId in buffers {
        session.Unregister(buffers[bufferId]);
        buffers := buffers - {bufferId};
        still := NO_STATIC_FRAME;
      }
      var encoderBufferId, ok := session.Register(imported);
      if !ok {
        return UnsupportedBuffer;
      }
      buffers := buffers[bufferId := encoderBufferId];
    }

    method SubmitImportedFrame(displayId: u64, requested: u32, bufferId: u64, presentationTimeNanos: i64, now: int,
                               fenceSignals: bool, copied: bool) returns (status: Status)
      requires Valid()
      modifies this
      ensures Valid() && session == old(session)
      ensures (Abs(), status)
              == SubmitFrame(id, old(Abs()), displayId, requested, bufferId, presentationTimeNanos, now, fenceSignals, copied)
    {
      status := ValidateRequest(displayId, requested);
      if status != Accepted {
        return;
      }
      if bufferId !in buffers {
        return BufferUnknown;
      }
      var (next, drop) := Pace(nextFrame, presentationTimeNanos, desired.encoder.frameRate);
      nextFrame := next;
      paced := if drop || presentationTimeNanos <= 0 then paced else paced + [presentationTimeNanos];
      if drop {
        return if fenceSignals then Accepted else InternalError;
      }
      if !copied {
        return InternalError;
      }
      pendingOutputFrames := pendingOutputFrames + 1;
      still := StaticFrame(Some(now), None, presentationTimeNanos, false, []);
      submitted := submitted + [Submitted(requested, session.generation, buffers[bufferId], presentationTimeNanos)];
    }

    method ApplyVideoEncoderConfig(update: ConfigUpdate, bitrateTaken: bool) returns (result: Option<ConfigResult>)
      requires Valid()
      modifies this, session
      ensures Valid() && session == old(session)
      ensures (Abs(), result) == ApplyConfig(id, old(Abs()), update, bitrateTaken)
    {
      var refusal := Refusal(id, desired, update);
      if refusal.Some? {
        return refusal;
      }
      var structural := IsStructural(desired, update);
      var candidate := Updated(desired, update);
      hide Updated;
      hide IsStructural;
      hide Refusal;
      var oldBitrate := desired.encoder.bitrateBps;
      desired := candidate;
      if structural {
        if session != null {
          MarkSessionForReset();
        }
        return Some(Pending);
      }
      if candidate.encoder.bitrateBps != oldBitrate {
        if AcceptsFrames() {
          var ok := session.SetBitrate(candidate.encoder.bitrateBps, bitrateTaken);
          if !ok {
            desired := desired.(encoder := desired.encoder.(bitrateBps := oldBitrate));
            MarkSessionForReset();
            return None;
          }
          return Some(Applied);
        }
        return Some(Pending);
      }
      result := Some(if AcceptsFrames() then Applied else Pending);
    }

    /** Progress was made exactly when some call made it. */
    method DrainOutput(answers: seq<DrainAnswer>, now: int) returns (madeProgress: bool)
      requires Valid()
      modifies this`resetRequired, this`pendingOutputFrames, this`still, session
      ensures Valid() && session == old(session) && Abs() == Drain(id, old(Abs()), answers, now)
      ensures madeProgress <==>
                && IsAccepting(old(Abs()))
                && exists k :: 0 <= k < CallsMade(answers, PacketLimit(id)) && AnswerAt(answers, k).success
                               && AnswerAt(answers, k).madeProgress
    {
      madeProgress := false;
      if session == null || resetRequired {
        return;
      }
      if !session.connected {
        MarkSessionForReset();
        return;
      }
      var ok, completed, unmatched;
      ok, madeProgress, completed, unmatched := DrainPackets(answers);
      if !ok {
        MarkSessionForReset();
        return;
      }
      pendingOutputFrames := if completed >= pendingOutputFrames then 0 else pendingOutputFrames - completed;
      if !still.started && session.mode.CodecManaged? && still.lastSourceFrameAt.Some?
         && now - still.lastSourceFrameAt.value >= STATIC_FRAME_REPEAT_INTERVAL && unmatched > 0 {
        still := still.(started := true);
      }
    }

    /** Calls for output until one makes no progress, ends the stream or fails, or the limit is hit. */
    method DrainPackets(answers: seq<DrainAnswer>)
      returns (ok: bool, madeProgress: bool, completed: nat, unmatched: nat)
      requires session != null
      modifies session`matchedFrames, session`unmatchedFrames
      ensures var n := CallsMade(answers, PacketLimit(id));
              && ok == AnswerAt(answers, n - 1).success
              && (ok ==> completed == Completed(answers, n) && unmatched == Unmatched(answers, n))
              && (madeProgress <==>
                    exists k :: 0 <= k < n && AnswerAt(answers, k).success && AnswerAt(answers, k).madeProgress)
    {
      madeProgress, completed, unmatched := false, 0, 0;
      var initialMatched, initialUnmatched := session.matchedFrames, session.unmatchedFrames;
      var packetLimit := PacketLimit(id);
      var packet := 0;
      while packet < packetLimit
        invariant 0 <= packet <= packetLimit && madeProgress == (packet > 0)
        invariant forall k :: 0 <= k < packet ==> GoesOn(AnswerAt(answers, k))
        invariant session.matchedFrames + session.unmatchedFrames
                  == initialMatched + initialUnmatched + Completed(answers, packet)
        invariant session.unmatchedFrames == initialUnmatched + Unmatched(answers, packet)
      {
        var answer := AnswerAt(answers, packet);
        session.DrainOutput(answer);
        packet := packet + 1;
        if !answer.success {
          CallsAreUnique(answers, packetLimit, packet);
          ok := false;
          return;
        }
        madeProgress := madeProgress || answer.madeProgress;
        if !answer.madeProgress || answer.endOfStream {
          break;
        }
      }
      CallsAreUnique(answers, packetLimit, packet);
      ok := true;
      completed := session.matchedFrames + session.unmatchedFrames - (initialMatched + initialUnmatched);
      unmatched := session.unmatchedFrames - initialUnmatched;
    }

    method MaybeRepeatStaticFrame(now: i64, repeated: bool)
      requires Valid()
      modifies this
      ensures Valid() && session == old(session) && Abs() == RepeatStaticFrame(old(Abs()), now, repeated)
    {
      if !AcceptsFrames() || !session.mode.BackendManaged? || still.lastSourceFrameAt.None? || pendingOutputFrames > 0 {
        return;
      }
      if now - still.lastSourceFrameAt.value < STATIC_FRAME_INITIAL_DELAY {
        return;
      }
      if still.lastRepeatAt.Some? && now - still.lastRepeatAt.value < STATIC_FRAME_REPEAT_INTERVAL {
        return;
      }
      if still.lastPresentationTimeNanos > INT64_MAX - STATIC_FRAME_REPEAT_INTERVAL || !repeated {
        MarkSessionForReset();
        return;
      }
      var presentationTimeNanos := RepeatTime(still.lastPresentationTimeNanos, now);
      pendingOutputFrames := pendingOutputFrames + 1;
      still := StaticFrame(still.lastSourceFrameAt, Some(now), presentationTimeNanos, true,
                           still.repeats + [Repeat(now, presentationTimeNanos)]);
    }
  }
}

/** What the touch input service answers and injects, for every request in every run. */
module InputAnswers {
  import opened Bytes
  import opened Options
  import opened PointerMap
  import opened Float32
  import opened InputStateMachine
  import opened GestureStream
  import opened InputRuns

  // ---------- touches ----------

  /** The touch fits the pointers that are down. */
  predicate FitsPointers(t: Target, e: TouchEvent) {
    if e.action == ACTION_DOWN then !Has(t.pointers, e.pointerId) && |t.pointers| < 32
    else if e.action == ACTION_MOVE || e.action == ACTION_UP then Has(t.pointers, e.pointerId)
    else e.action == ACTION_CANCEL && t.pointers != []
  }

  predicate SetsPointer(e: TouchEvent) { e.action == ACTION_DOWN || e.action == ACTION_MOVE }

  predicate HasValuesOf(p: Pointer, e: TouchEvent) {
    && p.id == e.pointerId && p.state.x == e.x && p.state.y == e.y
    && p.state.pressure == e.pressure && p.state.touchMajor == e.touchMajor
  }

  /** After an applied touch `p` is among the pointers. */
  predicate IsLeft(t: Target, e: TouchEvent, p: Pointer) {
    if p.id == e.pointerId then SetsPointer(e) && HasValuesOf(p, e) else e.action != ACTION_CANCEL && p in t.pointers
  }

  /** The answer to a touch that reaches target `t`, and what it makes of the target. */
  ghost predicate IsAnswered(s: State, t: Target, e: TouchEvent, env: Environment, t': Target, result: OperationResult) {
    && result == (if e.sequence <= t.lastSequence || !FitsPointers(t, e) then InvalidState
                  else if env(|s.log|).ok then Applied else InjectionFailed)
    && SameLease(t, t') && t'.lastSequence == (if e.sequence > t.lastSequence then e.sequence else t.lastSequence)
    && (result != Applied ==> t'.pointers == [])
    && (result == Applied ==> forall p :: p in t'.pointers <==> IsLeft(t, e, p))
  }

  /** Every touch is answered by these rules: it is applied exactly when the lease and the epoch are
      the target's, its number is new, it fits the pointers down and its frame is taken; then the
      pointer it names has its values, or is up, and the others are as they were. Any other touch
      that reaches the target leaves no pointer down. */
  lemma {:induction false} TouchesAreAnswered(ops: seq<Operation>, e: TouchEvent, env: Environment)
    ensures var s := Run(ops, env);
            var (s', result) := Touch(s, e, env);
            if e.targetSlot !in s.targets then (s', result) == (s, InvalidTarget)
            else if e.inputEpoch != s.targets[e.targetSlot].inputEpoch then (s', result) == (s, StaleEpoch)
            else
              && s'.targets == s.targets[e.targetSlot := s'.targets[e.targetSlot]]
              && IsAnswered(s, s.targets[e.targetSlot], e, env, s'.targets[e.targetSlot], result)
  {
    hide Run;
    RunKeeps(ops, env);
    var s := Run(ops, env);
    if e.targetSlot in s.targets {
      assert GoodSlot(s, e.targetSlot);
      hide Inv;
      TargetAnswers(s, s.targets[e.targetSlot], e, env);
      hide TouchTarget;
      hide IsAnswered;
    }
  }

  lemma {:induction false} TargetAnswers(s: State, t: Target, e: TouchEvent, env: Environment)
    requires Sorted(t.pointers)
    ensures var (_, t', result) := TouchTarget(s.log, t, e, env); IsAnswered(s, t, e, env, t', result)
  {
    hide PointerDown;
    hide PointerMove;
    hide PointerUp;
    hide Has;
    var u := t.(lastSequence := e.sequence);
    DownAnswers(s, u, e, env);
    MoveAnswers(s, u, e, env);
    UpAnswers(s, u, e, env);
  }

  /** `u` is the target with the new number. */
  ghost predicate ActsSo(log: seq<Injection>, u: Target, e: TouchEvent, env: Environment, t': Target,
                         result: OperationResult) {
    && result == (if !FitsPointers(u, e) then InvalidState else if env(|log|).ok then Applied else InjectionFailed)
    && SameLease(u, t') && t'.lastSequence == u.lastSequence
    && (result != Applied ==> t'.pointers == [])
    && (result == Applied ==> forall p :: p in t'.pointers <==> IsLeft(u, e, p))
  }

  lemma {:induction false} DownAnswers(s: State, t: Target, e: TouchEvent, env: Environment)
    requires Sorted(t.pointers)
    ensures var (_, t', result) := PointerDown(s.log, t, e, env);
            e.action == ACTION_DOWN ==> ActsSo(s.log, t, e, env, t', result)
  {
    hide PointerDown;
    hide Put;
    hide Sorted;
    hide Has;
    PutHolds(t.pointers, e.pointerId, StateFrom(e));
    DownLeaves(s, t, e, env);
  }

  lemma {:induction false} DownLeaves(s: State, t: Target, e: TouchEvent, env: Environment)
    requires Pointer(e.pointerId, StateFrom(e)) in Put(t.pointers, e.pointerId, StateFrom(e))
    ensures var (_, t', result) := PointerDown(s.log, t, e, env);
            && result == (if Has(t.pointers, e.pointerId) || |t.pointers| >= 32 then InvalidState
                          else if env(|s.log|).ok then Applied else InjectionFailed)
            && SameLease(t, t') && t'.lastSequence == t.lastSequence
            && t'.pointers == if result == Applied then Put(t.pointers, e.pointerId, StateFrom(e)) else []
  {
    hide Put;
    hide Has;
    hide HeadSize;
    var started := if t.pointers == [] then t.(downTimeMillis := env(|s.log|).downTimeMillis) else t;
    var more := started.(pointers := Put(t.pointers, e.pointerId, StateFrom(e)));
    InjectsOrCancels(s.log, more, MOTION_DOWN, env);
    InjectsOrCancels(s.log, more, MOTION_POINTER_DOWN + 256 * HeadSize(more.pointers, e.pointerId), env);
    hide InjectOrCancel;
  }

  lemma {:induction false} MoveAnswers(s: State, t: Target, e: TouchEvent, env: Environment)
    requires Sorted(t.pointers)
    ensures var (_, t', result) := PointerMove(s.log, t, e, env);
            e.action == ACTION_MOVE ==> ActsSo(s.log, t, e, env, t', result)
  {
    PutHolds(t.pointers, e.pointerId, StateFrom(e));
    hide Put;
    hide Sorted;
    hide FramesOf;
  }

  lemma {:induction false} UpAnswers(s: State, t: Target, e: TouchEvent, env: Environment)
    requires Sorted(t.pointers)
    ensures var (_, t', result) := PointerUp(s.log, t, e, env);
            e.action == ACTION_UP ==> ActsSo(s.log, t, e, env, t', result)
  {
    hide PointerUp;
    hide Put;
    hide Remove;
    hide Sorted;
    hide Has;
    if Has(t.pointers, e.pointerId) {
      PutThenRemoveHolds(t.pointers, e.pointerId, StateFrom(e));
    }
    UpLeaves(s, t, e, env);
  }

  lemma {:induction false} UpLeaves(s: State, t: Target, e: TouchEvent, env: Environment)
    requires Has(t.pointers, e.pointerId) ==> Put(t.pointers, e.pointerId, StateFrom(e)) != []
    ensures var (_, t', result) := PointerUp(s.log, t, e, env);
            && result == (if !Has(t.pointers, e.pointerId) then InvalidState
                          else if env(|s.log|).ok then Applied else InjectionFailed)
            && SameLease(t, t') && t'.lastSequence == t.lastSequence
            && t'.pointers == if result == Applied then Remove(Put(t.pointers, e.pointerId, StateFrom(e)), e.pointerId) else []
  {
    hide Put;
    hide Remove;
    hide Has;
    hide HeadSize;
    var moved := t.(pointers := Put(t.pointers, e.pointerId, StateFrom(e)));
    if Has(t.pointers, e.pointerId) {
      InjectsOrCancels(s.log, moved, MOTION_UP, env);
      InjectsOrCancels(s.log, moved, MOTION_POINTER_UP + 256 * HeadSize(moved.pointers, e.pointerId), env);
    }
    hide InjectOrCancel;
  }

  lemma {:induction false} InjectsOrCancels(log: seq<Injection>, t: Target, action: nat, env: Environment)
    requires t.pointers != []
    ensures var (_, t', ok) := InjectOrCancel(log, t, action, env);
            ok == env(|log|).ok && t' == if ok then t else Released(t)
  {
  }

  // ---------- frames ----------

  /** A pointer frame shows a 16-bit position on a display, each operation rounded to a float. */
  ghost predicate ShowsAt(f: PointerFrame, d: TargetDescriptor, x: u16, y: u16, pressure: u16, touchMajor: u16) {
    && f.x == Times(Round(x as real / 65535.0), Round((d.logicalWidth - 1) as real))
    && f.y == Times(Round(y as real / 65535.0), Round((d.logicalHeight - 1) as real))
    && f.pressure == Round(pressure as real / 65535.0) && f.size == Round(touchMajor as real / 65535.0)
    && f.touchMajor == Times(Round(touchMajor as real / 65535.0),
                             Round((if d.logicalWidth <= d.logicalHeight then d.logicalWidth else d.logicalHeight) as real))
  }

  lemma {:induction false} FrameShows(p: Pointer, d: TargetDescriptor)
    requires IsUsable(d)
    ensures ShowsAt(FrameOf(p, d), d, p.state.x, p.state.y, p.state.pressure, p.state.touchMajor)
  {
    hide Round;
    hide Times;
    var f := FrameOf(p, d);
    assert f.x == Times(Share(p.state.x), Round((d.logicalWidth - 1) as real));
    assert f.y == Times(Share(p.state.y), Round((d.logicalHeight - 1) as real));
    assert f.touchMajor == Times(Share(p.state.touchMajor), Round(Min(d.logicalWidth, d.logicalHeight) as real));
  }

  /** The frame shows the touch at its pointer and every other pointer of the target where it was. */
  ghost predicate FrameIsOf(frame: MotionFrame, t: Target, e: TouchEvent) {
    && (exists f :: f in frame.pointers && f.pointerId == e.pointerId)
    && (forall p :: p in t.pointers ==> exists f :: f in frame.pointers && f.pointerId == p.id)
    && forall f :: f in frame.pointers ==>
         if f.pointerId == e.pointerId then ShowsAt(f, t.descriptor, e.x, e.y, e.pressure, e.touchMajor)
         else exists p :: p in t.pointers && p.id == f.pointerId
                && ShowsAt(f, t.descriptor, p.state.x, p.state.y, p.state.pressure, p.state.touchMajor)
  }

  /** A down, move or up that fits is injected first of all: on the target's display, at the time
      the clock says, with the pointer where the touch is and all others where they were. */
  lemma {:induction false} TouchesAreShown(ops: seq<Operation>, e: TouchEvent, env: Environment)
    requires var s := Run(ops, env);
             && e.targetSlot in s.targets && e.inputEpoch == s.targets[e.targetSlot].inputEpoch
             && e.sequence > s.targets[e.targetSlot].lastSequence && FitsPointers(s.targets[e.targetSlot], e)
             && e.action != ACTION_CANCEL
    ensures var s := Run(ops, env);
            var log := Touch(s, e, env).0.log;
            && |log| > |s.log| && log[..|s.log|] == s.log && log[|s.log|].ok == env(|s.log|).ok
            && var frame := log[|s.log|].frame;
            && frame.displayId == s.targets[e.targetSlot].descriptor.displayId
            && frame.eventTimeMillis == env(|s.log|).eventTimeMillis
            && frame.downTimeMillis == DownSince(s.targets[e.targetSlot], env(|s.log|))
            && FrameIsOf(frame, s.targets[e.targetSlot], e)
  {
    hide Run;
    RunKeeps(ops, env);
    var s := Run(ops, env);
    assert GoodSlot(s, e.targetSlot);
    hide Inv;
    var t := s.targets[e.targetSlot];
    FrameOfTouch(s, t, e, env);
    hide TouchTarget;
    hide FrameIsOf;
  }

  /** The down time of a gesture is that of its first pointer. */
  function DownSince(t: Target, answer: Answer): int {
    if t.pointers == [] then answer.downTimeMillis else t.downTimeMillis
  }

  /** The log begins with a frame of these pointers. */
  ghost predicate BeginsWith(log: seq<Injection>, before: seq<Injection>, d: TargetDescriptor, down: int,
                             ps: Pointers, env: Environment) {
    && |log| > |before| && log[..|before|] == before && log[|before|].ok == env(|before|).ok
    && var frame := log[|before|].frame;
    && frame.displayId == d.displayId && frame.downTimeMillis == down && frame.eventTimeMillis == env(|before|).eventTimeMillis
    && frame.pointers == FramesOf(ps, d)
  }

  lemma {:induction false} FrameOfTouch(s: State, t: Target, e: TouchEvent, env: Environment)
    requires Sorted(t.pointers) && IsUsable(t.descriptor)
    requires e.sequence > t.lastSequence && FitsPointers(t, e) && e.action != ACTION_CANCEL
    ensures var log := TouchTarget(s.log, t, e, env).0;
            && BeginsWith(log, s.log, t.descriptor, DownSince(t, env(|s.log|)), Put(t.pointers, e.pointerId, StateFrom(e)), env)
            && FrameIsOf(log[|s.log|].frame, t, e)
  {
    FirstFrame(s, t, e, env);
    PutHolds(t.pointers, e.pointerId, StateFrom(e));
    hide TouchTarget;
    hide Put;
    FramesShow(Put(t.pointers, e.pointerId, StateFrom(e)), t, e,
               FramesOf(Put(t.pointers, e.pointerId, StateFrom(e)), t.descriptor));
  }

  lemma {:induction false} FirstFrame(s: State, t: Target, e: TouchEvent, env: Environment)
    requires e.sequence > t.lastSequence && FitsPointers(t, e) && e.action != ACTION_CANCEL
    ensures BeginsWith(TouchTarget(s.log, t, e, env).0, s.log, t.descriptor, DownSince(t, env(|s.log|)),
                       Put(t.pointers, e.pointerId, StateFrom(e)), env)
  {
    assert Has(t.pointers, e.pointerId) ==> t.pointers != [];
    hide Put;
    hide Remove;
    hide FramesOf;
    hide Has;
    hide HeadSize;
    var u := t.(lastSequence := e.sequence);
    var started := if u.pointers == [] then u.(downTimeMillis := env(|s.log|).downTimeMillis) else u;
    var put := Put(u.pointers, e.pointerId, StateFrom(e));
    ComesFirst(s.log, started.(pointers := put),
               if |put| == 1 then MOTION_DOWN else MOTION_POINTER_DOWN + 256 * HeadSize(put, e.pointerId), env);
    ComesFirst(s.log, u.(pointers := put), MOTION_MOVE, env);
    ComesFirst(s.log, u.(pointers := put),
               if |put| == 1 then MOTION_UP else MOTION_POINTER_UP + 256 * HeadSize(put, e.pointerId), env);
    hide InjectOrCancel;
    hide BeginsWith;
  }

  lemma {:induction false} ComesFirst(log: seq<Injection>, t: Target, action: nat, env: Environment)
    ensures BeginsWith(InjectOrCancel(log, t, action, env).0, log, t.descriptor, t.downTimeMillis, t.pointers, env)
  {
    hide FramesOf;
  }

  lemma {:induction false} FramesAreOf(ps: Pointers, d: TargetDescriptor)
    ensures forall p :: p in ps ==> FrameOf(p, d) in FramesOf(ps, d)
    ensures forall f :: f in FramesOf(ps, d) ==> exists p :: p in ps && f == FrameOf(p, d)
  {
    hide FrameOf;
    var frames := FramesOf(ps, d);
    forall p | p in ps ensures FrameOf(p, d) in frames {
      var i :| 0 <= i < |ps| && ps[i] == p;
      assert frames[i] == FrameOf(p, d);
    }
    forall f | f in frames ensures exists p :: p in ps && f == FrameOf(p, d) {
      var i :| 0 <= i < |frames| && frames[i] == f;
      assert ps[i] in ps;
    }
  }

  lemma {:induction false} FramesShow(ps: Pointers, t: Target, e: TouchEvent, frames: seq<PointerFrame>)
    requires IsUsable(t.descriptor) && frames == FramesOf(ps, t.descriptor)
    requires forall p :: p in ps <==> HasValuesOf(p, e) || (p in t.pointers && p.id != e.pointerId)
    ensures forall frame: MotionFrame :: frame.pointers == frames ==> FrameIsOf(frame, t, e)
  {
    FramesAreOf(ps, t.descriptor);
    forall p: Pointer ensures FrameOf(p, t.descriptor).pointerId == p.id {
      FrameShows(p, t.descriptor);
    }
    forall p: Pointer
      ensures ShowsAt(FrameOf(p, t.descriptor), t.descriptor, p.state.x, p.state.y, p.state.pressure, p.state.touchMajor)
    {
      FrameShows(p, t.descriptor);
    }
    hide FrameOf;
    hide ShowsAt;
    hide FramesOf;
    assert Pointer(e.pointerId, PointerState(e.x, e.y, e.pressure, e.touchMajor)) in ps;
  }

  // ---------- where pointers come from ----------

  /** Operation `k` is an applied touch of pointer `id` under the bind. */
  ghost predicate AppliesAt(ops: seq<Operation>, env: Environment, k: nat, slot: int, bind: int, id: int)
    requires k < |ops|
  {
    var s := Run(ops[..k], env);
    && ops[k].OpTouch? && ops[k].event.targetSlot == slot && ops[k].event.pointerId == id
    && slot in s.targets && s.targets[slot].bind == bind && Touch(s, ops[k].event, env).1 == Applied
  }

  ghost predicate IsLastTouch(ops: seq<Operation>, env: Environment, k: nat, slot: int, bind: int, id: int) {
    k < |ops| && AppliesAt(ops, env, k, slot, bind, id) && forall j :: k < j < |ops| ==> !AppliesAt(ops, env, j, slot, bind, id)
  }

  /** In every run each pointer of a target holds the values of the last touch of its id that was
      applied under the current bind, which is a down or a move. */
  lemma {:induction false} PointersHoldTouches(ops: seq<Operation>, env: Environment, slot: int, p: Pointer)
    requires var s := Run(ops, env); slot in s.targets && p in s.targets[slot].pointers
    ensures exists k: nat :: IsLastTouch(ops, env, k, slot, Run(ops, env).targets[slot].bind, p.id)
                        && SetsPointer(ops[k].event) && HasValuesOf(p, ops[k].event)
  {
    var n, s' := |ops| - 1, Run(ops, env);
    var s, bind := Run(ops[..n], env), s'.targets[slot].bind;
    RunKeeps(ops[..n], env);
    PointerStays(ops[..n], s, ops[n], env, slot, p);
    hide Run;
    hide Apply;
    hide Touch;
    hide Inv;
    if AppliesAt(ops, env, n, slot, bind, p.id) {
      assert IsLastTouch(ops, env, n, slot, bind, p.id);
    } else {
      PointersHoldTouches(ops[..n], env, slot, p);
      var k: nat :| IsLastTouch(ops[..n], env, k, slot, bind, p.id) && SetsPointer(ops[..n][k].event)
                    && HasValuesOf(p, ops[..n][k].event);
      LastTouchStays(ops, env, k, slot, bind, p.id);
    }
  }

  lemma {:induction false} LastTouchStays(ops: seq<Operation>, env: Environment, k: nat, slot: int, bind: int, id: int)
    requires ops != [] && IsLastTouch(ops[..|ops| - 1], env, k, slot, bind, id)
    requires !AppliesAt(ops, env, |ops| - 1, slot, bind, id)
    ensures IsLastTouch(ops, env, k, slot, bind, id)
  {
    hide Run;
    hide Touch;
    var n := |ops| - 1;
    forall j: nat | j < n ensures AppliesAt(ops[..n], env, j, slot, bind, id) <==> AppliesAt(ops, env, j, slot, bind, id) {
      assert ops[..n][..j] == ops[..j];
    }
    hide AppliesAt;
  }

  /** A pointer was there before, unless an applied touch has just set it. */
  lemma {:induction false} PointerStays(ops: seq<Operation>, s: State, op: Operation, env: Environment, slot: int, p: Pointer)
    requires s == Run(ops, env) && slot in Apply(s, op, env).targets && p in Apply(s, op, env).targets[slot].pointers
    ensures var s' := Apply(s, op, env);
            && slot in s.targets && s'.targets[slot].bind == s.targets[slot].bind
            && if op.OpTouch? && op.event.targetSlot == slot && op.event.pointerId == p.id && Touch(s, op.event, env).1 == Applied
               then SetsPointer(op.event) && HasValuesOf(p, op.event)
               else p in s.targets[slot].pointers
  {
    RunKeeps(ops, env);
    hide Run;
    match op
    case OpBind(_, _, _, _) => hide CancelPointers;
    case OpUnbind(_) => hide CancelPointers;
    case OpCancel(other) => CancelTargetKeeps(s, other, env);
    case OpTouch(event) =>
      TouchesAreAnswered(ops, event, env);
      hide Touch;
    case OpDisplayChange(displayId, current) =>
      RemoveTargetsKeeps(s, Invalidated(s, displayId, current), env);
      hide RemoveTargets;
    case OpReset =>
      RemoveTargetsKeeps(s, s.targets.Keys, env);
      hide RemoveTargets;
  }

  // ---------- binds ----------

  predicate IsBadBind(slot: int, mode: int, streamId: int, d: Option<TargetDescriptor>) {
    || slot < 0 || slot > 255 || mode != 0 || streamId == 0 || d.None?
    || d.value.logicalWidth <= 0 || d.value.logicalHeight <= 0
    || !(d.value.rotation == 0 || d.value.rotation == 90 || d.value.rotation == 180 || d.value.rotation == 270)
  }

  predicate IsBoundSo(s: State, slot: int, streamId: int, d: TargetDescriptor) {
    slot in s.targets && s.targets[slot].streamId == streamId && s.targets[slot].descriptor == d
  }

  predicate IsTaken(s: State, slot: int, streamId: int, d: TargetDescriptor) {
    exists other :: other in s.targets && other != slot
      && (s.targets[other].descriptor.displayId == d.displayId || s.targets[other].streamId == streamId)
  }

  /** When a bind is refused, finds nothing to do or takes the lease, with which epoch, and what is
      bound then; a bind that is not applied changes nothing. */
  lemma {:induction false} BindsAreAnswered(s: State, slot: int, mode: int, streamId: int, d: Option<TargetDescriptor>,
                                            env: Environment)
    ensures var (s', o) := BindTarget(s, slot, mode, streamId, d, env);
            var bad := IsBadBind(slot, mode, streamId, d);
            && (o.result == InvalidTarget <==> bad)
            && (o.result == Unchanged <==> !bad && IsBoundSo(s, slot, streamId, d.value))
            && (o.result == TargetBusy <==>
                  !bad && !IsBoundSo(s, slot, streamId, d.value) && IsTaken(s, slot, streamId, d.value))
            && (o.result == Applied <==>
                  !bad && !IsBoundSo(s, slot, streamId, d.value) && !IsTaken(s, slot, streamId, d.value))
            && o.inputEpoch == (if o.result == Applied then s.nextEpoch
                                else if o.result == Unchanged then s.targets[slot].inputEpoch else 0)
            && (o.result != Applied ==> s' == s)
            && (o.result == Applied ==>
                  && s'.targets == s.targets[slot := s'.targets[slot]]
                  && var t := s'.targets[slot];
                  && t.targetSlot == slot && t.streamId == streamId && t.descriptor == d.value && t.pointers == []
                  && t.inputEpoch == s.nextEpoch && t.lastSequence == 0
                  && s'.nextEpoch == (if s.nextEpoch == 0xffff_ffff then 1 else s.nextEpoch + 1))
  {
    hide CancelPointers;
  }

  /** Unbinding frees a slot that is bound and refuses any other; cancelling a slot lifts its pointers
      and keeps its lease; neither touches another slot. */
  lemma {:induction false} UnbindsAreAnswered(ops: seq<Operation>, slot: int, env: Environment)
    ensures var s := Run(ops, env);
            var (s', result) := Unbind(s, slot, env);
            var cancelled := CancelTarget(s, slot, env);
            && result == (if slot in s.targets then Applied else InvalidTarget)
            && s'.targets == s.targets - {slot} && s'.nextEpoch == s.nextEpoch
            && cancelled.targets.Keys == s.targets.Keys
            && (forall other :: other in s.targets && other != slot ==> cancelled.targets[other] == s.targets[other])
            && (slot in s.targets ==>
                  cancelled.targets[slot].pointers == [] && SameLease(s.targets[slot], cancelled.targets[slot]))
            && (slot !in s.targets || s.targets[slot].pointers == [] ==> s'.log == cancelled.log == s.log)
  {
    hide Run;
    RunKeeps(ops, env);
    var s := Run(ops, env);
    CancelTargetKeeps(s, slot, env);
    if slot !in s.targets {
      assert s.targets - {slot} == s.targets;
    }
    hide Inv;
  }
}

/** Target leases and multi-pointer state of the touch input service.

    `State` is the state guarded by the state machine's monitor, with the targets of the slots,
    and three histories: every frame injected with its outcome, every bind, every touch applied. */
module InputStateMachine {
  import opened Bytes
  import opened Options
  import opened PointerMap
  import opened Float32

  datatype OperationResult =
    | Applied | Unchanged | InvalidTarget | TargetBusy | UnknownStream | StaleEpoch | InvalidState | InjectionFailed

  const MODE_EXCLUSIVE := 0

  const ACTION_DOWN := 0
  const ACTION_MOVE := 1
  const ACTION_UP := 2
  const ACTION_CANCEL := 3

  const MOTION_DOWN := 0
  const MOTION_UP := 1
  const MOTION_MOVE := 2
  const MOTION_CANCEL := 3
  const MOTION_POINTER_DOWN := 5
  const MOTION_POINTER_UP := 6

  const MAX_POINTERS := 32
  const EPOCHS := 0xffff_ffff // epochs run through 1..EPOCHS

  datatype TargetDescriptor = TargetDescriptor(
    displayId: int, displayPort: int, logicalWidth: int, logicalHeight: int, rotation: int)

  datatype TouchEvent = TouchEvent(
    targetSlot: int, action: int, pointerId: int, inputEpoch: int, sequence: int,
    x: u16, y: u16, pressure: u16, touchMajor: u16)

  datatype BindOutcome = BindOutcome(
    result: OperationResult, targetSlot: int, streamId: int, inputEpoch: int, descriptor: Option<TargetDescriptor>)

  datatype Reason = DisplayRemoved | GeometryChanged

  datatype InvalidatedTarget = InvalidatedTarget(targetSlot: int, reason: Reason, streamId: int, inputEpoch: int)

  datatype PointerFrame = PointerFrame(pointerId: int, x: real, y: real, pressure: real, size: real, touchMajor: real)

  datatype MotionFrame = MotionFrame(
    displayId: int, downTimeMillis: int, eventTimeMillis: int, action: nat, pointers: seq<PointerFrame>)

  /** One call of the motion sink and what it answered. */
  datatype Injection = Injection(frame: MotionFrame, ok: bool)

  /** What the clock and the sink answer around the k-th injection. */
  datatype Answer = Answer(downTimeMillis: int, eventTimeMillis: int, ok: bool)

  type Environment = nat -> Answer

  /** `bind` is a history variable: the position of the bind that created the target. */
  datatype Target = Target(
    targetSlot: int, streamId: int, inputEpoch: int, descriptor: TargetDescriptor,
    pointers: Pointers, lastSequence: int, downTimeMillis: int, bind: nat)

  datatype Bind = Bind(targetSlot: int, inputEpoch: int)

  /** A touch that passed the lease, epoch and sequence checks, under the bind at `bind`. */
  datatype Admitted = Admitted(bind: nat, sequence: int)

  datatype State = State(
    targets: map<int, Target>, nextEpoch: int,
    log: seq<Injection>, binds: seq<Bind>, admitted: seq<Admitted>)

  const INITIAL: State := State(map[], 1, [], [], [])

  // ---------- frames ----------

  function Min(a: int, b: int): int { if a < b then a else b }

  /** The share of a length, in floats: the quotient, the length and the product are rounded. */
  function Scale(value: u16, length: int): real { Times(Share(value), Round(length as real)) }

  function Share(value: u16): real { Round(value as real / 65535.0) }

  function Normalize(value: u16, dimension: int): real { Scale(value, if dimension > 1 then dimension - 1 else 0) }

  function FrameOf(p: Pointer, d: TargetDescriptor): PointerFrame {
    PointerFrame(p.id, Normalize(p.state.x, d.logicalWidth), Normalize(p.state.y, d.logicalHeight),
                 Share(p.state.pressure), Share(p.state.touchMajor),
                 Scale(p.state.touchMajor, Min(d.logicalWidth, d.logicalHeight)))
  }

  function FramesOf(ps: Pointers, d: TargetDescriptor): (r: seq<PointerFrame>)
    ensures |r| == |ps|
    ensures forall i :: 0 <= i < |ps| ==> r[i] == FrameOf(ps[i], d)
  {
    if ps == [] then [] else FramesOf(ps[..|ps| - 1], d) + [FrameOf(ps[|ps| - 1], d)]
  }

  function FrameIds(fs: seq<PointerFrame>): (ids: seq<int>)
    ensures |ids| == |fs|
    ensures forall i :: 0 <= i < |fs| ==> ids[i] == fs[i].pointerId
  {
    if fs == [] then [] else [fs[0].pointerId] + FrameIds(fs[1..])
  }

  // ---------- operations on one target ----------

  function InjectFrame(log: seq<Injection>, t: Target, action: nat, env: Environment): Injection {
    Injection(MotionFrame(t.descriptor.displayId, t.downTimeMillis, env(|log|).eventTimeMillis, action,
                          FramesOf(t.pointers, t.descriptor)),
              env(|log|).ok)
  }

  function Released(t: Target): Target { t.(pointers := [], downTimeMillis := 0) }

  /** The log, the target and the answer after `cancelPointers`. */
  function CancelPointers(log: seq<Injection>, t: Target, env: Environment): (seq<Injection>, Target, bool) {
    if t.pointers == [] then (log, t, true)
    else
      var frame := InjectFrame(log, t, MOTION_CANCEL, env);
      (log + [frame], Released(t), frame.ok)
  }

  /** Inject a frame; when the sink refuses it, cancel the gesture and fail. */
  function InjectOrCancel(log: seq<Injection>, t: Target, action: nat, env: Environment)
    : (seq<Injection>, Target, bool)
  {
    var frame := InjectFrame(log, t, action, env);
    if frame.ok then (log + [frame], t, true)
    else
      var (log', t', _) := CancelPointers(log + [frame], t, env);
      (log', t', false)
  }

  function StateFrom(e: TouchEvent): PointerState { PointerState(e.x, e.y, e.pressure, e.touchMajor) }

  function Reject(log: seq<Injection>, t: Target, env: Environment): (seq<Injection>, Target, OperationResult) {
    var (log', t', _) := CancelPointers(log, t, env);
    (log', t', InvalidState)
  }

  function PointerDown(log: seq<Injection>, t: Target, e: TouchEvent, env: Environment)
    : (seq<Injection>, Target, OperationResult)
  {
    if Has(t.pointers, e.pointerId) || |t.pointers| >= MAX_POINTERS then Reject(log, t, env)
    else
      var started := if t.pointers == [] then t.(downTimeMillis := env(|log|).downTimeMillis) else t;
      var more := started.(pointers := Put(t.pointers, e.pointerId, StateFrom(e)));
      var action := if |more.pointers| == 1 then MOTION_DOWN
                    else MOTION_POINTER_DOWN + 256 * HeadSize(more.pointers, e.pointerId);
      var (log', t', ok) := InjectOrCancel(log, more, action, env);
      (log', t', if ok then Applied else InjectionFailed)
  }

  function PointerMove(log: seq<Injection>, t: Target, e: TouchEvent, env: Environment)
    : (seq<Injection>, Target, OperationResult)
  {
    if !Has(t.pointers, e.pointerId) then Reject(log, t, env)
    else
      var moved := t.(pointers := Put(t.pointers, e.pointerId, StateFrom(e)));
      var (log', t', ok) := InjectOrCancel(log, moved, MOTION_MOVE, env);
      (log', t', if ok then Applied else InjectionFailed)
  }

  function PointerUp(log: seq<Injection>, t: Target, e: TouchEvent, env: Environment)
    : (seq<Injection>, Target, OperationResult)
  {
    if !Has(t.pointers, e.pointerId) then Reject(log, t, env)
    else
      var moved := t.(pointers := Put(t.pointers, e.pointerId, StateFrom(e)));
      var action := if |moved.pointers| == 1 then MOTION_UP
                    else MOTION_POINTER_UP + 256 * HeadSize(moved.pointers, e.pointerId);
      var (log', t', ok) := InjectOrCancel(log, moved, action, env);
      if !ok then (log', t', InjectionFailed)
      else
        var left := t'.(pointers := Remove(t'.pointers, e.pointerId));
        (log', if left.pointers == [] then Released(left) else left, Applied)
  }

  function CancelAll(log: seq<Injection>, t: Target, env: Environment): (seq<Injection>, Target, OperationResult) {
    if t.pointers == [] then (log, t, InvalidState)
    else
      var (log', t', ok) := CancelPointers(log, t, env);
      (log', t', if ok then Applied else InjectionFailed)
  }

  /** A touch on a bound target whose epoch matches. */
  function TouchTarget(log: seq<Injection>, t: Target, e: TouchEvent, env: Environment)
    : (seq<Injection>, Target, OperationResult)
  {
    if e.sequence <= t.lastSequence then Reject(log, t, env)
    else
      var u := t.(lastSequence := e.sequence);
      if e.action == ACTION_DOWN then PointerDown(log, u, e, env)
      else if e.action == ACTION_MOVE then PointerMove(log, u, e, env)
      else if e.action == ACTION_UP then PointerUp(log, u, e, env)
      else if e.action == ACTION_CANCEL then CancelAll(log, u, env)
      else Reject(log, u, env)
  }

  // ---------- operations on the whole state ----------

  function Touch(s: State, e: TouchEvent, env: Environment): (State, OperationResult) {
    if e.targetSlot !in s.targets then (s, InvalidTarget)
    else
      var t := s.targets[e.targetSlot];
      if e.inputEpoch != t.inputEpoch then (s, StaleEpoch)
      else
        var (log, t', result) := TouchTarget(s.log, t, e, env);
        (s.(targets := s.targets[e.targetSlot := t'], log := log,
            admitted := if e.sequence > t.lastSequence then s.admitted + [Admitted(t.bind, e.sequence)] else s.admitted),
         result)
  }

  predicate IsKnownRotation(rotation: int) {
    rotation == 0 || rotation == 90 || rotation == 180 || rotation == 270
  }

  predicate IsUsable(d: TargetDescriptor) {
    d.logicalWidth > 0 && d.logicalHeight > 0 && IsKnownRotation(d.rotation)
  }

  predicate Conflicts(s: State, slot: int, streamId: int, displayId: int) {
    exists other :: other in s.targets && other != slot
      && (s.targets[other].descriptor.displayId == displayId || s.targets[other].streamId == streamId)
  }

  function NextEpoch(epoch: int): int { if epoch == EPOCHS then 1 else epoch + 1 }

  function BindTarget(s: State, slot: int, mode: int, streamId: int, descriptor: Option<TargetDescriptor>,
                      env: Environment): (State, BindOutcome)
  {
    if slot < 0 || slot > 255 || mode != MODE_EXCLUSIVE || streamId == 0 || descriptor.None?
       || !IsUsable(descriptor.value)
    then (s, BindOutcome(InvalidTarget, slot, streamId, 0, descriptor))
    else if slot in s.targets && s.targets[slot].streamId == streamId && s.targets[slot].descriptor == descriptor.value
    then (s, BindOutcome(Unchanged, slot, streamId, s.targets[slot].inputEpoch, descriptor))
    else if Conflicts(s, slot, streamId, descriptor.value.displayId)
    then (s, BindOutcome(TargetBusy, slot, streamId, 0, descriptor))
    else
      var log := if slot in s.targets then CancelPointers(s.log, s.targets[slot], env).0 else s.log;
      var created := Target(slot, streamId, s.nextEpoch, descriptor.value, [], 0, 0, |s.binds|);
      (s.(targets := s.targets[slot := created], log := log, nextEpoch := NextEpoch(s.nextEpoch),
          binds := s.binds + [Bind(slot, s.nextEpoch)]),
       BindOutcome(Applied, slot, streamId, s.nextEpoch, descriptor))
  }

  function Unbind(s: State, slot: int, env: Environment): (State, OperationResult) {
    if slot !in s.targets then (s, InvalidTarget)
    else (s.(targets := s.targets - {slot}, log := CancelPointers(s.log, s.targets[slot], env).0), Applied)
  }

  function CancelTarget(s: State, slot: int, env: Environment): State {
    if slot !in s.targets then s
    else
      var (log, t, _) := CancelPointers(s.log, s.targets[slot], env);
      s.(targets := s.targets[slot := t], log := log)
  }

  predicate IsInvalidated(t: Target, displayId: int, current: Option<TargetDescriptor>) {
    t.descriptor.displayId == displayId && (current.None? || t.descriptor != current.value)
  }

  /** Cancel, in slot order, the targets below `n` that `remove` selects. */
  function CancelBelow(s: State, n: nat, remove: set<int>, env: Environment): State {
    if n == 0 then s
    else
      var before := CancelBelow(s, n - 1, remove, env);
      if n - 1 in remove then CancelTarget(before, n - 1, env) else before
  }

  function Invalidated(s: State, displayId: int, current: Option<TargetDescriptor>): set<int> {
    set slot | slot in s.targets && IsInvalidated(s.targets[slot], displayId, current)
  }

  function Notices(s: State, n: nat, remove: set<int>, reason: Reason): seq<InvalidatedTarget> {
    if n == 0 then []
    else
      Notices(s, n - 1, remove, reason) +
      (if n - 1 in remove && n - 1 in s.targets
       then [InvalidatedTarget(n - 1, reason, s.targets[n - 1].streamId, s.targets[n - 1].inputEpoch)] else [])
  }

  function RemoveTargets(s: State, remove: set<int>, env: Environment): State {
    var cancelled := CancelBelow(s, 256, remove, env);
    cancelled.(targets := cancelled.targets - remove)
  }

  function DisplayChange(s: State, displayId: int, current: Option<TargetDescriptor>, env: Environment)
    : (State, seq<InvalidatedTarget>)
  {
    var remove := Invalidated(s, displayId, current);
    (RemoveTargets(s, remove, env),
     Notices(s, 256, remove, if current.None? then DisplayRemoved else GeometryChanged))
  }

  function ResetAll(s: State, env: Environment): State { RemoveTargets(s, s.targets.Keys, env) }

  datatype Operation =
    | OpBind(slot: int, mode: int, streamId: int, descriptor: Option<TargetDescriptor>)
    | OpUnbind(slot: int)
    | OpCancel(slot: int)
    | OpTouch(event: TouchEvent)
    | OpDisplayChange(displayId: int, current: Option<TargetDescriptor>)
    | OpReset

  function Apply(s: State, op: Operation, env: Environment): State {
    match op
    case OpBind(slot, mode, streamId, descriptor) => BindTarget(s, slot, mode, streamId, descriptor, env).0
    case OpUnbind(slot) => Unbind(s, slot, env).0
    case OpCancel(slot) => CancelTarget(s, slot, env)
    case OpTouch(event) => Touch(s, event, env).0
    case OpDisplayChange(displayId, current) => DisplayChange(s, displayId, current, env).0
    case OpReset => ResetAll(s, env)
  }

  function Run(ops: seq<Operation>, env: Environment): State {
    if ops == [] then INITIAL else Apply(Run(ops[..|ops| - 1], env), ops[|ops| - 1], env)
  }
}

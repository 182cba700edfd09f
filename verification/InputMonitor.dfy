/** The touch input service as objects: a monitor over the targets it leases.

    Every method does to the objects what the function of the same name in `InputStateMachine`
    does to their abstract value. */
module InputMonitor {
  import opened Options
  import opened PointerMap
  import S = InputStateMachine
  import opened GestureStream
  import opened InputRuns

  /** The clock and the motion sink; `log` is what they were asked to inject. */
  class World {
    const env: S.Environment
    var log: seq<S.Injection>

    constructor (env: S.Environment)
      ensures this.env == env && log == []
    {
      this.env := env;
      log := [];
    }

    method UptimeAtDown() returns (t: int)
      ensures t == env(|log|).downTimeMillis
    {
      t := env(|log|).downTimeMillis;
    }

    method UptimeAtEvent() returns (t: int)
      ensures t == env(|log|).eventTimeMillis
    {
      t := env(|log|).eventTimeMillis;
    }

    method Inject(frame: S.MotionFrame) returns (ok: bool)
      modifies this
      ensures ok == old(env(|log|).ok) && log == old(log) + [S.Injection(frame, ok)]
    {
      ok := env(|log|).ok;
      log := log + [S.Injection(frame, ok)];
    }
  }

  class TargetState {
    const targetSlot: int
    const streamId: int
    const inputEpoch: int
    const descriptor: S.TargetDescriptor
    var pointers: Pointers
    var lastSequence: int
    var downTimeMillis: int
    ghost const bind: nat

    ghost function Value(): S.Target
      reads this
    {
      S.Target(targetSlot, streamId, inputEpoch, descriptor, pointers, lastSequence, downTimeMillis, bind)
    }

    constructor (targetSlot: int, streamId: int, inputEpoch: int, descriptor: S.TargetDescriptor, ghost bind: nat)
      ensures Value() == S.Target(targetSlot, streamId, inputEpoch, descriptor, [], 0, 0, bind)
    {
      this.targetSlot, this.streamId, this.inputEpoch := targetSlot, streamId, inputEpoch;
      this.descriptor, this.bind := descriptor, bind;
      pointers, lastSequence, downTimeMillis := [], 0, 0;
    }

    /** Inject one frame with all pointers, in ascending order of their ids. */
    method Inject(world: World, action: nat) returns (ok: bool)
      modifies world
      ensures var i := S.InjectFrame(old(world.log), Value(), action, world.env);
              ok == i.ok && world.log == old(world.log) + [i]
    {
      var frames: seq<S.PointerFrame> := [];
      for k := 0 to |pointers|
        invariant world.log == old(world.log) && frames == S.FramesOf(pointers[..k], descriptor)
      {
        assert pointers[..k + 1][..k] == pointers[..k];
        frames := frames + [S.FrameOf(pointers[k], descriptor)];
      }
      assert pointers[..|pointers|] == pointers;
      var eventTimeMillis := world.UptimeAtEvent();
      ok := world.Inject(S.MotionFrame(descriptor.displayId, downTimeMillis, eventTimeMillis, action, frames));
    }

    method CancelPointers(world: World) returns (ok: bool)
      modifies this, world
      ensures (world.log, Value(), ok) == S.CancelPointers(old(world.log), old(Value()), world.env)
    {
      if pointers == [] {
        return true;
      }
      ok := Inject(world, S.MOTION_CANCEL);
      pointers := [];
      downTimeMillis := 0;
    }

    /** Inject a frame; when it is refused, cancel the gesture. */
    method InjectOrCancel(world: World, action: nat) returns (ok: bool)
      modifies this, world
      ensures (world.log, Value(), ok) == S.InjectOrCancel(old(world.log), old(Value()), action, world.env)
    {
      hide S.FramesOf;
      ok := Inject(world, action);
      if !ok {
        var _ := CancelPointers(world);
      }
    }

    method PointerDown(world: World, e: S.TouchEvent) returns (result: S.OperationResult)
      modifies this, world
      ensures (world.log, Value(), result) == S.PointerDown(old(world.log), old(Value()), e, world.env)
    {
      hide S.InjectOrCancel;
      hide S.CancelPointers;
      hide Put;
      hide Remove;
      hide Has;
      if Has(pointers, e.pointerId) || |pointers| >= S.MAX_POINTERS {
        var _ := CancelPointers(world);
        return S.InvalidState;
      }
      if pointers == [] {
        downTimeMillis := world.UptimeAtDown();
      }
      pointers := Put(pointers, e.pointerId, S.StateFrom(e));
      var index := HeadSize(pointers, e.pointerId);
      var action := if |pointers| == 1 then S.MOTION_DOWN else S.MOTION_POINTER_DOWN + 256 * index;
      var ok := InjectOrCancel(world, action);
      if !ok {
        return S.InjectionFailed;
      }
      result := S.Applied;
    }

    method PointerMove(world: World, e: S.TouchEvent) returns (result: S.OperationResult)
      modifies this, world
      ensures (world.log, Value(), result) == S.PointerMove(old(world.log), old(Value()), e, world.env)
    {
      hide S.InjectOrCancel;
      hide S.CancelPointers;
      hide Put;
      hide Remove;
      hide Has;
      if !Has(pointers, e.pointerId) {
        var _ := CancelPointers(world);
        return S.InvalidState;
      }
      pointers := Put(pointers, e.pointerId, S.StateFrom(e));
      var ok := InjectOrCancel(world, S.MOTION_MOVE);
      if !ok {
        return S.InjectionFailed;
      }
      result := S.Applied;
    }

    method PointerUp(world: World, e: S.TouchEvent) returns (result: S.OperationResult)
      modifies this, world
      ensures (world.log, Value(), result) == S.PointerUp(old(world.log), old(Value()), e, world.env)
    {
      hide S.InjectOrCancel;
      hide S.CancelPointers;
      hide Put;
      hide Remove;
      hide Has;
      if !Has(pointers, e.pointerId) {
        var _ := CancelPointers(world);
        return S.InvalidState;
      }
      pointers := Put(pointers, e.pointerId, S.StateFrom(e));
      var index := HeadSize(pointers, e.pointerId);
      var action := if |pointers| == 1 then S.MOTION_UP else S.MOTION_POINTER_UP + 256 * index;
      var ok := InjectOrCancel(world, action);
      if !ok {
        return S.InjectionFailed;
      }
      pointers := Remove(pointers, e.pointerId);
      if pointers == [] {
        downTimeMillis := 0;
      }
      result := S.Applied;
    }

    /** A touch whose epoch matches. */
    method OnTouch(world: World, e: S.TouchEvent) returns (result: S.OperationResult)
      modifies this, world
      ensures (world.log, Value(), result) == S.TouchTarget(old(world.log), old(Value()), e, world.env)
    {
      hide S.PointerDown;
      hide S.PointerMove;
      hide S.PointerUp;
      if e.sequence <= lastSequence {
        var _ := CancelPointers(world);
        return S.InvalidState;
      }
      lastSequence := e.sequence;
      if e.action == S.ACTION_DOWN {
        result := PointerDown(world, e);
      } else if e.action == S.ACTION_MOVE {
        result := PointerMove(world, e);
      } else if e.action == S.ACTION_UP {
        result := PointerUp(world, e);
      } else if e.action == S.ACTION_CANCEL {
        if pointers == [] {
          return S.InvalidState;
        }
        var ok := CancelPointers(world);
        result := if ok then S.Applied else S.InjectionFailed;
      } else {
        var _ := CancelPointers(world);
        result := S.InvalidState;
      }
    }
  }

  function SetOf(slots: seq<int>): (r: set<int>)
    ensures forall slot :: slot in r <==> slot in slots
  {
    set slot | slot in slots
  }

  class StateMachine {
    const world: World
    var targets: map<int, TargetState>
    var nextEpoch: int
    ghost var binds: seq<S.Bind>
    ghost var admitted: seq<S.Admitted>

    /** The targets themselves. */
    ghost function Objects(): set<TargetState>
      reads this
    {
      set slot | slot in targets :: targets[slot]
    }

    ghost predicate Valid()
      reads this, Objects()
    {
      forall slot :: slot in targets ==> 0 <= slot <= 255 && targets[slot].targetSlot == slot
    }

    ghost function Abs(): S.State
      reads this, world, Objects()
    {
      S.State(map slot | slot in targets :: targets[slot].Value(), nextEpoch, world.log, binds, admitted)
    }

    /** Every slot holds the object it held, or a new one. */
    twostate predicate SameOrFresh()
      reads this
    {
      forall slot :: slot in targets ==>
        fresh(targets[slot]) || (slot in old(targets) && old(targets)[slot] == targets[slot])
    }

    /** What happens to the target of one slot happens to no other. */
    twostate lemma OthersKeepValue(slot: int)
      requires old(Valid()) && Valid()
      requires forall o :: o in targets && o != slot ==> o in old(targets) && old(targets)[o] == targets[o]
      requires forall o :: o in old(targets) && o != slot ==> unchanged(old(targets[o]))
      ensures forall o :: o in targets && o != slot ==> Abs().targets[o] == old(Abs()).targets[o]
    {
    }

    constructor (world: World)
      requires world.log == []
      ensures Valid() && Abs() == S.INITIAL && this.world == world && targets == map[]
    {
      this.world := world;
      targets, nextEpoch, binds, admitted := map[], 1, [], [];
    }

    method AllocateEpoch() returns (epoch: int)
      modifies this`nextEpoch
      ensures epoch == old(nextEpoch) && nextEpoch == S.NextEpoch(epoch)
    {
      epoch := nextEpoch;
      nextEpoch := if nextEpoch == S.EPOCHS then 1 else nextEpoch + 1;
    }

    method IsBusy(slot: int, streamId: int, displayId: int) returns (busy: bool)
      requires Valid()
      ensures busy == S.Conflicts(Abs(), slot, streamId, displayId)
    {
      for other := 0 to 256
        invariant forall o :: 0 <= o < other && o in targets && o != slot ==>
          targets[o].descriptor.displayId != displayId && targets[o].streamId != streamId
      {
        if other in targets {
          var candidate := targets[other];
          if candidate.targetSlot != slot
             && (candidate.descriptor.displayId == displayId || candidate.streamId == streamId) {
            assert other in Abs().targets && Abs().targets[other].streamId == candidate.streamId;
            return true;
          }
        }
      }
      busy := false;
    }

    method Bind(slot: int, mode: int, streamId: int, descriptor: Option<S.TargetDescriptor>)
      returns (outcome: S.BindOutcome)
      requires Valid()
      modifies this, world, Objects()
      ensures Valid() && (Abs(), outcome) == S.BindTarget(old(Abs()), slot, mode, streamId, descriptor, world.env)
      ensures SameOrFresh()
    {
      if slot < 0 || slot > 255 || mode != S.MODE_EXCLUSIVE || streamId == 0 || descriptor.None?
         || !S.IsUsable(descriptor.value)
      {
        return S.BindOutcome(S.InvalidTarget, slot, streamId, 0, descriptor);
      }
      if slot in targets && targets[slot].streamId == streamId && targets[slot].descriptor == descriptor.value {
        return S.BindOutcome(S.Unchanged, slot, streamId, targets[slot].inputEpoch, descriptor);
      }
      var busy := IsBusy(slot, streamId, descriptor.value.displayId);
      if busy {
        return S.BindOutcome(S.TargetBusy, slot, streamId, 0, descriptor);
      }
      if slot in targets {
        Release(slot);
      }
      var epoch := Add(slot, streamId, descriptor.value);
      assert Abs().targets == old(Abs()).targets[slot := Abs().targets[slot]];
      outcome := S.BindOutcome(S.Applied, slot, streamId, epoch, descriptor);
    }

    /** Cancel and remove the target of a slot. */
    method Release(slot: int)
      requires Valid() && slot in targets
      modifies this`targets, world, Objects()
      ensures Valid() && slot !in targets && targets == old(targets) - {slot}
      ensures Abs() == old(Abs()).(targets := old(Abs()).targets - {slot},
                                   log := S.CancelPointers(old(world.log), old(targets[slot].Value()), world.env).0)
    {
      hide S.CancelPointers;
      var _ := targets[slot].CancelPointers(world);
      targets := targets - {slot};
      OthersKeepValue(slot);
      assert Abs().targets == old(Abs()).targets - {slot};
    }

    /** Give a free slot a new target. */
    method Add(slot: int, streamId: int, descriptor: S.TargetDescriptor) returns (epoch: int)
      requires Valid() && 0 <= slot <= 255 && slot !in targets
      modifies this
      ensures Valid() && epoch == old(nextEpoch)
      ensures slot in targets && fresh(targets[slot]) && targets == old(targets)[slot := targets[slot]]
      ensures Abs() == S.State(
        old(Abs()).targets[slot := S.Target(slot, streamId, epoch, descriptor, [], 0, 0, |old(binds)|)],
        S.NextEpoch(epoch), old(world.log), old(binds) + [S.Bind(slot, epoch)], old(admitted))
    {
      hide S.NextEpoch;
      epoch := AllocateEpoch();
      var created := new TargetState(slot, streamId, epoch, descriptor, |binds|);
      targets := targets[slot := created];
      binds := binds + [S.Bind(slot, epoch)];
      OthersKeepValue(slot);
      assert Abs().targets == old(Abs()).targets[slot := created.Value()];
    }

    method Unbind(slot: int) returns (result: S.OperationResult)
      requires Valid()
      modifies this, world, Objects()
      ensures Valid() && targets == old(targets) - {slot}
      ensures (Abs(), result) == S.Unbind(old(Abs()), slot, world.env)
    {
      if slot !in targets {
        return S.InvalidTarget;
      }
      var target := targets[slot];
      targets := targets - {slot};
      var _ := target.CancelPointers(world);
      OthersKeepValue(slot);
      assert Abs().targets == old(Abs()).targets - {slot};
      result := S.Applied;
    }

    method CancelTarget(slot: int)
      requires Valid()
      modifies world, Objects()
      ensures Valid() && Abs() == S.CancelTarget(old(Abs()), slot, world.env)
    {
      if slot in targets {
        var _ := targets[slot].CancelPointers(world);
        OthersKeepValue(slot);
        assert Abs().targets == old(Abs()).targets[slot := targets[slot].Value()];
      }
    }

    method OnTouch(e: S.TouchEvent) returns (result: S.OperationResult)
      requires Valid()
      modifies this`admitted, world, Objects()
      ensures Valid() && (Abs(), result) == S.Touch(old(Abs()), e, world.env)
    {
      hide S.TouchTarget;
      if e.targetSlot !in targets {
        return S.InvalidTarget;
      }
      var target := targets[e.targetSlot];
      if e.inputEpoch != target.inputEpoch {
        return S.StaleEpoch;
      }
      if e.sequence > target.lastSequence {
        admitted := admitted + [S.Admitted(target.bind, e.sequence)];
      }
      result := target.OnTouch(world, e);
      OthersKeepValue(e.targetSlot);
      assert Abs().targets == old(Abs()).targets[e.targetSlot := target.Value()];
    }

    /** Cancel the targets a display change invalidates, and list them. */
    method CancelInvalidated(displayId: int, current: Option<S.TargetDescriptor>, reason: S.Reason)
      returns (slotsToRemove: seq<int>, invalidated: seq<S.InvalidatedTarget>)
      requires Valid()
      modifies world, Objects()
      ensures Valid()
      ensures var remove := S.Invalidated(old(Abs()), displayId, current);
              && Abs() == S.CancelBelow(old(Abs()), 256, remove, world.env)
              && invalidated == S.Notices(old(Abs()), 256, remove, reason)
              && SetOf(slotsToRemove) == remove
    {
      ghost var before := Abs();
      ghost var remove := S.Invalidated(before, displayId, current);
      slotsToRemove, invalidated := [], [];
      hide S.CancelTarget;
      for slot := 0 to 256
        invariant Valid()
        invariant Abs() == S.CancelBelow(before, slot, remove, world.env)
        invariant invalidated == S.Notices(before, slot, remove, reason)
        invariant forall k :: k in slotsToRemove <==> k in remove && k < slot
      {
        if slot in targets && targets[slot].descriptor.displayId == displayId
           && (current.None? || targets[slot].descriptor != current.value) {
          var target := targets[slot];
          CancelTarget(slot);
          slotsToRemove := slotsToRemove + [target.targetSlot];
          invalidated := invalidated + [S.InvalidatedTarget(target.targetSlot, reason, target.streamId, target.inputEpoch)];
        }
      }
      forall slot ensures slot in SetOf(slotsToRemove) <==> slot in remove {
        assert slot in remove ==> slot in old(targets);
      }
    }

    method RemoveSlots(slots: seq<int>)
      requires Valid()
      modifies this`targets
      ensures Valid() && Abs() == old(Abs()).(targets := old(Abs()).targets - SetOf(slots)) && SameOrFresh()
    {
      for k := 0 to |slots|
        invariant Valid() && targets == old(targets) - SetOf(slots[..k])
      {
        targets := targets - {slots[k]};
        assert slots[..k + 1] == slots[..k] + [slots[k]];
      }
      assert slots[..|slots|] == slots;
    }

    method HandleDisplayChange(displayId: int, current: Option<S.TargetDescriptor>)
      returns (invalidated: seq<S.InvalidatedTarget>)
      requires Valid()
      modifies this`targets, world, Objects()
      ensures Valid() && (Abs(), invalidated) == S.DisplayChange(old(Abs()), displayId, current, world.env)
      ensures SameOrFresh()
    {
      hide S.CancelBelow;
      hide S.Notices;
      var slotsToRemove: seq<int>;
      slotsToRemove, invalidated :=
        CancelInvalidated(displayId, current, if current.None? then S.DisplayRemoved else S.GeometryChanged);
      RemoveSlots(slotsToRemove);
    }

    method ResetAll()
      requires Valid()
      modifies this`targets, world, Objects()
      ensures Valid() && Abs() == S.ResetAll(old(Abs()), world.env) && targets == map[]
    {
      ghost var before := Abs();
      for slot := 0 to 256
        invariant targets == old(targets) && Valid()
        invariant Abs() == S.CancelBelow(before, slot, before.targets.Keys, world.env)
      {
        if slot in targets {
          CancelTarget(slot);
        }
      }
      targets := map[];
    }

    /** One call on the monitor. */
    method Perform(operation: S.Operation)
      requires Valid()
      modifies this, world, Objects()
      ensures Valid() && Abs() == S.Apply(old(Abs()), operation, world.env)
      ensures SameOrFresh()
    {
      match operation
      case OpBind(slot, mode, streamId, descriptor) => var _ := Bind(slot, mode, streamId, descriptor);
      case OpUnbind(slot) => var _ := Unbind(slot);
      case OpCancel(slot) => CancelTarget(slot);
      case OpTouch(event) => var _ := OnTouch(event);
      case OpDisplayChange(displayId, current) => var _ := HandleDisplayChange(displayId, current);
      case OpReset => ResetAll();
    }
  }

  /** Whatever is asked of a new monitor, it is in the state of a run, and what every run keeps holds
      of its targets and of the frames it had injected. */
  method Serve(world: World, operations: seq<S.Operation>) returns (monitor: StateMachine)
    requires world.log == []
    modifies world
    ensures monitor.Valid() && monitor.world == world && monitor.Abs() == S.Run(operations, world.env)
    ensures Inv(monitor.Abs())
  {
    monitor := new StateMachine(world);
    for k := 0 to |operations|
      invariant monitor.Valid() && monitor.world == world && fresh(monitor)
      invariant forall slot :: slot in monitor.targets ==> fresh(monitor.targets[slot])
      invariant monitor.Abs() == S.Run(operations[..k], world.env)
    {
      assert operations[..k + 1][..k] == operations[..k];
      monitor.Perform(operations[k]);
    }
    assert operations[..|operations|] == operations;
    RunKeeps(operations, world.env);
  }
}

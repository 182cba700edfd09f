/** The frames injected on each display form a multi-touch gesture stream. */
module GestureStream {
  import opened Options
  import opened PointerMap
  import opened InputStateMachine

  /** A receiver of motion frames: the pointers down, in ascending order, since when, and whether
      the last frame was refused so that only a cancellation may follow. */
  datatype Gesture = NoGesture | Gesture(ids: seq<int>, downTimeMillis: int, mustCancel: bool)

  /** One frame; `None` when it does not fit the gesture so far. */
  function GestureStep(g: Gesture, i: Injection): Option<Gesture> {
    var ids, action := FrameIds(i.frame.pointers), i.frame.action;
    var index := action / 256;
    if action == MOTION_DOWN then
      if g.NoGesture? && |ids| == 1 then Some(Gesture(ids, i.frame.downTimeMillis, !i.ok)) else None
    else if g.NoGesture? || i.frame.downTimeMillis != g.downTimeMillis then None
    else if action == MOTION_CANCEL then
      if ids == g.ids then Some(NoGesture) else None
    else if g.mustCancel then None
    else if action == MOTION_MOVE then
      if ids == g.ids then Some(g.(mustCancel := !i.ok)) else None
    else if action == MOTION_UP then
      if ids == g.ids && |ids| == 1 then Some(if i.ok then NoGesture else g.(mustCancel := true)) else None
    else if action % 256 == MOTION_POINTER_DOWN then
      if |ids| > 1 && index < |ids| && WithoutIndex(ids, index) == g.ids && Ascending(ids)
      then Some(Gesture(ids, g.downTimeMillis, !i.ok)) else None
    else if action % 256 == MOTION_POINTER_UP then
      if ids == g.ids && |ids| > 1 && index < |ids|
      then Some(if i.ok then g.(ids := WithoutIndex(ids, index)) else g.(mustCancel := true)) else None
    else None
  }

  /** All frames of one display, in order. */
  function GestureOf(log: seq<Injection>, displayId: int): Option<Gesture> {
    if log == [] then Some(NoGesture)
    else
      var before, last := GestureOf(log[..|log| - 1], displayId), log[|log| - 1];
      if last.frame.displayId != displayId then before
      else if before.None? then None
      else GestureStep(before.value, last)
  }

  /** A refused frame that is no cancellation is followed at once by the cancellation of the same
      pointers. */
  ghost predicate FailuresCancelled(log: seq<Injection>) {
    forall k :: 0 <= k < |log| && !log[k].ok && log[k].frame.action != MOTION_CANCEL ==> CancelledNext(log, k)
  }

  predicate CancelledNext(log: seq<Injection>, k: nat) {
    && k + 1 < |log|
    && log[k + 1].frame.action == MOTION_CANCEL
    && log[k + 1].frame.displayId == log[k].frame.displayId
    && log[k + 1].frame.downTimeMillis == log[k].frame.downTimeMillis
    && FrameIds(log[k + 1].frame.pointers) == FrameIds(log[k].frame.pointers)
  }

  /** The gesture a target has open. */
  function GestureFor(t: Target): Gesture {
    if t.pointers == [] then NoGesture else Gesture(Ids(t.pointers), t.downTimeMillis, false)
  }

  ghost predicate GoodTarget(t: Target) { Sorted(t.pointers) && |t.pointers| <= MAX_POINTERS }

  /** The log shows the target's gesture as open, and every failure so far as cancelled. */
  ghost predicate Shows(log: seq<Injection>, t: Target) {
    GestureOf(log, t.descriptor.displayId) == Some(GestureFor(t))
  }

  /** The log grew by frames of one display only. */
  ghost predicate GrowsOn(log: seq<Injection>, log': seq<Injection>, displayId: int) {
    && log <= log'
    && forall other :: other != displayId ==> GestureOf(log', other) == GestureOf(log, other)
  }

  // ---------- one target ----------

  lemma {:induction false} FrameIdsAre(ps: Pointers, d: TargetDescriptor)
    ensures FrameIds(FramesOf(ps, d)) == Ids(ps)
  {
  }

  lemma {:induction false} OneMore(log: seq<Injection>, i: Injection)
    ensures GrowsOn(log, log + [i], i.frame.displayId)
    ensures GestureOf(log + [i], i.frame.displayId)
            == if GestureOf(log, i.frame.displayId).None? then None
               else GestureStep(GestureOf(log, i.frame.displayId).value, i)
  {
    assert (log + [i])[..|log + [i]| - 1] == log;
  }

  lemma {:induction false} GrowsOnTwice(a: seq<Injection>, b: seq<Injection>, c: seq<Injection>, displayId: int)
    requires GrowsOn(a, b, displayId) && GrowsOn(b, c, displayId)
    ensures GrowsOn(a, c, displayId)
  {
  }

  /** `cancelPointers` closes the gesture whatever the sink answers. */
  lemma {:induction false} CancelCloses(log: seq<Injection>, t: Target, env: Environment)
    requires FailuresCancelled(log) && Shows(log, t)
    ensures var (log', t', _) := CancelPointers(log, t, env);
            && FailuresCancelled(log') && GrowsOn(log, log', t.descriptor.displayId)
            && t'.pointers == [] && t' == (if t.pointers == [] then t else Released(t)) && Shows(log', t')
  {
    if t.pointers != [] {
      var i := InjectFrame(log, t, MOTION_CANCEL, env);
      FrameIdsAre(t.pointers, t.descriptor);
      OneMore(log, i);
      FailuresGrow(log, i);
    }
  }

  lemma {:induction false} FailuresGrow(log: seq<Injection>, i: Injection)
    requires FailuresCancelled(log) && (i.ok || i.frame.action == MOTION_CANCEL)
    ensures FailuresCancelled(log + [i])
  {
    forall k | 0 <= k < |log + [i]| && !(log + [i])[k].ok && (log + [i])[k].frame.action != MOTION_CANCEL
      ensures CancelledNext(log + [i], k)
    {
      assert CancelledNext(log, k);
    }
  }

  /** A frame the receiver expects either is taken, or is refused and the gesture cancelled. */
  lemma {:induction false} InjectOrCancelFits(log: seq<Injection>, t: Target, action: nat, env: Environment)
    requires FailuresCancelled(log) && t.pointers != [] && action != MOTION_CANCEL
    requires GestureOf(log, t.descriptor.displayId).Some?
    requires var step := GestureStep(GestureOf(log, t.descriptor.displayId).value, InjectFrame(log, t, action, env));
             step.Some? && (!env(|log|).ok ==> step.value == Gesture(Ids(t.pointers), t.downTimeMillis, true))
    ensures var (log', t', ok) := InjectOrCancel(log, t, action, env);
            && FailuresCancelled(log') && GrowsOn(log, log', t.descriptor.displayId)
            && ok == env(|log|).ok
            && (ok ==>
                  && t' == t
                  && GestureOf(log', t.descriptor.displayId)
                     == GestureStep(GestureOf(log, t.descriptor.displayId).value, InjectFrame(log, t, action, env)))
            && (!ok ==> t' == Released(t) && Shows(log', t'))
  {
    var i := InjectFrame(log, t, action, env);
    OneMore(log, i);
    if i.ok {
      FailuresGrow(log, i);
    } else {
      var c := InjectFrame(log + [i], t, MOTION_CANCEL, env);
      FrameIdsAre(t.pointers, t.descriptor);
      OneMore(log + [i], c);
      GrowsOnTwice(log, log + [i], log + [i] + [c], t.descriptor.displayId);
      FailureThenCancel(log, i, c);
    }
  }

  lemma {:induction false} FailureThenCancel(log: seq<Injection>, i: Injection, c: Injection)
    requires FailuresCancelled(log) && c.frame.action == MOTION_CANCEL
    requires c.frame.displayId == i.frame.displayId && c.frame.downTimeMillis == i.frame.downTimeMillis
    requires FrameIds(c.frame.pointers) == FrameIds(i.frame.pointers)
    ensures FailuresCancelled(log + [i] + [c])
  {
    var more := log + [i] + [c];
    forall k | 0 <= k < |more| && !more[k].ok && more[k].frame.action != MOTION_CANCEL ensures CancelledNext(more, k) {
      if k < |log| {
        assert more[k] == log[k] && CancelledNext(log, k);
      }
    }
  }

  /** What every touch operation keeps for its target. */
  ghost predicate KeepsGesture(log: seq<Injection>, t: Target, log': seq<Injection>, t': Target) {
    && FailuresCancelled(log') && GrowsOn(log, log', t.descriptor.displayId)
    && t'.descriptor == t.descriptor && t'.targetSlot == t.targetSlot && t'.streamId == t.streamId
    && t'.inputEpoch == t.inputEpoch && t'.bind == t.bind && t'.lastSequence == t.lastSequence
    && GoodTarget(t') && Shows(log', t')
  }

  lemma {:induction false} RejectKeeps(log: seq<Injection>, t: Target, env: Environment)
    requires FailuresCancelled(log) && GoodTarget(t) && Shows(log, t)
    ensures var (log', t', _) := Reject(log, t, env); KeepsGesture(log, t, log', t')
  {
    CancelCloses(log, t, env);
  }

  lemma {:induction false} ReleasedIsGood(t: Target)
    ensures GoodTarget(Released(t)) && GestureFor(Released(t)) == NoGesture
  {
  }

  function DownAction(ps: Pointers, id: int): nat {
    if |ps| == 1 then MOTION_DOWN else MOTION_POINTER_DOWN + 256 * HeadSize(ps, id)
  }

  function UpAction(ps: Pointers, id: int): nat {
    if |ps| == 1 then MOTION_UP else MOTION_POINTER_UP + 256 * HeadSize(ps, id)
  }

  lemma {:induction false} FirstDownFits(more: Target, i: Injection)
    requires |more.pointers| == 1 && i.frame.downTimeMillis == more.downTimeMillis
    requires FrameIds(i.frame.pointers) == Ids(more.pointers) && i.frame.action == MOTION_DOWN
    ensures GestureStep(NoGesture, i) == Some(Gesture(Ids(more.pointers), more.downTimeMillis, !i.ok))
  {
  }

  lemma {:induction false} PointerDownFits(t: Target, more: Target, index: nat, i: Injection)
    requires t.pointers != [] && |more.pointers| > 1 && more.downTimeMillis == t.downTimeMillis
    requires Sorted(more.pointers) && index < |more.pointers| && WithoutIndex(Ids(more.pointers), index) == Ids(t.pointers)
    requires FrameIds(i.frame.pointers) == Ids(more.pointers) && i.frame.downTimeMillis == more.downTimeMillis
    requires i.frame.action == MOTION_POINTER_DOWN + 256 * index
    ensures GestureStep(GestureFor(t), i) == Some(Gesture(Ids(more.pointers), more.downTimeMillis, !i.ok))
  {
    hide Ids;
    hide FrameIds;
    EncodedIndex(MOTION_POINTER_DOWN, index);
  }

  /** The frame for a new pointer extends the gesture by that pointer at its true index. */
  lemma {:induction false} DownFits(t: Target, more: Target, id: int, state: PointerState, i: Injection)
    requires GoodTarget(t) && !Has(t.pointers, id) && more.pointers == Put(t.pointers, id, state)
    requires t.pointers != [] ==> more.downTimeMillis == t.downTimeMillis
    requires FrameIds(i.frame.pointers) == Ids(more.pointers) && i.frame.downTimeMillis == more.downTimeMillis
    requires i.frame.action == DownAction(more.pointers, id)
    ensures GestureStep(GestureFor(t), i) == Some(Gesture(Ids(more.pointers), more.downTimeMillis, !i.ok))
    ensures Sorted(more.pointers) && |more.pointers| == |t.pointers| + 1
  {
    PutNew(t.pointers, id, state);
    hide Ascending;
    hide WithoutIndex;
    hide Put;
    hide Ids;
    hide HeadSize;
    hide FrameIds;
    hide GestureStep;
    if t.pointers == [] {
      FirstDownFits(more, i);
    } else {
      PointerDownFits(t, more, HeadSize(more.pointers, id), i);
    }
  }

  lemma {:induction false} DownKeeps(log: seq<Injection>, t: Target, e: TouchEvent, env: Environment)
    requires FailuresCancelled(log) && GoodTarget(t) && Shows(log, t)
    ensures var (log', t', _) := PointerDown(log, t, e, env); KeepsGesture(log, t, log', t')
  {
    hide Put;
    hide Ids;
    hide HeadSize;
    hide FrameIds;
    hide FramesOf;
    hide GestureStep;
    hide FailuresCancelled;
    hide GrowsOn;
    hide Ascending;
    if Has(t.pointers, e.pointerId) || |t.pointers| >= MAX_POINTERS {
      RejectKeeps(log, t, env);
    } else {
      var started := if t.pointers == [] then t.(downTimeMillis := env(|log|).downTimeMillis) else t;
      var more := started.(pointers := Put(t.pointers, e.pointerId, StateFrom(e)));
      var action := DownAction(more.pointers, e.pointerId);
      FrameIdsAre(more.pointers, more.descriptor);
      DownFits(t, more, e.pointerId, StateFrom(e), InjectFrame(log, more, action, env));
      EncodedIndex(MOTION_POINTER_DOWN, HeadSize(more.pointers, e.pointerId));
      hide InjectFrame;
      ReleasedIsGood(more);
      InjectOrCancelFits(log, more, action, env);
    }
  }

  lemma {:induction false} EncodedIndex(action: nat, index: nat)
    requires 0 < action < 256
    ensures (action + 256 * index) % 256 == action && (action + 256 * index) / 256 == index
  {
  }

  lemma {:induction false} MoveKeeps(log: seq<Injection>, t: Target, e: TouchEvent, env: Environment)
    requires FailuresCancelled(log) && GoodTarget(t) && Shows(log, t)
    ensures var (log', t', _) := PointerMove(log, t, e, env); KeepsGesture(log, t, log', t')
  {
    hide Put;
    hide Ids;
    hide FrameIds;
    hide FramesOf;
    hide FailuresCancelled;
    hide GrowsOn;
    hide Ascending;
    if !Has(t.pointers, e.pointerId) {
      RejectKeeps(log, t, env);
    } else {
      var moved := t.(pointers := Put(t.pointers, e.pointerId, StateFrom(e)));
      FrameIdsAre(moved.pointers, moved.descriptor);
      MoveFits(t, moved, e.pointerId, StateFrom(e), InjectFrame(log, moved, MOTION_MOVE, env));
      hide InjectFrame;
      hide GestureStep;
      ReleasedIsGood(moved);
      InjectOrCancelFits(log, moved, MOTION_MOVE, env);
    }
  }

  lemma {:induction false} MoveFits(t: Target, moved: Target, id: int, state: PointerState, i: Injection)
    requires GoodTarget(t) && Has(t.pointers, id) && moved == t.(pointers := Put(t.pointers, id, state))
    requires FrameIds(i.frame.pointers) == Ids(moved.pointers) && i.frame.downTimeMillis == moved.downTimeMillis
    requires i.frame.action == MOTION_MOVE
    ensures GoodTarget(moved) && moved.pointers != []
    ensures GestureStep(GestureFor(t), i) == Some(Gesture(Ids(moved.pointers), moved.downTimeMillis, !i.ok))
  {
    hide Put;
    hide Ids;
    hide FrameIds;
    hide Ascending;
    PutExisting(t.pointers, id, state);
    SameLength(t.pointers, moved.pointers);
  }

  lemma {:induction false} SameLength(a: Pointers, b: Pointers)
    requires Ids(a) == Ids(b)
    ensures |a| == |b| && (a == [] <==> b == [])
  {
    assert |Ids(a)| == |a| && |Ids(b)| == |b|;
  }

  lemma {:induction false} LastUpFits(t: Target, i: Injection)
    requires |t.pointers| == 1 && i.frame.downTimeMillis == t.downTimeMillis
    requires FrameIds(i.frame.pointers) == Ids(t.pointers) && i.frame.action == MOTION_UP
    ensures GestureStep(GestureFor(t), i) == Some(if i.ok then NoGesture else Gesture(Ids(t.pointers), t.downTimeMillis, true))
  {
  }

  lemma {:induction false} PointerUpFits(t: Target, index: nat, i: Injection)
    requires |t.pointers| > 1 && index < |t.pointers| && i.frame.downTimeMillis == t.downTimeMillis
    requires FrameIds(i.frame.pointers) == Ids(t.pointers) && i.frame.action == MOTION_POINTER_UP + 256 * index
    ensures GestureStep(GestureFor(t), i)
            == Some(if i.ok then Gesture(WithoutIndex(Ids(t.pointers), index), t.downTimeMillis, false)
                    else Gesture(Ids(t.pointers), t.downTimeMillis, true))
  {
    EncodedIndex(MOTION_POINTER_UP, index);
  }

  /** The frame for a lifted pointer names it by its true index, and removes it when taken. */
  lemma {:induction false} UpFits(t: Target, moved: Target, id: int, i: Injection)
    requires GoodTarget(t) && Has(moved.pointers, id) && Ids(moved.pointers) == Ids(t.pointers)
    requires moved.downTimeMillis == t.downTimeMillis && i.frame.downTimeMillis == t.downTimeMillis
    requires FrameIds(i.frame.pointers) == Ids(moved.pointers)
    requires i.frame.action == UpAction(moved.pointers, id)
    ensures var left := moved.(pointers := Remove(moved.pointers, id));
            && GestureStep(GestureFor(t), i)
               == Some(if i.ok then GestureFor(left) else Gesture(Ids(moved.pointers), moved.downTimeMillis, true))
            && GoodTarget(left)
  {
    SameLength(t.pointers, moved.pointers);
    HasAtHead(moved.pointers, id);
    RemoveExisting(moved.pointers, id);
    hide Ascending;
    hide Remove;
    hide Ids;
    hide HeadSize;
    hide FrameIds;
    hide WithoutIndex;
    hide Has;
    hide GestureStep;
    if |moved.pointers| == 1 {
      LastUpFits(moved, i);
    } else {
      PointerUpFits(moved, HeadSize(moved.pointers, id), i);
    }
  }

  lemma {:induction false} UpKeeps(log: seq<Injection>, t: Target, e: TouchEvent, env: Environment)
    requires FailuresCancelled(log) && GoodTarget(t) && Shows(log, t)
    ensures var (log', t', _) := PointerUp(log, t, e, env); KeepsGesture(log, t, log', t')
  {
    hide Put;
    hide Remove;
    hide Ids;
    hide HeadSize;
    hide FrameIds;
    hide FramesOf;
    hide GestureStep;
    hide FailuresCancelled;
    hide GrowsOn;
    hide Ascending;
    if !Has(t.pointers, e.pointerId) {
      RejectKeeps(log, t, env);
    } else {
      var moved := t.(pointers := Put(t.pointers, e.pointerId, StateFrom(e)));
      var action := UpAction(moved.pointers, e.pointerId);
      PutExisting(t.pointers, e.pointerId, StateFrom(e));
      SameLength(t.pointers, moved.pointers);
      FrameIdsAre(moved.pointers, moved.descriptor);
      UpFits(t, moved, e.pointerId, InjectFrame(log, moved, action, env));
      EncodedIndex(MOTION_POINTER_UP, HeadSize(moved.pointers, e.pointerId));
      hide InjectFrame;
      ReleasedIsGood(moved);
      ReleasedIsGood(moved.(pointers := Remove(moved.pointers, e.pointerId)));
      InjectOrCancelFits(log, moved, action, env);
    }
  }

  lemma {:induction false} TouchTargetKeeps(log: seq<Injection>, t: Target, e: TouchEvent, env: Environment)
    requires FailuresCancelled(log) && GoodTarget(t) && Shows(log, t)
    ensures var (log', t', _) := TouchTarget(log, t, e, env);
            && KeepsGesture(log, if e.sequence <= t.lastSequence then t else t.(lastSequence := e.sequence), log', t')
  {
    hide PointerDown;
    hide PointerMove;
    hide PointerUp;
    if e.sequence <= t.lastSequence {
      RejectKeeps(log, t, env);
    } else {
      var u := t.(lastSequence := e.sequence);
      if e.action == ACTION_DOWN { DownKeeps(log, u, e, env); }
      else if e.action == ACTION_MOVE { MoveKeeps(log, u, e, env); }
      else if e.action == ACTION_UP { UpKeeps(log, u, e, env); }
      else { CancelCloses(log, u, env); }
    }
  }

  // ---------- all targets ----------

  predicate IsUsed(s: State, displayId: int) {
    exists slot :: slot in s.targets && s.targets[slot].descriptor.displayId == displayId
  }

  /** Each display shows exactly the gesture of the target bound to it, and none without one. */
  ghost predicate LogMatches(s: State) {
    && FailuresCancelled(s.log)
    && (forall slot :: slot in s.targets ==> Shows(s.log, s.targets[slot]))
    && (forall d :: !IsUsed(s, d) ==> GestureOf(s.log, d) == Some(NoGesture))
  }

  ghost predicate DistinctLeases(s: State) {
    forall a, b :: a in s.targets && b in s.targets && a != b ==>
      && s.targets[a].descriptor.displayId != s.targets[b].descriptor.displayId
      && s.targets[a].streamId != s.targets[b].streamId
  }

  function EpochOf(bind: nat): int { 1 + bind % EPOCHS }

  ghost predicate GoodSlot(s: State, slot: int) {
    slot in s.targets ==>
      var t := s.targets[slot];
      && 0 <= slot <= 255 && t.targetSlot == slot && t.streamId != 0 && IsUsable(t.descriptor)
      && GoodTarget(t)
      && t.bind < |s.binds| && s.binds[t.bind].targetSlot == slot && t.inputEpoch == EpochOf(t.bind)
      && t.lastSequence >= 0
      && forall k :: 0 <= k < |s.admitted| && s.admitted[k].bind == t.bind ==> s.admitted[k].sequence <= t.lastSequence
  }

  ghost predicate GoodHistory(s: State) {
    && s.nextEpoch == EpochOf(|s.binds|)
    && (forall k :: 0 <= k < |s.binds| ==> s.binds[k].inputEpoch == EpochOf(k))
    && (forall k :: 0 <= k < |s.admitted| ==> s.admitted[k].bind < |s.binds|)
    && (forall j, k :: 0 <= j < k < |s.admitted| && s.admitted[j].bind == s.admitted[k].bind ==>
          s.admitted[j].sequence < s.admitted[k].sequence)
  }

  ghost predicate DistinctBinds(s: State) {
    forall a, b :: a in s.targets && b in s.targets && a != b ==> s.targets[a].bind != s.targets[b].bind
  }

  ghost predicate Inv(s: State) {
    && LogMatches(s) && DistinctLeases(s) && DistinctBinds(s) && GoodHistory(s)
    && forall slot :: GoodSlot(s, slot)
  }

  /** One target changes, with frames on its own display only. */
  lemma {:induction false} UpdateKeepsLog(s: State, slot: int, t: Target, log: seq<Injection>)
    requires LogMatches(s) && DistinctLeases(s) && slot in s.targets
    requires t.descriptor == s.targets[slot].descriptor && Shows(log, t) && FailuresCancelled(log)
    requires GrowsOn(s.log, log, t.descriptor.displayId)
    ensures LogMatches(s.(targets := s.targets[slot := t], log := log))
  {
    hide GestureOf;
    var s' := s.(targets := s.targets[slot := t], log := log);
    forall other | other in s'.targets ensures Shows(log, s'.targets[other]) {
      if other != slot {
        assert Shows(s.log, s.targets[other]);
      }
    }
    forall d | !IsUsed(s', d) ensures GestureOf(log, d) == Some(NoGesture) {
      assert slot in s'.targets && s'.targets[slot].descriptor.displayId == t.descriptor.displayId;
      if other :| other in s.targets && s.targets[other].descriptor.displayId == d {
        assert other in s'.targets && s'.targets[other].descriptor.displayId == d;
      }
    }
  }

  /** Targets without pointers can go. */
  lemma {:induction false} RemovalKeepsLog(s: State, remove: set<int>)
    requires LogMatches(s)
    requires forall slot :: slot in s.targets && slot in remove ==> s.targets[slot].pointers == []
    ensures LogMatches(s.(targets := s.targets - remove))
  {
    hide GestureOf;
    var s' := s.(targets := s.targets - remove);
    forall d | !IsUsed(s', d) ensures GestureOf(s.log, d) == Some(NoGesture) {
      if slot :| slot in s.targets && s.targets[slot].descriptor.displayId == d {
        if slot !in remove {
          assert slot in s'.targets && s'.targets[slot].descriptor.displayId == d;
        } else {
          assert Shows(s.log, s.targets[slot]);
        }
      }
    }
  }

  /** A new target starts without pointers. */
  lemma {:induction false} AdditionKeepsLog(s: State, slot: int, t: Target)
    requires LogMatches(s) && slot !in s.targets && t.pointers == [] && !IsUsed(s, t.descriptor.displayId)
    ensures LogMatches(s.(targets := s.targets[slot := t]))
  {
    hide GestureOf;
    var s' := s.(targets := s.targets[slot := t]);
    forall other | other in s'.targets ensures Shows(s.log, s'.targets[other]) {
      if other != slot {
        assert Shows(s.log, s.targets[other]);
      }
    }
    forall d | !IsUsed(s', d) ensures GestureOf(s.log, d) == Some(NoGesture) {
      if other :| other in s.targets && s.targets[other].descriptor.displayId == d {
        assert other in s'.targets && s'.targets[other].descriptor.displayId == d;
      }
    }
  }
}

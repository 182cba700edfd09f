/** What every run of the touch input service keeps. */
module InputRuns {
  import opened Bytes
  import opened Options
  import opened PointerMap
  import opened InputStateMachine
  import opened GestureStream
  import opened Float32

  ghost predicate SameLease(t: Target, u: Target) {
    && t.descriptor == u.descriptor && t.targetSlot == u.targetSlot && t.streamId == u.streamId
    && t.inputEpoch == u.inputEpoch && t.bind == u.bind
  }

  // ---------- one target changes ----------

  lemma {:induction false} UpdateKeeps(s: State, slot: int, t: Target, log: seq<Injection>)
    requires Inv(s) && slot in s.targets && SameLease(s.targets[slot], t)
    requires t.lastSequence >= s.targets[slot].lastSequence && GoodTarget(t)
    requires Shows(log, t) && FailuresCancelled(log) && GrowsOn(s.log, log, t.descriptor.displayId)
    ensures Inv(s.(targets := s.targets[slot := t], log := log))
  {
    hide GestureOf;
    UpdateKeepsLog(s, slot, t, log);
    hide LogMatches;
    var s' := s.(targets := s.targets[slot := t], log := log);
    forall other ensures GoodSlot(s', other) {
      assert GoodSlot(s, other) && GoodSlot(s, slot);
    }
  }

  /** A sequence number above all earlier ones of the bind is admitted. */
  lemma {:induction false} AdmitKeeps(s: State, slot: int, sequence: int)
    requires Inv(s) && slot in s.targets && sequence <= s.targets[slot].lastSequence
    requires forall k :: 0 <= k < |s.admitted| && s.admitted[k].bind == s.targets[slot].bind ==>
               s.admitted[k].sequence < sequence
    ensures Inv(s.(admitted := s.admitted + [Admitted(s.targets[slot].bind, sequence)]))
  {
    var s' := s.(admitted := s.admitted + [Admitted(s.targets[slot].bind, sequence)]);
    assert LogMatches(s');
    hide LogMatches;
    assert GoodSlot(s, slot);
    forall other ensures GoodSlot(s', other) {
      assert GoodSlot(s, other);
    }
  }

  lemma {:induction false} TouchKeeps(s: State, e: TouchEvent, env: Environment)
    requires Inv(s)
    ensures Inv(Touch(s, e, env).0)
  {
    hide TouchTarget;
    hide GestureOf;
    if e.targetSlot in s.targets && e.inputEpoch == s.targets[e.targetSlot].inputEpoch {
      var t := s.targets[e.targetSlot];
      var (log, t', _) := TouchTarget(s.log, t, e, env);
      assert GoodSlot(s, e.targetSlot);
      TouchTargetKeeps(s.log, t, e, env);
      UpdateKeeps(s, e.targetSlot, t', log);
      if e.sequence > t.lastSequence {
        AdmitKeeps(s.(targets := s.targets[e.targetSlot := t'], log := log), e.targetSlot, e.sequence);
      }
    }
  }

  lemma {:induction false} CancelTargetKeeps(s: State, slot: int, env: Environment)
    requires Inv(s)
    ensures var s' := CancelTarget(s, slot, env);
            && Inv(s') && s'.targets.Keys == s.targets.Keys && s' == s.(targets := s'.targets, log := s'.log)
            && (slot in s.targets ==> s'.targets[slot].pointers == [] && SameLease(s.targets[slot], s'.targets[slot]))
            && (forall other :: other in s.targets && other != slot ==> s'.targets[other] == s.targets[other])
  {
    hide GestureOf;
    if slot in s.targets {
      assert GoodSlot(s, slot);
      CancelCloses(s.log, s.targets[slot], env);
      var (log, t, _) := CancelPointers(s.log, s.targets[slot], env);
      UpdateKeeps(s, slot, t, log);
    }
  }

  // ---------- targets go ----------

  lemma {:induction false} RemovalKeeps(s: State, remove: set<int>)
    requires Inv(s)
    requires forall slot :: slot in s.targets && slot in remove ==> s.targets[slot].pointers == []
    ensures Inv(s.(targets := s.targets - remove))
  {
    RemovalKeepsLog(s, remove);
    hide LogMatches;
    var s' := s.(targets := s.targets - remove);
    forall slot ensures GoodSlot(s', slot) {
      assert GoodSlot(s, slot);
    }
  }

  /** Cancelling slot by slot leaves the leases alone and empties every selected target below `n`. */
  lemma {:induction false} CancelBelowKeeps(s: State, n: nat, remove: set<int>, env: Environment)
    requires Inv(s)
    ensures var s' := CancelBelow(s, n, remove, env);
            && Inv(s') && s'.targets.Keys == s.targets.Keys
            && s' == s.(targets := s'.targets, log := s'.log)
            && (forall slot :: slot in s.targets && slot !in remove ==> s'.targets[slot] == s.targets[slot])
            && (forall slot :: slot in s.targets && slot in remove && 0 <= slot < n ==> s'.targets[slot].pointers == [])
            && (forall slot :: slot in s.targets ==> SameLease(s.targets[slot], s'.targets[slot]))
  {
    hide Inv;
    if n > 0 {
      CancelBelowKeeps(s, n - 1, remove, env);
      CancelTargetKeeps(CancelBelow(s, n - 1, remove, env), n - 1, env);
      hide CancelTarget;
    }
  }

  lemma {:induction false} RemoveTargetsKeeps(s: State, remove: set<int>, env: Environment)
    requires Inv(s)
    ensures var s' := RemoveTargets(s, remove, env);
            && Inv(s') && s'.targets == s.targets - remove && s' == s.(targets := s'.targets, log := s'.log)
  {
    CancelBelowKeeps(s, 256, remove, env);
    var cancelled := CancelBelow(s, 256, remove, env);
    hide CancelBelow;
    assert forall slot :: slot in s.targets ==> 0 <= slot <= 255 by {
      forall slot | slot in s.targets ensures 0 <= slot <= 255 {
        assert GoodSlot(s, slot);
      }
    }
    RemovalKeeps(cancelled, remove);
    var left, expected := cancelled.targets - remove, s.targets - remove;
    assert left.Keys == expected.Keys;
    assert forall slot :: slot in expected ==> left[slot] == expected[slot];
  }

  // ---------- targets come ----------

  /** The next lease takes the next epoch. */
  lemma {:induction false} AdditionKeeps(s: State, slot: int, streamId: int, d: TargetDescriptor)
    requires Inv(s) && slot !in s.targets && 0 <= slot <= 255 && streamId != 0 && IsUsable(d)
    requires !IsUsed(s, d.displayId) && forall other :: other in s.targets ==> s.targets[other].streamId != streamId
    ensures var t := Target(slot, streamId, s.nextEpoch, d, [], 0, 0, |s.binds|);
            Inv(s.(targets := s.targets[slot := t], nextEpoch := NextEpoch(s.nextEpoch),
                   binds := s.binds + [Bind(slot, s.nextEpoch)]))
  {
    hide GestureOf;
    var t := Target(slot, streamId, s.nextEpoch, d, [], 0, 0, |s.binds|);
    AdditionKeepsLog(s, slot, t);
    var s' := s.(targets := s.targets[slot := t], nextEpoch := NextEpoch(s.nextEpoch),
                 binds := s.binds + [Bind(slot, s.nextEpoch)]);
    assert LogMatches(s') by {
      var a := s.(targets := s.targets[slot := t]);
      assert LogMatches(a) && a.log == s'.log && a.targets == s'.targets;
      assert forall d :: IsUsed(s', d) <==> IsUsed(a, d);
    }
    hide LogMatches;
    forall other ensures GoodSlot(s', other) && (other in s.targets ==> s.targets[other].bind < |s.binds|) {
      assert GoodSlot(s, other);
    }
    forall other | other in s.targets ensures s.targets[other].descriptor.displayId != d.displayId {
    }
    assert DistinctLeases(s') && DistinctBinds(s');
  }

  lemma {:induction false} BindKeeps(s: State, slot: int, mode: int, streamId: int, d: Option<TargetDescriptor>,
                                     env: Environment)
    requires Inv(s)
    ensures Inv(BindTarget(s, slot, mode, streamId, d, env).0)
  {
    hide CancelPointers;
    hide Inv;
    var (s', outcome) := BindTarget(s, slot, mode, streamId, d, env);
    if outcome.result == Applied {
      CancelTargetKeeps(s, slot, env);
      var cancelled := CancelTarget(s, slot, env);
      RemovalKeeps(cancelled, {slot});
      var left := cancelled.(targets := cancelled.targets - {slot});
      forall other | other in left.targets
        ensures left.targets[other].descriptor.displayId != d.value.displayId && left.targets[other].streamId != streamId
      {
        assert other in s.targets && left.targets[other] == s.targets[other];
      }
      AdditionKeeps(left, slot, streamId, d.value);
      var t := Target(slot, streamId, s.nextEpoch, d.value, [], 0, 0, |s.binds|);
      assert left.targets[slot := t] == s.targets[slot := t];
    }
  }

  // ---------- every run ----------

  lemma {:induction false} ApplyKeeps(s: State, op: Operation, env: Environment)
    requires Inv(s)
    ensures Inv(Apply(s, op, env))
  {
    hide Inv;
    hide Touch;
    hide BindTarget;
    match op
    case OpBind(slot, mode, streamId, descriptor) => BindKeeps(s, slot, mode, streamId, descriptor, env);
    case OpUnbind(slot) =>
      CancelTargetKeeps(s, slot, env);
      if slot in s.targets {
        var cancelled := CancelTarget(s, slot, env);
        RemovalKeeps(cancelled, {slot});
        assert cancelled.targets - {slot} == s.targets - {slot};
      }
    case OpCancel(slot) => CancelTargetKeeps(s, slot, env);
    case OpTouch(event) => TouchKeeps(s, event, env);
    case OpDisplayChange(displayId, current) => RemoveTargetsKeeps(s, Invalidated(s, displayId, current), env);
    case OpReset => RemoveTargetsKeeps(s, s.targets.Keys, env);
  }

  lemma {:induction false} InitialInv()
    ensures Inv(INITIAL)
  {
    assert LogMatches(INITIAL);
  }

  lemma {:induction false} RunKeeps(ops: seq<Operation>, env: Environment)
    ensures Inv(Run(ops, env))
  {
    hide Inv;
    hide Apply;
    if ops == [] {
      InitialInv();
    } else {
      RunKeeps(ops[..|ops| - 1], env);
      ApplyKeeps(Run(ops[..|ops| - 1], env), ops[|ops| - 1], env);
    }
  }

  // ---------- theorems ----------

  /** In every run the frames injected on a display leave open exactly the gesture of the target
      bound to it, and a display without a target has none; every refused frame is cancelled at
      once. */
  lemma {:induction false} GesturesMatchTargets(ops: seq<Operation>, env: Environment)
    ensures var s := Run(ops, env);
            && FailuresCancelled(s.log)
            && (forall slot :: slot in s.targets ==>
                  && Ascending(Ids(s.targets[slot].pointers)) && |s.targets[slot].pointers| <= MAX_POINTERS
                  && GestureOf(s.log, s.targets[slot].descriptor.displayId)
                     == Some(if s.targets[slot].pointers == [] then NoGesture
                             else Gesture(Ids(s.targets[slot].pointers), s.targets[slot].downTimeMillis, false)))
            && (forall d :: !IsUsed(s, d) ==> GestureOf(s.log, d) == Some(NoGesture))
  {
    hide Run;
    hide GestureOf;
    hide Ids;
    RunKeeps(ops, env);
    var s := Run(ops, env);
    forall slot | slot in s.targets ensures GoodTarget(s.targets[slot]) && Shows(s.log, s.targets[slot]) {
      assert GoodSlot(s, slot);
    }
  }

  /** Two bound slots never share a display or a stream. */
  lemma {:induction false} LeasesAreDistinct(ops: seq<Operation>, env: Environment, a: int, b: int)
    requires var s := Run(ops, env); a in s.targets && b in s.targets && a != b
    ensures var s := Run(ops, env);
            && 0 <= a <= 255 && s.targets[a].targetSlot == a
            && s.targets[a].descriptor.displayId != s.targets[b].descriptor.displayId
            && s.targets[a].streamId != s.targets[b].streamId
  {
    hide Run;
    RunKeeps(ops, env);
    assert GoodSlot(Run(ops, env), a);
  }

  /** Unbinding, binding anew, a display change and a reset leave no gesture open on the displays
      they take a target from, nor on the display they give one. */
  lemma {:induction false} LeaseChangesCloseGestures(ops: seq<Operation>, op: Operation, env: Environment)
    ensures var s := Run(ops, env);
            var s' := Apply(s, op, env);
            && (op.OpUnbind? && op.slot in s.targets ==>
                  GestureOf(s'.log, s.targets[op.slot].descriptor.displayId) == Some(NoGesture))
            && (op.OpDisplayChange? ==> forall slot :: slot in Invalidated(s, op.displayId, op.current) ==>
                  slot !in s'.targets && GestureOf(s'.log, s.targets[slot].descriptor.displayId) == Some(NoGesture))
            && (op.OpReset? ==> s'.targets == map[] && forall d :: GestureOf(s'.log, d) == Some(NoGesture))
            && (op.OpBind? && BindTarget(s, op.slot, op.mode, op.streamId, op.descriptor, env).1.result == Applied ==>
                  && (op.slot in s.targets ==>
                        GestureOf(s'.log, s.targets[op.slot].descriptor.displayId) == Some(NoGesture))
                  && GestureOf(s'.log, op.descriptor.value.displayId) == Some(NoGesture))
  {
    hide Run;
    hide GestureOf;
    hide CancelPointers;
    RunKeeps(ops, env);
    var s := Run(ops, env);
    ApplyKeeps(s, op, env);
    var s' := Apply(s, op, env);
    hide Inv;
    match op
    case OpUnbind(slot) =>
      if slot in s.targets { AloneOnDisplay(s, s', slot); }
    case OpDisplayChange(displayId, current) =>
      RemoveTargetsKeeps(s, Invalidated(s, displayId, current), env);
      hide RemoveTargets;
      forall slot | slot in Invalidated(s, displayId, current)
        ensures slot !in s'.targets && GestureOf(s'.log, s.targets[slot].descriptor.displayId) == Some(NoGesture)
      {
        AloneOnDisplay(s, s', slot);
      }
    case OpReset =>
      RemoveTargetsKeeps(s, s.targets.Keys, env);
      InvGivesMatch(s');
    case OpBind(slot, mode, streamId, descriptor) =>
      if BindTarget(s, slot, mode, streamId, descriptor, env).1.result == Applied {
        InvGivesMatch(s');
        assert Shows(s'.log, s'.targets[slot]);
        if slot in s.targets && s.targets[slot].descriptor.displayId != descriptor.value.displayId {
          AloneOnDisplay(s, s', slot);
        }
      }
    case _ =>
  }

  lemma {:induction false} InvGivesMatch(s: State)
    requires Inv(s)
    ensures LogMatches(s) && DistinctLeases(s)
  {
  }

  /** Once the target of a slot has left its display, nobody is on it. */
  lemma {:induction false} AloneOnDisplay(s: State, s': State, slot: int)
    requires Inv(s) && Inv(s') && slot in s.targets
    requires forall other :: other in s'.targets && other != slot ==>
               other in s.targets && s'.targets[other].descriptor == s.targets[other].descriptor
    requires slot in s'.targets ==> s'.targets[slot].descriptor.displayId != s.targets[slot].descriptor.displayId
    ensures GestureOf(s'.log, s.targets[slot].descriptor.displayId) == Some(NoGesture)
  {
    hide GestureOf;
    var d := s.targets[slot].descriptor.displayId;
    forall other | other in s'.targets ensures s'.targets[other].descriptor.displayId != d {
    }
    assert !IsUsed(s', d);
  }

  /** Within one binding the admitted sequence numbers strictly increase, and a touch is applied
      only when it is admitted: none is applied twice. */
  lemma {:induction false} AppliedOnce(ops: seq<Operation>, e: TouchEvent, env: Environment)
    ensures var s := Run(ops, env);
            var (s', result) := Touch(s, e, env);
            && (forall j, k :: 0 <= j < k < |s.admitted| && s.admitted[j].bind == s.admitted[k].bind ==>
                  s.admitted[j].sequence < s.admitted[k].sequence)
            && (result == Applied ==>
                  && e.targetSlot in s.targets
                  && s'.admitted == s.admitted + [Admitted(s.targets[e.targetSlot].bind, e.sequence)]
                  && forall k :: 0 <= k < |s.admitted| && s.admitted[k].bind == s.targets[e.targetSlot].bind ==>
                       s.admitted[k].sequence < e.sequence)
  {
    hide Run;
    RunKeeps(ops, env);
    var s := Run(ops, env);
    hide LogMatches;
    hide PointerDown;
    hide PointerMove;
    hide PointerUp;
    hide CancelAll;
    hide CancelPointers;
    assert GoodSlot(s, e.targetSlot);
  }

  /** A touch stamped by bind `j` of the slot is stale, and has no effect, unless the number of
      epoch allocations between that bind and the current one is a multiple of the epoch range. */
  lemma {:induction false} OldTouchIsStale(ops: seq<Operation>, e: TouchEvent, env: Environment, j: nat)
    requires var s := Run(ops, env);
             && j < |s.binds| && s.binds[j].targetSlot == e.targetSlot && s.binds[j].inputEpoch == e.inputEpoch
             && e.targetSlot in s.targets
    ensures var s := Run(ops, env);
            var current := s.targets[e.targetSlot].bind;
            && current < |s.binds| && s.binds[current].targetSlot == e.targetSlot
            && (Touch(s, e, env).1 == StaleEpoch <==> (current - j) % EPOCHS != 0)
            && (Touch(s, e, env).1 == StaleEpoch ==> Touch(s, e, env).0 == s)
            && (j != current && -EPOCHS < current - j < EPOCHS ==> Touch(s, e, env) == (s, StaleEpoch))
  {
    hide Run;
    RunKeeps(ops, env);
    var s := Run(ops, env);
    hide LogMatches;
    hide PointerDown;
    hide PointerMove;
    hide PointerUp;
    hide CancelPointers;
    assert GoodSlot(s, e.targetSlot);
    SameEpoch(j, s.targets[e.targetSlot].bind);
    hide EpochOf;
    TouchTargetIsNotStale(s, e, env);
  }

  lemma {:induction false} TouchTargetIsNotStale(s: State, e: TouchEvent, env: Environment)
    requires e.targetSlot in s.targets
    ensures Touch(s, e, env).1 == StaleEpoch <==> e.inputEpoch != s.targets[e.targetSlot].inputEpoch
  {
    hide CancelPointers;
    hide InjectOrCancel;
  }

  lemma {:induction false} SameEpoch(j: nat, k: nat)
    ensures EpochOf(j) == EpochOf(k) <==> (k - j) % EPOCHS == 0
  {
  }

  predicate IsNotice(s: State, remove: set<int>, reason: Reason, notice: InvalidatedTarget) {
    var slot := notice.targetSlot;
    && 0 <= slot && slot in remove && slot in s.targets
    && notice == InvalidatedTarget(slot, reason, s.targets[slot].streamId, s.targets[slot].inputEpoch)
  }

  ghost predicate AreExact(s: State, n: nat, remove: set<int>, reason: Reason, notices: seq<InvalidatedTarget>) {
    && (forall notice :: notice in notices ==> notice.targetSlot < n && IsNotice(s, remove, reason, notice))
    && (forall j, k :: 0 <= j < k < |notices| ==> notices[j].targetSlot < notices[k].targetSlot)
    && (forall slot :: slot in remove && slot in s.targets && 0 <= slot < n ==>
          InvalidatedTarget(slot, reason, s.targets[slot].streamId, s.targets[slot].inputEpoch) in notices)
  }

  /** The listener hears of each removed target once, in slot order, and of no other. */
  lemma {:induction false} NoticesAreExact(s: State, n: nat, remove: set<int>, reason: Reason)
    ensures AreExact(s, n, remove, reason, Notices(s, n, remove, reason))
  {
    if n > 0 {
      NoticesAreExact(s, n - 1, remove, reason);
    }
  }

  /** After a display change the listener has heard of exactly the targets the change removed, once
      each and in slot order; they were bound to that display, with another geometry or with none
      left, and all other targets are as they were. */
  lemma {:induction false} DisplayChangesAreNotified(ops: seq<Operation>, displayId: int, current: Option<TargetDescriptor>,
                                                     env: Environment)
    ensures var s := Run(ops, env);
            var (s', notices) := DisplayChange(s, displayId, current, env);
            var reason := if current.None? then DisplayRemoved else GeometryChanged;
            && s'.targets == s.targets - Invalidated(s, displayId, current)
            && (forall slot :: slot in s.targets && slot !in s'.targets ==>
                  InvalidatedTarget(slot, reason, s.targets[slot].streamId, s.targets[slot].inputEpoch) in notices)
            && (forall notice :: notice in notices ==>
                  && notice.targetSlot in s.targets && notice.targetSlot !in s'.targets
                  && var t := s.targets[notice.targetSlot];
                  && notice == InvalidatedTarget(t.targetSlot, reason, t.streamId, t.inputEpoch)
                  && t.descriptor.displayId == displayId && current != Some(t.descriptor))
            && (forall j, k :: 0 <= j < k < |notices| ==> notices[j].targetSlot < notices[k].targetSlot)
  {
    RunKeeps(ops, env);
    var s := Run(ops, env);
    hide Run;
    var remove := Invalidated(s, displayId, current);
    var reason := if current.None? then DisplayRemoved else GeometryChanged;
    RemoveTargetsKeeps(s, remove, env);
    NoticesAreExact(s, 256, remove, reason);
    hide RemoveTargets;
    hide Notices;
    forall slot | slot in s.targets ensures 0 <= slot <= 255 && s.targets[slot].targetSlot == slot {
      assert GoodSlot(s, slot);
    }
  }

  /** A target's stream is one that was asked for. */
  lemma {:induction false} StreamsComeFromBinds(ops: seq<Operation>, env: Environment, slot: int)
    requires slot in Run(ops, env).targets
    ensures exists k :: 0 <= k < |ops| && ops[k].OpBind? && ops[k].streamId == Run(ops, env).targets[slot].streamId
  {
    var n := |ops| - 1;
    var s, s' := Run(ops[..n], env), Run(ops, env);
    RunKeeps(ops[..n], env);
    StreamStays(s, ops[n], env, slot);
    hide Apply;
    hide Inv;
    if !(ops[n].OpBind? && ops[n].streamId == s'.targets[slot].streamId) {
      StreamsComeFromBinds(ops[..n], env, slot);
      var k :| 0 <= k < n && ops[..n][k].OpBind? && ops[..n][k].streamId == s.targets[slot].streamId;
      assert ops[k].OpBind?;
    }
  }

  lemma {:induction false} StreamStays(s: State, op: Operation, env: Environment, slot: int)
    requires Inv(s) && slot in Apply(s, op, env).targets
    ensures var streamId := Apply(s, op, env).targets[slot].streamId;
            (slot in s.targets && s.targets[slot].streamId == streamId) || (op.OpBind? && op.streamId == streamId)
  {
    match op
    case OpBind(_, _, _, _) => hide CancelPointers;
    case OpUnbind(_) => hide CancelPointers;
    case OpCancel(other) => CancelTargetKeeps(s, other, env);
    case OpTouch(event) =>
      hide GestureOf;
      if event.targetSlot in s.targets {
        assert GoodSlot(s, event.targetSlot);
        TouchTargetKeeps(s.log, s.targets[event.targetSlot], event, env);
      }
      hide TouchTarget;
    case OpDisplayChange(displayId, current) =>
      RemoveTargetsKeeps(s, Invalidated(s, displayId, current), env);
      hide RemoveTargets;
    case OpReset => RemoveTargetsKeeps(s, s.targets.Keys, env);
  }

  /** Epochs are handed out in turn, from 1 to `EPOCHS` and over again: the next one is in range, and
      differs from those of the binds before it as far back as the range goes. */
  lemma {:induction false} EpochsTakeTurns(ops: seq<Operation>, env: Environment, j: nat, k: nat)
    requires j < k <= |Run(ops, env).binds|
    ensures var s := Run(ops, env);
            var later := if k < |s.binds| then s.binds[k].inputEpoch else s.nextEpoch;
            && 1 <= s.binds[j].inputEpoch <= EPOCHS && 1 <= later <= EPOCHS
            && (s.binds[j].inputEpoch == later <==> (k - j) % EPOCHS == 0)
            && (k - j < EPOCHS ==> s.binds[j].inputEpoch != later)
  {
    hide Run;
    RunKeeps(ops, env);
    SameEpoch(j, k);
  }

  lemma {:induction false} ShareWithin(value: u16)
    ensures 0.0 <= Share(value) <= 1.0 && Share(0) == 0.0 && Share(65535) == 1.0
  {
    var share := value as real / 65535.0;
    assert 0.0 <= share <= 1.0;
    WholeNumbersAreExact(0);
    WholeNumbersAreExact(1);
    RoundGrows(0.0, share);
    RoundGrows(share, 1.0);
  }

  lemma {:induction false} SharesGrow(v: u16, w: u16)
    requires v <= w
    ensures 0.0 <= Share(v) <= Share(w)
  {
    hide Round;
    RoundGrows(v as real / 65535.0, w as real / 65535.0);
    ShareWithin(v);
  }

  /** Scaling a 16-bit value to a length keeps it within the length, reaches both ends and keeps
      order; the length itself is rounded when it has more than 24 bits. */
  lemma {:induction false} ScaleWithin(v: u16, w: u16, length: nat)
    requires v <= w
    ensures 0.0 <= Scale(v, length) <= Scale(w, length) <= Round(length as real)
    ensures Scale(0, length) == 0.0 && Scale(65535, length) == Round(length as real)
    ensures length <= 0x100_0000 ==> Round(length as real) == length as real
  {
    if length <= 0x100_0000 {
      WholeNumbersAreExact(length);
    }
    ShareWithin(w);
    SharesGrow(v, w);
    WholeNumbersAreExact(0);
    RoundGrows(0.0, length as real);
    RoundTwice(length as real);
    hide Round;
    hide Share;
    hide Times;
    TimesWithin(Share(v), Share(w), Round(length as real));
  }

  /** Between 0 and `length`, as a float. */
  ghost predicate IsWithin(x: real, length: nat) {
    0.0 <= x <= Round(length as real) && (length <= 0x100_0000 ==> x <= length as real)
  }

  /** An injected pointer lies on its display, the extreme values on its edges, and touches no more
      than its shorter side; and a pointer further to the right or down is never injected further to
      the left or up. */
  lemma {:induction false} PointersLieOnDisplay(p: Pointer, q: Pointer, d: TargetDescriptor)
    requires IsUsable(d)
    ensures var f, g := FrameOf(p, d), FrameOf(q, d);
            && f.pointerId == p.id
            && IsWithin(f.x, d.logicalWidth - 1) && IsWithin(f.y, d.logicalHeight - 1)
            && (p.state.x == 0 ==> f.x == 0.0) && (p.state.x == 65535 ==> f.x == Round((d.logicalWidth - 1) as real))
            && (p.state.y == 0 ==> f.y == 0.0) && (p.state.y == 65535 ==> f.y == Round((d.logicalHeight - 1) as real))
            && 0.0 <= f.pressure <= 1.0 && 0.0 <= f.size <= 1.0
            && IsWithin(f.touchMajor, d.logicalWidth) && IsWithin(f.touchMajor, d.logicalHeight)
            && (p.state.x <= q.state.x ==> f.x <= g.x) && (p.state.y <= q.state.y ==> f.y <= g.y)
  {
    ScaleWithin(p.state.x, if p.state.x <= q.state.x then q.state.x else 65535, d.logicalWidth - 1);
    ScaleWithin(p.state.y, if p.state.y <= q.state.y then q.state.y else 65535, d.logicalHeight - 1);
    ShareWithin(p.state.pressure);
    ShareWithin(p.state.touchMajor);
    var side := Min(d.logicalWidth, d.logicalHeight);
    ScaleWithin(p.state.touchMajor, 65535, side);
    RoundGrows(side as real, d.logicalWidth as real);
    RoundGrows(side as real, d.logicalHeight as real);
    if d.logicalWidth <= 0x100_0000 {
      WholeNumbersAreExact(d.logicalWidth);
    }
    if d.logicalHeight <= 0x100_0000 {
      WholeNumbersAreExact(d.logicalHeight);
    }
    hide Round;
    hide Scale;
    hide Share;
  }
}

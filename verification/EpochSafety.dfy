/** What the invariant means for every run: no use after free, no item lost, none destroyed twice. */
module EpochSafety {
  import opened EpochMachine
  import opened EpochProof

  /** The safe epoch never underflows and never reaches the current epoch. */
  lemma SafeBelowCurrent(states: seq<State>, steps: seq<Step>, i: nat)
    requires Run(states, steps) && i < |states|
    ensures 0 <= states[i].safe < states[i].current
  {
    InvOnRun(states, steps, i);
  }

  /** The item is removed and nobody holds it. */
  ghost predicate OutOfReach(s: State, x: Item) {
    x in s.removedAt && NotHeld(s, x)
  }

  lemma {:induction false} OutOfReachForever(states: seq<State>, steps: seq<Step>, i: nat, j: nat, x: Item)
    requires Run(states, steps) && i <= j < |states| && OutOfReach(states[i], x)
    ensures OutOfReach(states[j], x)
    decreases j - i
  {
    hide *;
    if i < j {
      StepOfRun(states, steps, j - 1);
      OutOfReachForever(states, steps, i, j - 1, x);
      StaysOutOfReach(states[j - 1], steps[j - 1], x);
    }
  }

  lemma StaysOutOfReach(s: State, step: Step, x: Item)
    requires Inv(s) && Enabled(s, step) && OutOfReach(s, x)
    ensures OutOfReach(Apply(s, step), x)
  {
    hide Apply, Enabled;
    FrameStep(s, step);
    HoldsStep(s, step);
    NotHeldKept(s, step.t, Apply(s, step), x);
  }

  /**
   * IsSafeToReclaim(r) for an item removed from the structure and stamped r afterwards: no thread
   * that read it while it was linked is still in that region, then or at any later time.
   */
  lemma ReclaimIsSafe(states: seq<State>, steps: seq<Step>, i: nat, j: nat, x: Item, r: nat)
    requires Run(states, steps) && i <= j < |states|
    requires x in states[i].removedAt && states[i].removedAt[x] <= r <= states[i].safe
    ensures forall t :: 0 <= t < |states[j].threads| ==> x !in states[j].threads[t].held
  {
    InvOnRun(states, steps, i);
    SafeMeansNotHeld(states[i], x, r);
    OutOfReachForever(states, steps, i, j, x);
    assert NotHeld(states[j], x);
  }

  /** No destroyed item is in the hands of any thread, in any state of any run. */
  lemma NoUseAfterFree(states: seq<State>, steps: seq<Step>, i: nat)
    requires Run(states, steps) && i < |states|
    ensures forall x, t :: x in states[i].destroyed && 0 <= t < |states[i].threads| ==> x !in states[i].threads[t].held
  {
    InvOnRun(states, steps, i);
  }

  // ----- conservation -----

  /** Thread t is in the middle of pushing x. */
  ghost predicate Pushing(s: State, t: nat, x: Item) {
    && t < |s.threads|
    && (var pc := s.threads[t].pc;
        (pc.Pick? || pc.FetchAdd? || pc.Scan? || pc.SetSafe? || pc.Peek? || pc.Claim? || pc.Check? || pc.Destroy? || pc.Fill?)
        && pc.task.Push? && pc.task.item == x)
  }

  /** Slot k holds x, published, or claimed by a thread that has not yet destroyed it. */
  ghost predicate InSlot(s: State, k: nat, x: Item) {
    && k < |s.ring|
    && s.ring[k].item == x
    && (s.ring[k].stamp.At?
        || exists t :: 0 <= t < |s.threads| && Owns(s.threads[t].pc, k)
             && (s.threads[t].pc.Destroy? || (s.threads[t].pc.Check? && s.threads[t].pc.prior.At?)))
  }

  lemma PlaceOfSlot(s: State, k: nat, x: Item)
    requires Inv(s) && InSlot(s, k, x)
    ensures x in s.place && s.place[x] == Resident(k)
  {
    assert SlotSound(s, k);
    if !s.ring[k].stamp.At? {
      var t :| 0 <= t < |s.threads| && Owns(s.threads[t].pc, k)
        && (s.threads[t].pc.Destroy? || (s.threads[t].pc.Check? && s.threads[t].pc.prior.At?));
      assert PcRing(s, t, s.threads[t].pc);
    }
  }

  lemma PlaceOfPush(s: State, t: nat, x: Item)
    requires Inv(s) && Pushing(s, t, x)
    ensures x in s.place && s.place[x] == Removed(t)
  {
    assert PcRing(s, t, s.threads[t].pc);
  }

  /** A removed item is in one place only: one pusher, or one slot, or once in the destroy log. */
  lemma AtMostOnce(s: State, x: Item)
    requires Inv(s)
    ensures forall t, u :: Pushing(s, t, x) && Pushing(s, u, x) ==> t == u
    ensures forall j, k :: InSlot(s, j, x) && InSlot(s, k, x) ==> j == k
    ensures forall t, k :: !(Pushing(s, t, x) && InSlot(s, k, x))
    ensures x in s.destroyed ==> forall t :: !Pushing(s, t, x) && !InSlot(s, t, x)
    ensures multiset(s.destroyed)[x] <= 1
  {
    forall t | Pushing(s, t, x)
      ensures x in s.place && s.place[x] == Removed(t)
    {
      PlaceOfPush(s, t, x);
    }
    forall k | InSlot(s, k, x)
      ensures x in s.place && s.place[x] == Resident(k)
    {
      PlaceOfSlot(s, k, x);
    }
    OnceInLog(s.destroyed, x);
  }

  lemma {:induction false} OnceInLog(log: seq<Item>, x: Item)
    requires forall i, j :: 0 <= i < j < |log| ==> log[i] != log[j]
    ensures multiset(log)[x] <= 1
  {
    if log != [] {
      var front, last := log[..|log| - 1], log[|log| - 1];
      OnceInLog(front, x);
      assert log == front + [last];
      assert last !in multiset(front) by {
        assert last !in front;
      }
    }
  }

  /** What is resident is in its slot. */
  lemma ResidentIn(s: State, k: nat, x: Item)
    requires Inv(s) && x in s.place && s.place[x] == Resident(k)
    ensures InSlot(s, k, x)
  {
    assert SlotSound(s, k);
    if s.ring[k].stamp == Claimed {
      assert HasOwner(s, k);
      var t :| 0 <= t < |s.threads| && Owns(s.threads[t].pc, k);
      assert PcRing(s, t, s.threads[t].pc);
    }
  }

  /** A thread goes on pushing until it has stored its item, stamped, in the slot it owns; then it returns. */
  lemma PushMoves(s: State, step: Step, t: nat, x: Item)
    requires Inv(s) && Enabled(s, step) && Pushing(s, t, x)
    ensures var s', pc := Apply(s, step), s.threads[t].pc;
            if step == FillSlot(t) then
              pc.Fill? && pc.slot < |s'.ring| && s'.ring[pc.slot] == Slot(At(pc.task.removalEpoch), x) && s'.threads[t].pc == Idle
            else
              Pushing(s', t, x) && s'.threads[t].pc.task == pc.task
  {
    if step.t == t {
      OwnPushMoves(s, step, x);
    } else {
      hide PcAfter, TableAfter, RingAfter, EntryAfter, HeldAfter, PlaceAfter, DestroyedAfter, SafeAfter;
    }
  }

  lemma OwnPushMoves(s: State, step: Step, x: Item)
    requires WellShaped(s) && Enabled(s, step) && Pushing(s, step.t, x)
    ensures var s', pc := Apply(s, step), s.threads[step.t].pc;
            if step.FillSlot? then
              pc.Fill? && pc.slot < |s'.ring| && s'.ring[pc.slot] == Slot(At(pc.task.removalEpoch), x) && s'.threads[step.t].pc == Idle
            else
              Pushing(s', step.t, x) && s'.threads[step.t].pc.task == pc.task
  {
    hide TableAfter, EntryAfter, HeldAfter, PlaceAfter, DestroyedAfter, SafeAfter, Rolls, TailSlot;
    assert ThreadShaped(|s.table|, |s.ring|, s.threads[step.t]);
  }

  /** A resident item stays in its slot until a thread calls the destroy callback on it. */
  lemma ResidentMoves(s: State, step: Step, k: nat, x: Item)
    requires Inv(s) && Enabled(s, step) && InSlot(s, k, x)
    ensures var s' := Apply(s, step);
            InSlot(s', k, x) || (step.CallDestroy? && x !in s.destroyed && x in s'.destroyed)
  {
    PlaceOfSlot(s, k, x);
    PlaceMoves(s, step, k, x);
    InvStep(s, step);
    hide Inv, Apply, Enabled, InSlot;
    if Apply(s, step).place[x] == Resident(k) {
      ResidentIn(Apply(s, step), k, x);
    }
  }

  lemma PlaceMoves(s: State, step: Step, k: nat, x: Item)
    requires Inv(s) && Enabled(s, step) && x in s.place && s.place[x] == Resident(k)
    ensures var s' := Apply(s, step);
            x in s'.place && (s'.place[x] == Resident(k) || (step.CallDestroy? && x !in s.destroyed && x in s'.destroyed))
  {
    hide PcAfter, TableAfter, RingAfter, EntryAfter, HeldAfter, SafeAfter, HeldInRegion, ScansSound, SafeIsSafe;
    assert PcRing(s, step.t, s.threads[step.t].pc) && ThreadShaped(|s.table|, |s.ring|, s.threads[step.t]);
  }

  /** The item is still being pushed by t, or in a slot, or destroyed. */
  ghost predicate Somewhere(s: State, t: nat, x: Item) {
    Pushing(s, t, x) || (exists k :: InSlot(s, k, x)) || x in s.destroyed
  }

  lemma {:induction false} NotLost(states: seq<State>, steps: seq<Step>, j: nat, i: nat, t: nat, x: Item)
    requires Run(states, steps) && j < i < |states| && steps[j] == BeginPush(t, x)
    ensures Somewhere(states[i], t, x)
    decreases i
  {
    hide *;
    StepOfRun(states, steps, i - 1);
    if i == j + 1 {
      PushBegins(states[j], t, x);
    } else {
      NotLost(states, steps, j, i - 1, t, x);
      NotLostNow(states[i - 1], steps[i - 1], t, x);
    }
  }

  /** Exactly one of the three. */
  ghost predicate OneOf(a: bool, b: bool, c: bool) {
    (a || b || c) && !(a && b) && !(a && c) && !(b && c)
  }

  /**
   * From the moment a thread hands an item to the list, in every later state of the run, exactly one
   * of three things holds: that thread is still pushing it, exactly one slot holds it, or it is destroyed.
   */
  lemma {:induction false} NeverLost(states: seq<State>, steps: seq<Step>, j: nat, i: nat, t: nat, x: Item)
    requires Run(states, steps) && j < i < |states| && steps[j] == BeginPush(t, x)
    ensures var s := states[i]; OneOf(Pushing(s, t, x), exists k :: InSlot(s, k, x), x in s.destroyed)
    ensures forall k, l :: InSlot(states[i], k, x) && InSlot(states[i], l, x) ==> k == l
  {
    NotLost(states, steps, j, i, t, x);
    InvOnRun(states, steps, i);
    hide Run, Inv, Pushing, InSlot;
    AtMostOnce(states[i], x);
  }

  lemma NotLostNow(s: State, step: Step, t: nat, x: Item)
    requires Inv(s) && Enabled(s, step)
    requires Somewhere(s, t, x)
    ensures Somewhere(Apply(s, step), t, x)
  {
    if Pushing(s, t, x) {
      PushMoves(s, step, t, x);
      hide Inv, Enabled, Apply;
      assert step == FillSlot(t) ==> InSlot(Apply(s, step), s.threads[t].pc.slot, x);
    } else if k :| InSlot(s, k, x) {
      hide Inv, Enabled, Apply, InSlot;
      ResidentMoves(s, step, k, x);
    } else {
      StaysDestroyed(s, step, x);
    }
  }

  lemma PushBegins(s: State, t: nat, x: Item)
    requires Inv(s) && Enabled(s, BeginPush(t, x))
    ensures Pushing(Apply(s, BeginPush(t, x)), t, x) && Somewhere(Apply(s, BeginPush(t, x)), t, x)
    ensures Apply(s, BeginPush(t, x)).threads[t].pc.task == Push(x, s.current)
  {
  }

  lemma StaysDestroyed(s: State, step: Step, x: Item)
    requires WellShaped(s) && Enabled(s, step) && x in s.destroyed
    ensures x in Apply(s, step).destroyed
  {
  }

  /**
   * A push that has returned has stored its item: the last thing it did was to publish it in a slot,
   * stamped with the epoch that was current when the push began, and until then it never let go of it.
   */
  lemma {:induction false} PushStores(states: seq<State>, steps: seq<Step>, j: nat, i: nat, t: nat, x: Item) returns (w: nat, k: nat)
    requires Run(states, steps) && j < i < |states| && steps[j] == BeginPush(t, x)
    requires !Pushing(states[i], t, x)
    ensures j < w < i && steps[w] == FillSlot(t) && states[w + 1].threads[t].pc == Idle
    ensures InSlot(states[w + 1], k, x) && states[w + 1].ring[k] == Slot(At(states[j].current), x)
    ensures forall m :: j < m <= w ==> Pushing(states[m], t, x)
  {
    w := LastPushing(states, steps, j, i, t, x);
    hide Run, Inv, Enabled, Apply;
    StepOfRun(states, steps, w);
    PushMoves(states[w], steps[w], t, x);
    k := states[w].threads[t].pc.slot;
  }

  lemma {:induction false} LastPushing(states: seq<State>, steps: seq<Step>, j: nat, i: nat, t: nat, x: Item) returns (w: nat)
    requires Run(states, steps) && j < i < |states| && steps[j] == BeginPush(t, x)
    requires !Pushing(states[i], t, x)
    ensures j < w < i && !Pushing(states[w + 1], t, x)
    ensures forall m :: j < m <= w ==> Pushing(states[m], t, x) && states[m].threads[t].pc.task == Push(x, states[j].current)
    decreases i
  {
    hide Run, Inv, Apply, Enabled, Pushing;
    StepOfRun(states, steps, j);
    PushBegins(states[j], t, x);
    if m :| j < m < i && !Pushing(states[m], t, x) {
      w := LastPushing(states, steps, j, m, t, x);
    } else {
      w := i - 1;
      TaskKept(states, steps, j, w, t, x);
    }
  }

  lemma {:induction false} TaskKept(states: seq<State>, steps: seq<Step>, j: nat, i: nat, t: nat, x: Item)
    requires Run(states, steps) && j < i < |states| && steps[j] == BeginPush(t, x)
    requires forall m :: j < m <= i ==> Pushing(states[m], t, x)
    ensures forall m :: j < m <= i ==> Pushing(states[m], t, x) && states[m].threads[t].pc.task == Push(x, states[j].current)
    decreases i
  {
    hide Run, Inv, Apply, Enabled;
    StepOfRun(states, steps, i - 1);
    if i == j + 1 {
      PushBegins(states[j], t, x);
    } else {
      TaskKept(states, steps, j, i - 1, t, x);
      assert Pushing(states[i - 1], t, x) && Pushing(states[i], t, x);
      PushMoves(states[i - 1], steps[i - 1], t, x);
    }
  }

  /** The slot that step j of thread t found safe, holding x with stamp e. */
  ghost predicate FoundSafe(s: State, step: Step, t: nat, slot: nat, x: Item, e: nat) {
    && step == CheckSafe(t)
    && t < |s.threads|
    && s.threads[t].pc.Check?
    && s.threads[t].pc.slot == slot < |s.ring|
    && s.threads[t].pc.prior == At(e)
    && s.ring[slot].item == x
    && e <= s.safe
  }

  /** One step back from a thread about to destroy: either it was there already, or it has just found the stamp safe. */
  lemma DestroyBefore(s: State, step: Step, t: nat)
    requires Inv(s) && Enabled(s, step) && t < |s.threads|
    requires var s' := Apply(s, step);
             t < |s'.threads| && s'.threads[t].pc.Destroy? && s'.threads[t].pc.slot < |s'.ring|
    ensures var s' := Apply(s, step);
            var slot := s'.threads[t].pc.slot;
            && slot < |s.ring|
            && s'.ring[slot].item == s.ring[slot].item
            && (s.threads[t].pc == s'.threads[t].pc || exists e :: FoundSafe(s, step, t, slot, s.ring[slot].item, e))
  {
    if step.t == t {
      OwnDestroyBefore(s, step);
    } else {
      hide Apply, Enabled, EntriesOwned, EpochsInOrder, HeldInRegion, ScansSound, SafeIsSafe, DestroyedSound, SlotSound;
      FrameStep(s, step);
      ItemsFrame(s, step);
      assert PcRing(s, t, s.threads[t].pc);
      assert Owns(s.threads[t].pc, s.threads[t].pc.slot);
    }
  }

  lemma OwnDestroyBefore(s: State, step: Step)
    requires WellShaped(s) && Enabled(s, step)
    requires var s' := Apply(s, step);
             step.t < |s'.threads| && s'.threads[step.t].pc.Destroy? && s'.threads[step.t].pc.slot < |s'.ring|
    ensures var s' := Apply(s, step);
            var slot := s'.threads[step.t].pc.slot;
            && slot < |s.ring|
            && s'.ring[slot].item == s.ring[slot].item
            && (s.threads[step.t].pc == s'.threads[step.t].pc
                || exists e :: FoundSafe(s, step, step.t, slot, s.ring[slot].item, e))
  {
    assert ThreadShaped(|s.table|, |s.ring|, s.threads[step.t]);
    match step {
      case CheckSafe(_) =>
        var Check(slot, prior, _) := s.threads[step.t].pc;
        assert FoundSafe(s, step, step.t, slot, s.ring[slot].item, prior.epoch);
      case FillSlot(_) =>
      case CallDestroy(_) =>
      case SwapStamp(_) =>
      case _ =>
    }
  }

  lemma DestroyBack(states: seq<State>, steps: seq<Step>, i: nat, t: nat)
    requires Run(states, steps) && i < |steps|
    requires t < |states[i + 1].threads| && states[i + 1].threads[t].pc.Destroy?
    requires states[i + 1].threads[t].pc.slot < |states[i + 1].ring|
    ensures var slot := states[i + 1].threads[t].pc.slot;
            && t < |states[i].threads|
            && slot < |states[i].ring|
            && states[i + 1].ring[slot].item == states[i].ring[slot].item
            && (states[i].threads[t].pc == states[i + 1].threads[t].pc
                || exists e :: FoundSafe(states[i], steps[i], t, slot, states[i].ring[slot].item, e))
  {
    hide Apply, FoundSafe, Inv, Init, WellShaped, Enabled;
    InvOnRun(states, steps, i);
    SameThreads(states[i], steps[i]);
    DestroyBefore(states[i], steps[i], t);
  }

  lemma SameThreads(s: State, step: Step)
    requires Inv(s) && Enabled(s, step)
    ensures |Apply(s, step).threads| == |s.threads|
  {
    FrameStep(s, step);
  }

  /** A thread about to destroy an item has seen that item's stamp reported safe while it owned the slot. */
  lemma {:induction false} ReportedSafe(states: seq<State>, steps: seq<Step>, i: nat, t: nat)
    requires Run(states, steps) && i < |states|
    requires t < |states[i].threads| && states[i].threads[t].pc.Destroy?
    requires states[i].threads[t].pc.slot < |states[i].ring|
    ensures var slot := states[i].threads[t].pc.slot;
            exists j, e :: 0 <= j < i && FoundSafe(states[j], steps[j], t, slot, states[i].ring[slot].item, e)
  {
    hide FoundSafe, Apply, Enabled, WellShaped;
    if i > 0 {
      DestroyBack(states, steps, i - 1, t);
      if states[i - 1].threads[t].pc == states[i].threads[t].pc {
        ReportedSafe(states, steps, i - 1, t);
      }
    }
  }

  ghost predicate RemovedIn(s: State, x: Item, e: nat) {
    x in s.removedAt && s.removedAt[x] == e
  }

  lemma {:induction false} RemovalKept(states: seq<State>, steps: seq<Step>, j: nat, i: nat, x: Item, e: nat)
    requires Run(states, steps) && j <= i < |states| && RemovedIn(states[j], x, e)
    ensures RemovedIn(states[i], x, e)
    decreases i
  {
    hide *;
    if j < i {
      StepOfRun(states, steps, i - 1);
      RemovalKept(states, steps, j, i - 1, x, e);
      RemovalStays(states[i - 1], steps[i - 1], x, e);
    }
  }

  lemma RemovalStays(s: State, step: Step, x: Item, e: nat)
    requires Inv(s) && Enabled(s, step) && RemovedIn(s, x, e)
    ensures RemovedIn(Apply(s, step), x, e)
  {
    FrameStep(s, step);
  }

  /**
   * An item is destroyed only by the callback, out of the one slot that holds it, when nobody holds
   * it, and after the safe epoch was seen at or above the epoch in which it was removed.
   */
  lemma DestroyedWhenSafe(states: seq<State>, steps: seq<Step>, i: nat, x: Item) returns (j: nat)
    requires Run(states, steps) && i < |steps|
    requires x !in states[i].destroyed && x in states[i + 1].destroyed
    ensures steps[i].CallDestroy? && NotHeld(states[i], x) && exists k :: InSlot(states[i], k, x)
    ensures j < i && x in states[i].removedAt && states[i].removedAt[x] <= states[j].safe
  {
    var s, step := states[i], steps[i];
    InvOnRun(states, steps, i);
    var k := DestroysFrom(s, step, x);
    hide Inv, InSlot, Apply, Enabled, WellShaped, Init;
    ReportedSafe(states, steps, i, step.t);
    var e;
    j, e :| 0 <= j < i && FoundSafe(states[j], steps[j], step.t, k, x, e);
    InvOnRun(states, steps, j);
    StampBounds(states[j], steps[j], step.t, k, x, e);
    RemovalKept(states, steps, j, i, x, states[j].removedAt[x]);
  }

  lemma DestroysFrom(s: State, step: Step, x: Item) returns (k: nat)
    requires Inv(s) && Enabled(s, step) && x !in s.destroyed && x in Apply(s, step).destroyed
    ensures step.CallDestroy? && step.t < |s.threads| && s.threads[step.t].pc.Destroy? && s.threads[step.t].pc.slot == k < |s.ring|
    ensures s.ring[k].item == x && NotHeld(s, x) && InSlot(s, k, x)
  {
    assert PcRing(s, step.t, s.threads[step.t].pc) && ThreadShaped(|s.table|, |s.ring|, s.threads[step.t]);
    hide PcAfter, TableAfter, RingAfter, EntryAfter, HeldAfter, SafeAfter, PlaceAfter;
    k := s.threads[step.t].pc.slot;
    assert Owns(s.threads[step.t].pc, k);
  }

  lemma StampBounds(s: State, step: Step, t: nat, k: nat, x: Item, e: nat)
    requires Inv(s) && FoundSafe(s, step, t, k, x, e)
    ensures x in s.removedAt && s.removedAt[x] <= s.safe
  {
    assert PcRing(s, t, s.threads[t].pc);
  }
}

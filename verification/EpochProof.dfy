/** Every step keeps the invariant of the epoch machine. */
module EpochProof {
  import opened EpochMachine

  lemma InitInv(s: State)
    requires Init(s)
    ensures Inv(s)
  {
  }

  /** What a step of thread t leaves alone. */
  ghost predicate Framed(s: State, t: nat, s': State) {
    && t < |s.threads| == |s'.threads|
    && |s'.table| == |s.table|
    && |s'.ring| == |s.ring|
    && s.current <= s'.current
    && (forall u :: 0 <= u < |s.threads| && u != t ==> s'.threads[u] == s.threads[u])
    && (forall x {:trigger x in s.removedAt} :: x in s.removedAt ==> x in s'.removedAt && s'.removedAt[x] == s.removedAt[x])
    && (forall x {:trigger x in s'.removedAt} :: x in s'.removedAt && x !in s.removedAt ==> s'.removedAt[x] == s.current)
  }

  lemma FrameStep(s: State, step: Step)
    requires WellShaped(s) && PlacesSound(s) && Enabled(s, step)
    ensures Framed(s, step.t, Apply(s, step))
  {
    hide PcAfter, EntryAfter, HeldAfter, TableAfter, RingAfter, PlaceAfter, DestroyedAfter;
  }

  /** Other threads' entries keep their epochs. */
  lemma OthersEntries(s: State, step: Step, u: nat)
    requires WellShaped(s) && EntriesOwned(s) && Enabled(s, step) && u < |s.threads| && u != step.t
    ensures var s' := Apply(s, step);
            u < |s'.threads| && s'.threads[u] == s.threads[u] && |s'.table| == |s.table|
            && (s.threads[u].entry.Some? ==> s'.table[s.threads[u].entry.value] == s.table[s.threads[u].entry.value])
  {
    hide PcAfter, EntryAfter, HeldAfter, RingAfter, PlaceAfter, DestroyedAfter, SafeAfter;
  }

  lemma ShapeStep(s: State, step: Step)
    requires WellShaped(s) && Enabled(s, step)
    ensures WellShaped(Apply(s, step))
  {
    PcShapeStep(s, step);
    hide PcAfter, EntryAfter, HeldAfter, TableAfter, RingAfter, PlaceAfter, DestroyedAfter, SafeAfter, ThreadShaped, Enabled;
  }

  lemma PcShapeStep(s: State, step: Step)
    requires WellShaped(s) && Enabled(s, step)
    ensures ThreadShaped(|s.table|, |s.ring|, Thread(EntryAfter(s, step), PcAfter(s, step), HeldAfter(s, step)))
  {
    hide HeldAfter, Rolls, TailSlot, Protected;
    assert ThreadShaped(|s.table|, |s.ring|, s.threads[step.t]);
  }

  /** The thread's own entry carries its id after its step too. */
  lemma OwnEntry(s: State, step: Step)
    requires WellShaped(s) && EntriesOwned(s) && Enabled(s, step)
    ensures var s' := Apply(s, step);
            step.t < |s'.threads| == |s.threads| && |s'.table| == |s.table|
            && (s'.threads[step.t].entry.Some? ==>
                  s'.threads[step.t].entry.value < |s'.table| && s'.table[s'.threads[step.t].entry.value].threadId == step.t + 1)
  {
    hide PcAfter, HeldAfter, RingAfter, PlaceAfter, DestroyedAfter, SafeAfter;
    assert ThreadShaped(|s.table|, |s.ring|, s.threads[step.t]);
  }

  lemma EntriesStep(s: State, step: Step)
    requires WellShaped(s) && EntriesOwned(s) && Enabled(s, step)
    ensures EntriesOwned(Apply(s, step))
  {
    var s' := Apply(s, step);
    OwnEntry(s, step);
    hide Apply, Enabled, WellShaped;
    forall u | 0 <= u < |s'.threads|
      ensures s'.threads[u].entry.Some? ==>
        s'.threads[u].entry.value < |s'.table| && s'.table[s'.threads[u].entry.value].threadId == u + 1
    {
      if u != step.t {
        OthersEntries(s, step, u);
      }
    }
  }

  lemma EpochsStep(s: State, step: Step)
    requires WellShaped(s) && PlacesSound(s) && EpochsInOrder(s) && Enabled(s, step)
    ensures EpochsInOrder(Apply(s, step))
  {
    hide EntryAfter, HeldAfter, RingAfter, PlaceAfter, DestroyedAfter;
    var s', t := Apply(s, step), step.t;
    assert ThreadShaped(|s.table|, |s.ring|, s.threads[t]) && PcEpochs(s.current, s.threads[t].pc);
    assert PcEpochs(s'.current, s'.threads[t].pc);
  }

  lemma HeldStep(s: State, step: Step)
    requires WellShaped(s) && EntriesOwned(s) && EpochsInOrder(s) && HeldInRegion(s) && PlacesSound(s)
    requires Enabled(s, step)
    ensures HeldInRegion(Apply(s, step))
  {
    var s', t := Apply(s, step), step.t;
    FrameStep(s, step);
    hide RingAfter, PlaceAfter, DestroyedAfter, SafeAfter;
    forall u, x {:trigger x in s'.threads[u].held} | 0 <= u < |s'.threads| && x in s'.threads[u].held
      ensures HeldBy(s', u, x)
    {
      if u != t {
        OthersEntries(s, step, u);
        assert HeldBy(s, u, x);
      } else if x in s.threads[t].held {
        assert HeldBy(s, t, x);
      }
    }
  }

  /** A step adds to what a thread holds only items that are linked, and never moves the entry of a holder. */
  ghost predicate HoldsFramed(s: State, t: nat, s': State)
    requires t < |s.threads| && t < |s'.threads|
  {
    forall x :: x in s'.threads[t].held && x in s'.removedAt ==>
      x in s.threads[t].held && s'.threads[t].entry == s.threads[t].entry
  }

  lemma HoldsStep(s: State, step: Step)
    requires WellShaped(s) && HeldInRegion(s) && PlacesSound(s) && Enabled(s, step)
    ensures step.t < |Apply(s, step).threads| && HoldsFramed(s, step.t, Apply(s, step))
  {
    hide PcAfter, RingAfter, PlaceAfter, TableAfter, DestroyedAfter, SafeAfter;
    forall x | x in s.threads[step.t].held
      ensures HeldBy(s, step.t, x)
    {
    }
  }

  lemma ScansStep(s: State, step: Step)
    requires WellShaped(s) && EntriesOwned(s) && EpochsInOrder(s) && HeldInRegion(s) && ScansSound(s) && PlacesSound(s)
    requires Enabled(s, step)
    ensures ScansSound(Apply(s, step))
  {
    var s', t := Apply(s, step), step.t;
    hide RingAfter, PlaceAfter, DestroyedAfter, SafeAfter;
    FrameStep(s, step);
    HoldsStep(s, step);
    assert ScanPassed(s, s.threads[t].pc) && ThreadShaped(|s.table|, |s.ring|, s.threads[t]);
    assert PcEpochs(s.current, s.threads[t].pc);
    forall u | 0 <= u < |s'.threads|
      ensures ScanPassed(s', s'.threads[u].pc)
    {
      if u != t {
        ScanKept(s, t, s', s.threads[u].pc);
      } else if step.AddEpoch? {
        ScanStarts(s, t, s');
      } else if step.ScanEntry? {
        ScanMoves(s, t, s');
      }
    }
  }

  /** A scan in progress stays sound while other threads move. */
  lemma ScanKept(s: State, t: nat, s': State, pc: Pc)
    requires Framed(s, t, s') && HoldsFramed(s, t, s')
    requires PcEpochs(s.current, pc) && ScanPassed(s, pc)
    ensures ScanPassed(s', pc)
  {
    forall u, x {:trigger x in s'.threads[u].held} | 0 <= u < |s'.threads| && x in s'.threads[u].held && x in s'.removedAt
      ensures x in s.threads[u].held && s'.threads[u].entry == s.threads[u].entry
    {
    }
  }

  lemma ScanStarts(s: State, t: nat, s': State)
    requires WellShaped(s) && HeldInRegion(s) && t < |s.threads| == |s'.threads| && s.threads[t].pc.FetchAdd?
    requires s'.removedAt == s.removedAt && s'.threads == s.threads[t := s.threads[t].(pc := s'.threads[t].pc)]
    requires s'.threads[t].pc == ScanFrom(s, 0, s.current, s.threads[t].pc.slot, s.threads[t].pc.task)
    ensures ScanPassed(s', s'.threads[t].pc)
  {
    forall u, x {:trigger x in s'.threads[u].held} | 0 <= u < |s'.threads| && x in s'.threads[u].held
      ensures s'.threads[u].entry.Some?
    {
      assert x in s.threads[u].held;
    }
  }

  /** Reading one entry extends what the scan has passed: a holder at that entry lowers the bound. */
  lemma ScanMoves(s: State, t: nat, s': State)
    requires WellShaped(s) && EntriesOwned(s) && HeldInRegion(s) && t < |s.threads| && s.threads[t].pc.Scan?
    requires ScanPassed(s, s.threads[t].pc)
    requires var Scan(i, oldest, slot, task) := s.threads[t].pc;
             && i < |s.table|
             && (var e := s.table[i].epoch;
                 && |s'.threads| == |s.threads|
                 && s'.removedAt == s.removedAt && s'.threads == s.threads[t := s.threads[t].(pc := s'.threads[t].pc)]
                 && s'.threads[t].pc == ScanFrom(s, i + 1, if e != 0 && e < oldest then e else oldest, slot, task))
    ensures ScanPassed(s', s'.threads[t].pc)
  {
    var Scan(i, oldest, slot, task) := s.threads[t].pc;
    var e := s.table[i].epoch;
    var oldest' := if e != 0 && e < oldest then e else oldest;
    forall u, x {:trigger x in s'.threads[u].held} | 0 <= u < |s'.threads| && x in s'.threads[u].held && RemovedBefore(s', x, oldest')
      ensures s'.threads[u].entry.Some? && i + 1 <= s'.threads[u].entry.value < |s.table|
    {
      assert x in s.threads[u].held;
      assert HeldBy(s, u, x);
    }
  }

  lemma SafeStep(s: State, step: Step)
    requires WellShaped(s) && EpochsInOrder(s) && HeldInRegion(s) && ScansSound(s) && SafeIsSafe(s) && PlacesSound(s)
    requires Enabled(s, step)
    ensures SafeIsSafe(Apply(s, step))
  {
    FrameStep(s, step);
    HoldsStep(s, step);
    assert ScanPassed(s, s.threads[step.t].pc) && ThreadShaped(|s.table|, |s.ring|, s.threads[step.t]);
    hide HeldInRegion, PcAfter, EntryAfter, HeldAfter, TableAfter, RingAfter, PlaceAfter, DestroyedAfter, ScanPassed, SafeIsSafe;
    if step.StoreSafe? {
      SafeStored(s, step.t, Apply(s, step));
    } else {
      SafeKept(s, step.t, Apply(s, step));
    }
  }

  lemma SafeKept(s: State, t: nat, s': State)
    requires Framed(s, t, s') && HoldsFramed(s, t, s') && SafeIsSafe(s) && s'.safe == s.safe < s.current
    ensures SafeIsSafe(s')
  {
  }

  /** A scan that has passed the whole table leaves nothing below its bound in anybody's hands. */
  lemma SafeStored(s: State, t: nat, s': State)
    requires Framed(s, t, s') && HoldsFramed(s, t, s') && s.threads[t].pc.SetSafe? && ScanPassed(s, s.threads[t].pc)
    requires s'.removedAt == s.removedAt && s'.safe + 1 == s.threads[t].pc.oldest
    ensures SafeIsSafe(s')
  {
  }

  lemma PlacesStep(s: State, step: Step)
    requires WellShaped(s) && PlacesSound(s) && RingSound(s) && Enabled(s, step)
    ensures PlacesSound(Apply(s, step))
  {
    hide PcAfter, EntryAfter, HeldAfter, TableAfter, RingAfter, DestroyedAfter, SafeAfter, RingSound;
    if step.CallDestroy? || step.FillSlot? {
      SlotPlaces(s, step);
    } else if step.Link? || step.Unlink? {
      assert |Apply(s, step).ring| == |s.ring|;
    } else {
      SamePlaces(s, Apply(s, step)) by {
        hide PlacesSound;
      }
    }
  }

  lemma SamePlaces(s: State, s': State)
    requires PlacesSound(s) && s'.place == s.place && s'.removedAt == s.removedAt && s'.current >= s.current
    requires |s'.ring| == |s.ring| && |s'.threads| == |s.threads|
    ensures PlacesSound(s')
  {
  }

  lemma SlotPlaces(s: State, step: Step)
    requires WellShaped(s) && PlacesSound(s) && RingSound(s) && Enabled(s, step)
    requires step.CallDestroy? || step.FillSlot?
    ensures PlacesSound(Apply(s, step))
  {
    var th, s' := s.threads[step.t], Apply(s, step);
    assert PcRing(s, step.t, th.pc) && ThreadShaped(|s.table|, |s.ring|, th);
    hide PlacesSound, RingSound, PcAfter, EntryAfter, HeldAfter, TableAfter, RingAfter, DestroyedAfter, SafeAfter, Vacant, NotHeld;
    if step.CallDestroy? {
      MovedPlaces(s, s.ring[th.pc.slot].item, Destroyed, s');
    } else if th.pc.task.Push? {
      MovedPlaces(s, th.pc.task.item, Resident(th.pc.slot), s');
    } else {
      SamePlaces(s, s');
    }
  }

  /** An item that is no longer linked goes from one place to another. */
  lemma MovedPlaces(s: State, x: Item, p: Place, s': State)
    requires PlacesSound(s) && x in s.removedAt && p != Linked && !p.Removed? && (p.Resident? ==> p.slot < |s.ring|)
    requires s'.place == s.place[x := p] && s'.removedAt == s.removedAt && s'.current == s.current
    requires |s'.ring| == |s.ring| && |s'.threads| == |s.threads|
    ensures PlacesSound(s')
  {
  }

  // ----- the ring -----

  ghost predicate SameResidents(s: State, s': State, k: nat) {
    forall x {:trigger x in s.place} {:trigger x in s'.place} ::
      x in s'.place && s'.place[x] == Resident(k) <==> x in s.place && s.place[x] == Resident(k)
  }

  /** What a step of thread t leaves alone in the ring and among the items. */
  ghost predicate RingFramed(s: State, t: nat, s': State)
    requires t < |s.threads|
  {
    && Framed(s, t, s')
    && HoldsFramed(s, t, s')
    && (forall k :: 0 <= k < |s.ring| && !Owns(s.threads[t].pc, k) ==>
          && s'.ring[k].item == s.ring[k].item
          && (s'.ring[k].stamp == s.ring[k].stamp || s'.ring[k].stamp == Claimed)
          && SameResidents(s, s', k))
    && (forall x {:trigger x in s.place} :: x in s.place && s.place[x].Removed? && s.place[x].thread != t ==>
          x in s'.place && s'.place[x] == s.place[x])
  }

  lemma RingFrame(s: State, step: Step)
    requires WellShaped(s) && HeldInRegion(s) && PlacesSound(s) && RingSound(s) && Enabled(s, step)
    ensures RingFramed(s, step.t, Apply(s, step))
  {
    hide HeldInRegion;
    FrameStep(s, step);
    HoldsStep(s, step);
    ItemsFrame(s, step);
  }

  lemma ItemsFrame(s: State, step: Step)
    requires WellShaped(s) && RingSound(s) && Enabled(s, step)
    ensures var s', t := Apply(s, step), step.t;
            && |s'.ring| == |s.ring|
            && (forall k :: 0 <= k < |s.ring| && !Owns(s.threads[t].pc, k) ==>
                  && s'.ring[k].item == s.ring[k].item
                  && (s'.ring[k].stamp == s.ring[k].stamp || s'.ring[k].stamp == Claimed)
                  && SameResidents(s, s', k))
            && (forall x {:trigger x in s.place} :: x in s.place && s.place[x].Removed? && s.place[x].thread != t ==>
                  x in s'.place && s'.place[x] == s.place[x])
  {
    hide PcAfter, EntryAfter, HeldAfter, TableAfter, DestroyedAfter, SafeAfter, HasOwner, Vacant;
    assert PcRing(s, step.t, s.threads[step.t].pc) && ThreadShaped(|s.table|, |s.ring|, s.threads[step.t]);
  }

  lemma SlotKept(s: State, t: nat, s': State, k: nat)
    requires t < |s.threads| && RingFramed(s, t, s') && k < |s.ring| && !Owns(s.threads[t].pc, k)
    requires SlotSound(s, k)
    ensures SlotSound(s', k)
  {
    assert SameResidents(s, s', k);
  }

  lemma NotHeldKept(s: State, t: nat, s': State, x: Item)
    requires t < |s.threads| && Framed(s, t, s') && HoldsFramed(s, t, s')
    requires x in s.removedAt && NotHeld(s, x)
    ensures NotHeld(s', x)
  {
  }

  lemma PcRingKept(s: State, t: nat, s': State, u: nat)
    requires t < |s.threads| && u < |s.threads| && u != t && RingFramed(s, t, s') && RingSound(s)
    ensures PcRing(s', u, s.threads[u].pc)
  {
    var pc := s.threads[u].pc;
    assert PcRing(s, u, pc);
    if pc.Check? || pc.Destroy? || pc.Fill? {
      var k := pc.slot;
      assert Owns(s.threads[u].pc, k);
      assert !Owns(s.threads[t].pc, k);
      assert SameResidents(s, s', k);
      if pc.Destroy? {
        var e :| Stored(s, k, e);
        NotHeldKept(s, t, s', s.ring[k].item);
        assert Stored(s', k, e);
      }
    }
  }

  /** IsSafeToReclaim: an item whose stamp is not above the safe epoch is held by nobody. */
  lemma SafeMeansNotHeld(s: State, x: Item, stamp: nat)
    requires SafeIsSafe(s) && x in s.removedAt && s.removedAt[x] <= stamp <= s.safe
    ensures NotHeld(s, x)
  {
  }

  lemma CheckMoved(s: State, step: Step)
    requires WellShaped(s) && PlacesSound(s) && RingSound(s) && SafeIsSafe(s) && Enabled(s, step) && step.CheckSafe?
    ensures PcRing(Apply(s, step), step.t, Apply(s, step).threads[step.t].pc)
  {
    var s', t := Apply(s, step), step.t;
    var Check(slot, prior, task) := s.threads[t].pc;
    assert PcRing(s, t, s.threads[t].pc) && ThreadShaped(|s.table|, |s.ring|, s.threads[t]);
    if prior.At? && prior.epoch <= s.safe {
      SafeMeansNotHeld(s, s.ring[slot].item, prior.epoch);
      assert NotHeld(s', s'.ring[slot].item);
      assert Stored(s', slot, prior.epoch);
    }
  }

  lemma ClaimMoved(s: State, step: Step)
    requires WellShaped(s) && PlacesSound(s) && RingSound(s) && Enabled(s, step)
    requires step.SwapStamp? || step.CallDestroy?
    ensures PcRing(Apply(s, step), step.t, Apply(s, step).threads[step.t].pc)
  {
    var pc := s.threads[step.t].pc;
    assert PcRing(s, step.t, pc) && ThreadShaped(|s.table|, |s.ring|, s.threads[step.t]);
    assert SlotSound(s, pc.slot);
  }

  /** The moving thread's own claim on the ring. */
  lemma PcRingMoved(s: State, step: Step)
    requires WellShaped(s) && PlacesSound(s) && RingSound(s) && SafeIsSafe(s) && Enabled(s, step)
    ensures PcRing(Apply(s, step), step.t, Apply(s, step).threads[step.t].pc)
  {
    var s', t := Apply(s, step), step.t;
    var pc := s.threads[t].pc;
    if step.CheckSafe? {
      CheckMoved(s, step);
    } else if step.SwapStamp? || step.CallDestroy? {
      ClaimMoved(s, step);
    } else {
      assert PcRing(s, t, pc) && ThreadShaped(|s.table|, |s.ring|, s.threads[t]);
    }
  }

  lemma SlotMoved(s: State, step: Step, k: nat)
    requires WellShaped(s) && PlacesSound(s) && RingSound(s) && Enabled(s, step) && k < |s.ring|
    requires Owns(s.threads[step.t].pc, k)
    ensures k < |Apply(s, step).ring| && SlotSound(Apply(s, step), k)
  {
    FrameStep(s, step);
    assert SlotSound(s, k) && PcRing(s, step.t, s.threads[step.t].pc);
  }

  lemma NewlyOwned(s: State, step: Step, k: nat)
    requires WellShaped(s) && Enabled(s, step)
    requires step.t < |Apply(s, step).threads| && Owns(Apply(s, step).threads[step.t].pc, k)
    ensures Owns(s.threads[step.t].pc, k) || (k < |s.ring| && s.ring[k].stamp != Claimed)
  {
    assert ThreadShaped(|s.table|, |s.ring|, s.threads[step.t]);
  }

  lemma OwnersStep(s: State, t: nat, s': State)
    requires Framed(s, t, s') && RingSound(s)
    requires forall k: nat :: Owns(s'.threads[t].pc, k) ==> Owns(s.threads[t].pc, k) || (k < |s.ring| && s.ring[k].stamp != Claimed)
    ensures forall u, v, k {:trigger Owns(s'.threads[u].pc, k), Owns(s'.threads[v].pc, k)} ::
              0 <= u < |s'.threads| && 0 <= v < |s'.threads| && Owns(s'.threads[u].pc, k) && Owns(s'.threads[v].pc, k) ==> u == v
  {
    forall u: int, k: nat | 0 <= u < |s'.threads| && u != t && Owns(s'.threads[u].pc, k)
      ensures !Owns(s'.threads[t].pc, k)
    {
      assert Owns(s.threads[u].pc, k) && PcRing(s, u, s.threads[u].pc);
    }
  }

  /** A claimed slot always has a thread that will release it. */
  lemma OwnerStep(s: State, step: Step, k: nat)
    requires WellShaped(s) && RingSound(s) && Enabled(s, step) && k < |s.ring|
    requires k < |Apply(s, step).ring| && Apply(s, step).ring[k].stamp == Claimed
    ensures HasOwner(Apply(s, step), k)
  {
    var s', t := Apply(s, step), step.t;
    if s.ring[k].stamp == Claimed {
      assert HasOwner(s, k);
      var u :| 0 <= u < |s.threads| && Owns(s.threads[u].pc, k);
      assert PcRing(s, u, s.threads[u].pc);
      assert Owns(s'.threads[u].pc, k);
    } else {
      assert Owns(s'.threads[t].pc, k);
    }
  }

  lemma RingStep(s: State, step: Step)
    requires Inv(s) && Enabled(s, step)
    ensures RingSound(Apply(s, step))
  {
    hide SlotSound, PcRing, HasOwner, HeldInRegion, ScansSound, DestroyedSound;
    var s', t := Apply(s, step), step.t;
    RingFrame(s, step);
    forall k | 0 <= k < |s'.ring|
      ensures SlotSound(s', k)
    {
      if Owns(s.threads[t].pc, k) {
        SlotMoved(s, step, k);
      } else {
        SlotKept(s, t, s', k);
      }
    }
    forall k | 0 <= k < |s'.ring| && s'.ring[k].stamp == Claimed
      ensures HasOwner(s', k)
    {
      OwnerStep(s, step, k);
    }
    forall u | 0 <= u < |s'.threads|
      ensures PcRing(s', u, s'.threads[u].pc)
    {
      if u == t {
        PcRingMoved(s, step);
      } else {
        PcRingKept(s, t, s', u);
      }
    }
    forall k: nat | Owns(s'.threads[t].pc, k)
      ensures Owns(s.threads[t].pc, k) || (k < |s.ring| && s.ring[k].stamp != Claimed)
    {
      NewlyOwned(s, step, k);
    }
    OwnersStep(s, t, s');
  }

  lemma DestroyedStep(s: State, step: Step)
    requires WellShaped(s) && HeldInRegion(s) && PlacesSound(s) && RingSound(s) && DestroyedSound(s) && Enabled(s, step)
    ensures DestroyedSound(Apply(s, step))
  {
    var s', t := Apply(s, step), step.t;
    RingFrame(s, step);
    assert PcRing(s, t, s.threads[t].pc) && ThreadShaped(|s.table|, |s.ring|, s.threads[t]);
    forall x | x in s'.destroyed
      ensures NotHeld(s', x)
    {
      assert x in s.removedAt && NotHeld(s, x);
      NotHeldKept(s, t, s', x);
    }
  }

  // ----- whole runs -----

  lemma InvStep(s: State, step: Step)
    requires Inv(s) && Enabled(s, step)
    ensures Inv(Apply(s, step))
  {
    hide WellShaped, EntriesOwned, EpochsInOrder, HeldInRegion, ScansSound, SafeIsSafe, RingSound, PlacesSound, DestroyedSound;
    ShapeStep(s, step);
    EntriesStep(s, step);
    EpochsStep(s, step);
    HeldStep(s, step);
    ScansStep(s, step);
    SafeStep(s, step);
    RingStep(s, step);
    PlacesStep(s, step);
    DestroyedStep(s, step);
  }

  ghost predicate IsStep(s: State, step: Step, s': State) {
    WellShaped(s) && Enabled(s, step) && s' == Apply(s, step)
  }

  /** The states of a run: each follows from the one before by an enabled step of some thread. */
  ghost predicate Run(states: seq<State>, steps: seq<Step>) {
    && |states| == |steps| + 1
    && Init(states[0])
    && (forall i :: 0 <= i < |steps| ==> IsStep(states[i], steps[i], states[i + 1]))
  }

  lemma {:induction false} InvOnRun(states: seq<State>, steps: seq<Step>, i: nat)
    requires Run(states, steps) && i < |states|
    ensures Inv(states[i])
  {
    hide Inv, Enabled, WellShaped, Init, Apply;
    if i == 0 {
      InitInv(states[0]);
    } else {
      InvOnRun(states, steps, i - 1);
      assert IsStep(states[i - 1], steps[i - 1], states[i]);
      InvStep(states[i - 1], steps[i - 1]);
    }
  }

  /** One step of a run. */
  lemma StepOfRun(states: seq<State>, steps: seq<Step>, i: nat)
    requires Run(states, steps) && i + 1 < |states|
    ensures |states| == |steps| + 1 && Inv(states[i]) && Enabled(states[i], steps[i]) && states[i + 1] == Apply(states[i], steps[i])
  {
    hide Inv, Enabled, WellShaped, Init, Apply;
    InvOnRun(states, steps, i);
    assert IsStep(states[i], steps[i], states[i + 1]);
  }
}

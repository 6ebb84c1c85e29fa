/**
 * What each operation of the epoch manager and the garbage ring comes to: exactly, when no other
 * thread moves while it runs, and what is left of that when others do.
 */
module EpochAlone {
  import opened Sequences
  import opened EpochMachine
  import opened EpochProof
  import LocalGarbage

  predicate Busy(s: State, t: nat) {
    t < |s.threads| && s.threads[t].pc != Idle
  }

  /** The one step a thread inside an operation can make. */
  function Next(s: State, t: nat): (step: Step)
    requires Busy(s, t)
    ensures step.t == t
  {
    match s.threads[t].pc
    case Probe(_, _) => ProbeEntry(t)
    case Reserve(_, _) => ReserveEntry(t)
    case Enter(_) => StoreEntry(t)
    case Pick(_) => PickSlot(t)
    case FetchAdd(_, _) => AddEpoch(t)
    case Scan(_, _, _, _) => ScanEntry(t)
    case SetSafe(_, _, _) => StoreSafe(t)
    case Peek(_, _) => PeekStamp(t)
    case Claim(_, _, _) => SwapStamp(t)
    case Check(_, _, _) => CheckSafe(t)
    case Destroy(_, _) => CallDestroy(t)
    case Fill(_, _) => FillSlot(t)
  }

  lemma {:induction false} OnlyNext(s: State, step: Step)
    requires Busy(s, step.t)
    ensures Enabled(s, step) <==> step == Next(s, step.t)
  {
  }

  /** n steps of thread t, and of no other, lead from s to s'. */
  ghost predicate Alone(s: State, t: nat, n: nat, s': State)
    decreases n
  {
    if n == 0 then s' == s
    else WellShaped(s) && Busy(s, t) && Enabled(s, Next(s, t)) && Alone(Apply(s, Next(s, t)), t, n - 1, s')
  }

  lemma {:induction false} AloneThen(s: State, t: nat, m: nat, s1: State, n: nat, s2: State)
    requires Alone(s, t, m, s1) && Alone(s1, t, n, s2)
    ensures Alone(s, t, m + n, s2)
    decreases m
  {
    hide WellShaped, Enabled, Apply, Next, Busy;
    if m > 0 {
      AloneThen(Apply(s, Next(s, t)), t, m - 1, s1, n, s2);
    }
  }

  lemma {:induction false} OneStep(s: State, t: nat)
    requires WellShaped(s) && Busy(s, t)
    ensures Enabled(s, Next(s, t)) && Alone(s, t, 1, Apply(s, Next(s, t)))
  {
    OnlyNext(s, Next(s, t));
    hide WellShaped, Enabled, Apply, Next;
    assert Alone(Apply(s, Next(s, t)), t, 0, Apply(s, Next(s, t)));
  }

  /** There is only one way to go on alone. */
  lemma {:induction false} AloneOneWay(s: State, t: nat, n: nat, a: State, b: State)
    requires Alone(s, t, n, a) && Alone(s, t, n, b)
    ensures a == b
    decreases n
  {
    hide WellShaped, Enabled, Apply, Next, Busy;
    if n > 0 {
      AloneOneWay(Apply(s, Next(s, t)), t, n - 1, a, b);
    }
  }

  /** The part of a run in which only t moves and its operation goes on. */
  ghost predicate Undisturbed(states: seq<State>, steps: seq<Step>, i: nat, j: nat, t: nat) {
    && i <= j < |states|
    && |states| == |steps| + 1
    && forall m :: i <= m < j ==> steps[m].t == t && Busy(states[m], t)
  }

  lemma {:induction false} AloneInRun(states: seq<State>, steps: seq<Step>, i: nat, j: nat, t: nat)
    requires Run(states, steps) && Undisturbed(states, steps, i, j, t)
    ensures Alone(states[i], t, j - i, states[j])
    decreases j - i
  {
    if i < j {
      assert IsStep(states[i], steps[i], states[i + 1]);
      OnlyNext(states[i], steps[i]);
      hide WellShaped, Enabled, Apply, Next, Init;
      assert Undisturbed(states, steps, i + 1, j, t);
      AloneInRun(states, steps, i + 1, j, t);
    }
  }

  /** The same state with the thread at another point. */
  function Moved(s: State, t: nat, pc: Pc): State
    requires t < |s.threads|
  {
    s.(threads := s.threads[t := s.threads[t].(pc := pc)])
  }

  // ----- the safe epoch -----

  /** The least of a bound and the epochs published from entry i on. */
  function OldestFrom(table: seq<Entry>, i: nat, bound: nat): nat
    requires i <= |table|
    decreases |table| - i
  {
    if i == |table| then bound
    else
      var e := table[i].epoch;
      OldestFrom(table, i + 1, if e != 0 && e < bound then e else bound)
  }

  /** It is a lower bound of all of them, and one of them. */
  lemma {:induction false} OldestIs(table: seq<Entry>, i: nat, bound: nat)
    requires i <= |table|
    ensures var m := OldestFrom(table, i, bound);
      && m <= bound
      && (forall j :: i <= j < |table| && table[j].epoch != 0 ==> m <= table[j].epoch)
      && (m == bound || exists j :: i <= j < |table| && table[j].epoch != 0 && m == table[j].epoch)
    decreases |table| - i
  {
    if i < |table| {
      var e := table[i].epoch;
      OldestIs(table, i + 1, if e != 0 && e < bound then e else bound);
    }
  }

  lemma {:induction false} ScanStep(s: State, t: nat)
    requires WellShaped(s) && t < |s.threads| && s.threads[t].pc.Scan?
    ensures var Scan(i, oldest, slot, task) := s.threads[t].pc;
      && i < |s.table| && Enabled(s, ScanEntry(t))
      && var e := s.table[i].epoch;
         Apply(s, ScanEntry(t)) == Moved(s, t, ScanFrom(s, i + 1, if e != 0 && e < oldest then e else oldest, slot, task))
  {
    assert ThreadShaped(|s.table|, |s.ring|, s.threads[t]);
  }

  lemma {:induction false} ScanAlone(s: State, t: nat)
    requires WellShaped(s) && t < |s.threads| && s.threads[t].pc.Scan?
    ensures var Scan(i, oldest, slot, task) := s.threads[t].pc;
      && i < |s.table|
      && Alone(s, t, |s.table| - i, Moved(s, t, SetSafe(OldestFrom(s.table, i, oldest), slot, task)))
    decreases |s.table| - s.threads[t].pc.index
  {
    var Scan(i, oldest, slot, task) := s.threads[t].pc;
    ScanStep(s, t);
    OneStep(s, t);
    ShapeStep(s, Next(s, t));
    var s1 := Apply(s, Next(s, t));
    var e := s.table[i].epoch;
    var oldest' := if e != 0 && e < oldest then e else oldest;
    hide Apply, WellShaped, Enabled, Alone;
    assert OldestFrom(s.table, i, oldest) == OldestFrom(s.table, i + 1, oldest');
    if i + 1 < |s.table| {
      ScanAlone(s1, t);
      var s2 := Moved(s1, t, SetSafe(OldestFrom(s.table, i + 1, oldest'), slot, task));
      AloneThen(s, t, 1, s1, |s.table| - i - 1, s2);
      assert s2 == Moved(s, t, SetSafe(OldestFrom(s.table, i, oldest), slot, task));
    }
  }

  /** The state after a bump of the epoch that nobody disturbs. */
  function Bumped(s: State): State
    requires OldestFrom(s.table, 0, s.current) >= 1
  {
    s.(current := s.current + 1, safe := OldestFrom(s.table, 0, s.current) - 1)
  }

  lemma {:induction false} OldestPositive(s: State)
    requires WellShaped(s)
    ensures OldestFrom(s.table, 0, s.current) >= 1
  {
    OldestIs(s.table, 0, s.current);
  }

  lemma {:induction false} AddStep(s: State, t: nat)
    requires WellShaped(s) && t < |s.threads| && s.threads[t].pc.FetchAdd?
    ensures var FetchAdd(slot, task) := s.threads[t].pc;
      && Next(s, t) == AddEpoch(t) && Enabled(s, AddEpoch(t))
      && Apply(s, AddEpoch(t)) == Moved(s.(current := s.current + 1), t, Scan(0, s.current, slot, task))
  {
  }

  lemma {:induction false} SafeStored(s: State, t: nat)
    requires WellShaped(s) && t < |s.threads| && s.threads[t].pc.SetSafe?
    ensures var SetSafe(oldest, slot, task) := s.threads[t].pc;
      && Next(s, t) == StoreSafe(t) && Enabled(s, StoreSafe(t)) && oldest >= 1
      && Apply(s, StoreSafe(t)) == Moved(s.(safe := oldest - 1), t, if task == Bump then Idle else Peek(slot, task))
  {
    assert ThreadShaped(|s.table|, |s.ring|, s.threads[t]);
  }

  /** Shape is kept along the steps of one thread. */
  lemma {:induction false} ShapeAlone(s: State, t: nat, n: nat, s': State)
    requires WellShaped(s) && Alone(s, t, n, s')
    ensures WellShaped(s')
    decreases n
  {
    if n > 0 {
      ShapeStep(s, Next(s, t));
      hide WellShaped, Enabled, Apply, Next;
      ShapeAlone(Apply(s, Next(s, t)), t, n - 1, s');
    }
  }

  /**
   * BumpCurrentEpoch, undisturbed: the epoch grows by one, and the safe epoch becomes one less than
   * the least of the old epoch and all published ones.
   */
  lemma {:induction false} BumpAlone(s: State, t: nat)
    requires WellShaped(s) && t < |s.threads| && s.threads[t].pc.FetchAdd?
    ensures OldestFrom(s.table, 0, s.current) >= 1
    ensures var FetchAdd(slot, task) := s.threads[t].pc;
      Alone(s, t, |s.table| + 2, Moved(Bumped(s), t, if task == Bump then Idle else Peek(slot, task)))
  {
    var FetchAdd(slot, task) := s.threads[t].pc;
    OldestPositive(s);
    AddStep(s, t);
    OneStep(s, t);
    ShapeStep(s, AddEpoch(t));
    var s1 := Apply(s, AddEpoch(t));
    ScanAlone(s1, t);
    var oldest := OldestFrom(s.table, 0, s.current);
    var s2 := Moved(s1, t, SetSafe(oldest, slot, task));
    ShapeAlone(s1, t, |s.table|, s2);
    SafeStored(s2, t);
    OneStep(s2, t);
    hide Apply, WellShaped, Enabled, Alone, OldestFrom;
    var s3 := Apply(s2, StoreSafe(t));
    AloneThen(s, t, 1, s1, |s.table|, s2);
    AloneThen(s, t, 1 + |s.table|, s2, 1, s3);
    assert s3 == Moved(Bumped(s), t, if task == Bump then Idle else Peek(slot, task));
  }

  /** The same in a run: what the state is when the scan was not disturbed. */
  lemma {:induction false} BumpInRun(states: seq<State>, steps: seq<Step>, i: nat, j: nat, t: nat)
    requires Run(states, steps) && Undisturbed(states, steps, i, j, t) && t < |states[i].threads|
    requires states[i].threads[t].pc.FetchAdd? && j == i + |states[i].table| + 2
    ensures states[j].current == states[i].current + 1
    ensures states[j].safe + 1 == OldestFrom(states[i].table, 0, states[i].current)
  {
    InvOnRun(states, steps, i);
    InvShaped(states[i]);
    AloneInRun(states, steps, i, j, t);
    hide Run, Inv, WellShaped, Alone, OldestFrom, Undisturbed;
    var s := states[i];
    BumpAlone(s, t);
    var FetchAdd(slot, task) := s.threads[t].pc;
    AloneOneWay(s, t, j - i, states[j], Moved(Bumped(s), t, if task == Bump then Idle else Peek(slot, task)));
  }

  /** Nobody is in a protected region. */
  predicate NobodyProtected(s: State) {
    forall i :: 0 <= i < |s.table| ==> s.table[i].epoch == 0
  }

  /** Two bumps that nobody disturbs, with nobody protected, make everything removed before them safe to reclaim. */
  lemma {:induction false} TwoBumps(s: State, t: nat) returns (s1: State, s2: State)
    requires Inv(s) && t < |s.threads| && s.threads[t].pc == Idle && NobodyProtected(s)
    ensures WellShaped(s) && Enabled(s, BeginBump(t)) && Alone(Apply(s, BeginBump(t)), t, |s.table| + 2, s1)
    ensures WellShaped(s1) && Enabled(s1, BeginBump(t)) && Alone(Apply(s1, BeginBump(t)), t, |s.table| + 2, s2)
    ensures s2.safe == s.current && s2.current == s.current + 2 && s2.removedAt == s.removedAt
    ensures forall x :: x in s.removedAt ==> s2.removedAt[x] <= s2.safe
  {
    s1 := BumpFromIdle(s, t);
    s2 := BumpFromIdle(s1, t);
  }

  lemma {:induction false} BumpFromIdle(s: State, t: nat) returns (s': State)
    requires WellShaped(s) && t < |s.threads| && s.threads[t].pc == Idle && NobodyProtected(s)
    ensures Enabled(s, BeginBump(t)) && Alone(Apply(s, BeginBump(t)), t, |s.table| + 2, s')
    ensures WellShaped(s') && s' == s.(current := s.current + 1, safe := s.current - 1)
  {
    var b := Apply(s, BeginBump(t));
    assert b == Moved(s, t, FetchAdd(0, Bump));
    ShapeStep(s, BeginBump(t));
    BumpAlone(b, t);
    OldestIs(s.table, 0, s.current);
    hide Apply, Alone, Enabled;
    s' := Moved(Bumped(b), t, Idle);
    assert s' == s.(current := s.current + 1, safe := s.current - 1);
    ShapeAlone(b, t, |s.table| + 2, s');
  }

  // ----- the safe epoch when others move -----

  /** An epoch that is the one the bump began with, or that some thread had published since. */
  ghost predicate SeenBetween(states: seq<State>, i: nat, j: nat, e: nat) {
    && i < j < |states|
    && (e == states[i].current
        || exists m, k :: i < m <= j && 0 <= k < |states[m].table| && states[m].table[k].epoch == e != 0)
  }

  /** Thread t makes no step after i and before j other than those of one scan. */
  ghost predicate OneScan(steps: seq<Step>, i: nat, j: nat, t: nat) {
    && i < j <= |steps|
    && steps[i] == AddEpoch(t)
    && forall m :: i < m < j && steps[m].t == t ==> steps[m] == ScanEntry(t)
  }

  lemma {:induction false} ScanSaw(states: seq<State>, steps: seq<Step>, i: nat, j: nat, t: nat)
    requires Run(states, steps) && j < |states| && OneScan(steps, i, j, t)
    ensures t < |states[j].threads|
    ensures var pc := states[j].threads[t].pc;
      (pc.Scan? || pc.SetSafe?) && SeenBetween(states, i, j, pc.oldest)
    decreases j
  {
    hide Run, Inv, Apply, SeenBetween;
    StepOfRun(states, steps, j - 1);
    if i + 1 == j {
      InvShaped(states[i]);
      AddStep(states[i], t);
      SeenFirst(states, i);
    } else {
      assert OneScan(steps, i, j - 1, t);
      ScanSaw(states, steps, i, j - 1, t);
      SeenLonger(states, i, j - 1, states[j - 1].threads[t].pc.oldest);
      if steps[j - 1].t == t {
        ScanSawMore(states, i, j, t);
      } else {
        OthersKeep(states[j - 1], steps[j - 1], t);
      }
    }
  }

  lemma {:induction false} ScanSawMore(states: seq<State>, i: nat, j: nat, t: nat)
    requires i + 1 < j < |states| && Inv(states[j - 1]) && Enabled(states[j - 1], ScanEntry(t))
    requires states[j] == Apply(states[j - 1], ScanEntry(t))
    requires t < |states[j - 1].threads| && states[j - 1].threads[t].pc.Scan?
    requires SeenBetween(states, i, j, states[j - 1].threads[t].pc.oldest)
    ensures t < |states[j].threads|
    ensures var pc := states[j].threads[t].pc; (pc.Scan? || pc.SetSafe?) && SeenBetween(states, i, j, pc.oldest)
  {
    InvShaped(states[j - 1]);
    hide Inv, Apply, Enabled, SeenBetween, WellShaped, PlacesSound;
    ScanStep(states[j - 1], t);
    var k := states[j - 1].threads[t].pc.index;
    if states[j - 1].table[k].epoch != 0 {
      ScanSees(states, i, j, k);
    }
  }

  lemma {:induction false} SeenFirst(states: seq<State>, i: nat)
    requires i + 1 < |states|
    ensures SeenBetween(states, i, i + 1, states[i].current)
  {
  }

  lemma {:induction false} InvShaped(s: State)
    requires Inv(s)
    ensures WellShaped(s) && PlacesSound(s)
  {
  }

  lemma {:induction false} OthersKeep(s: State, step: Step, t: nat)
    requires Inv(s) && Enabled(s, step) && t < |s.threads| && step.t != t
    ensures t < |Apply(s, step).threads| && Apply(s, step).threads[t] == s.threads[t]
  {
    FrameStep(s, step);
  }

  lemma {:induction false} SeenLonger(states: seq<State>, i: nat, j: nat, e: nat)
    requires SeenBetween(states, i, j, e) && j + 1 < |states|
    ensures SeenBetween(states, i, j + 1, e)
  {
  }

  lemma {:induction false} ScanSees(states: seq<State>, i: nat, j: nat, k: nat)
    requires i + 1 < j < |states| && k < |states[j - 1].table| && states[j - 1].table[k].epoch != 0
    ensures SeenBetween(states, i, j, states[j - 1].table[k].epoch)
  {
  }

  /**
   * In every run, what a bump stores is one less than the epoch it began with, or than an epoch that
   * some thread had published while the scan was going on.
   */
  lemma {:induction false} BumpStores(states: seq<State>, steps: seq<Step>, i: nat, j: nat, t: nat)
    requires Run(states, steps) && OneScan(steps, i, j, t) && j < |steps| && steps[j] == StoreSafe(t)
    ensures |states| == |steps| + 1 && SeenBetween(states, i, j, states[j + 1].safe + 1)
  {
    StepOfRun(states, steps, j);
    ScanSaw(states, steps, i, j, t);
    InvShaped(states[j]);
    SafeStored(states[j], t);
  }

  // ----- one slot of the ring -----

  /** Whether a thread at a slot can take it: the slot is free and wanted, or holds an item that may be reclaimed. */
  predicate Usable(s: State, slot: nat, task: Task)
    requires slot < |s.ring|
  {
    match s.ring[slot].stamp
    case Free => task.Push?
    case At(e) => e <= s.safe
    case Claimed => false
  }

  /** The items destroyed when a slot is taken. */
  function Freed(slot: Slot): seq<Item> {
    if slot.stamp.At? then [slot.item] else []
  }

  function NewSlot(task: Task): Slot {
    if task.Push? then Slot(At(task.removalEpoch), task.item) else Slot(Free, 0)
  }

  function PlaceWith(place: map<Item, Place>, gone: seq<Item>, task: Task, slot: nat): map<Item, Place> {
    var rest := if gone == [] then place else place[gone[0] := Destroyed];
    if task.Push? then rest[task.item := Resident(slot)] else rest
  }

  /** The state after a thread took the slot: what was in it is destroyed, and its own item is there, or nothing. */
  function Taken(s: State, slot: nat, task: Task): State
    requires slot < |s.ring|
  {
    var gone := Freed(s.ring[slot]);
    s.(ring := s.ring[slot := NewSlot(task)], destroyed := s.destroyed + gone, place := PlaceWith(s.place, gone, task, slot))
  }

  lemma {:induction false} PeekStep(s: State, t: nat)
    requires WellShaped(s) && t < |s.threads| && s.threads[t].pc.Peek?
    ensures var Peek(slot, task) := s.threads[t].pc;
      && slot < |s.ring| && task != Bump && Next(s, t) == PeekStamp(t) && Enabled(s, PeekStamp(t))
      && var prior := s.ring[slot].stamp;
         Apply(s, PeekStamp(t)) == Moved(s, t,
           if prior == Claimed || (prior == Free && task == Scavenge) then Retry(slot, task, |s.ring|) else Claim(slot, prior, task))
  {
    assert ThreadShaped(|s.table|, |s.ring|, s.threads[t]);
  }

  /** The slot marked as being worked on. */
  function Marked(s: State, slot: nat): State
    requires slot < |s.ring|
  {
    s.(ring := s.ring[slot := s.ring[slot].(stamp := Claimed)])
  }

  lemma {:induction false} SwapStep(s: State, t: nat)
    requires WellShaped(s) && t < |s.threads| && s.threads[t].pc.Claim?
    requires var Claim(slot, prior, task) := s.threads[t].pc; slot < |s.ring| && s.ring[slot].stamp == prior
    ensures var Claim(slot, prior, task) := s.threads[t].pc;
      && Next(s, t) == SwapStamp(t) && Enabled(s, SwapStamp(t))
      && Apply(s, SwapStamp(t)) == Moved(Marked(s, slot), t, Check(slot, prior, task))
  {
    assert ThreadShaped(|s.table|, |s.ring|, s.threads[t]);
  }

  lemma {:induction false} CheckStep(s: State, t: nat)
    requires WellShaped(s) && t < |s.threads| && s.threads[t].pc.Check?
    ensures var Check(slot, prior, task) := s.threads[t].pc;
      && slot < |s.ring| && Next(s, t) == CheckSafe(t) && Enabled(s, CheckSafe(t))
      && Apply(s, CheckSafe(t)) ==
           if prior.At? && s.safe < prior.epoch then
             Moved(s.(ring := s.ring[slot := s.ring[slot].(stamp := prior)]), t, Retry(slot, task, |s.ring|))
           else Moved(s, t, if prior == Free then Fill(slot, task) else Destroy(slot, task))
  {
    assert ThreadShaped(|s.table|, |s.ring|, s.threads[t]);
  }

  lemma {:induction false} DestroyStep(s: State, t: nat)
    requires WellShaped(s) && t < |s.threads| && s.threads[t].pc.Destroy?
    ensures var Destroy(slot, task) := s.threads[t].pc;
      && slot < |s.ring| && Next(s, t) == CallDestroy(t) && Enabled(s, CallDestroy(t))
      && var x := s.ring[slot].item;
         Apply(s, CallDestroy(t)) ==
           Moved(s.(place := s.place[x := Destroyed], destroyed := s.destroyed + [x]), t, Fill(slot, task))
  {
    assert ThreadShaped(|s.table|, |s.ring|, s.threads[t]);
  }

  lemma {:induction false} FillStep(s: State, t: nat)
    requires WellShaped(s) && t < |s.threads| && s.threads[t].pc.Fill?
    ensures var Fill(slot, task) := s.threads[t].pc;
      && slot < |s.ring| && Next(s, t) == FillSlot(t) && Enabled(s, FillSlot(t))
      && Apply(s, FillSlot(t)) ==
           Moved(s.(ring := s.ring[slot := NewSlot(task)], place := PlaceWith(s.place, [], task, slot)), t,
                 if task.Push? then Idle else Retry(slot, task, |s.ring|))
  {
    assert ThreadShaped(|s.table|, |s.ring|, s.threads[t]);
  }

  /** A slot that cannot be taken is left as it was. */
  lemma {:induction false} SkipAlone(s: State, t: nat) returns (n: nat)
    requires WellShaped(s) && t < |s.threads| && s.threads[t].pc.Peek?
    requires s.threads[t].pc.slot < |s.ring| && !Usable(s, s.threads[t].pc.slot, s.threads[t].pc.task)
    ensures 1 <= n <= 3
    ensures var Peek(slot, task) := s.threads[t].pc; Alone(s, t, n, Moved(s, t, Retry(slot, task, |s.ring|)))
  {
    var Peek(slot, task) := s.threads[t].pc;
    PeekStep(s, t);
    OneStep(s, t);
    ShapeStep(s, PeekStamp(t));
    var s1 := Apply(s, PeekStamp(t));
    n := 1;
    if s.ring[slot].stamp.At? {
      SwapStep(s1, t);
      OneStep(s1, t);
      ShapeStep(s1, SwapStamp(t));
      var s2 := Apply(s1, SwapStamp(t));
      CheckStep(s2, t);
      OneStep(s2, t);
      hide Apply, Alone, WellShaped, Enabled;
      var s3 := Apply(s2, CheckSafe(t));
      AloneThen(s, t, 1, s1, 1, s2);
      AloneThen(s, t, 2, s2, 1, s3);
      assert s3.ring == s.ring;
      assert s3 == Moved(s, t, Retry(slot, task, |s.ring|));
      n := 3;
    }
  }

  /** The first three steps at a slot that can be taken. */
  lemma {:induction false} ClaimAlone(s: State, t: nat)
    requires WellShaped(s) && t < |s.threads| && s.threads[t].pc.Peek?
    requires s.threads[t].pc.slot < |s.ring| && Usable(s, s.threads[t].pc.slot, s.threads[t].pc.task)
    ensures var Peek(slot, task) := s.threads[t].pc;
      var s' := Moved(Marked(s, slot), t, if s.ring[slot].stamp == Free then Fill(slot, task) else Destroy(slot, task));
      Alone(s, t, 3, s') && WellShaped(s')
  {
    var Peek(slot, task) := s.threads[t].pc;
    var prior := s.ring[slot].stamp;
    PeekStep(s, t);
    OneStep(s, t);
    ShapeStep(s, PeekStamp(t));
    var s1 := Moved(s, t, Claim(slot, prior, task));
    SwapStep(s1, t);
    OneStep(s1, t);
    ShapeStep(s1, SwapStamp(t));
    var s2 := Moved(Marked(s, slot), t, Check(slot, prior, task));
    assert Apply(s1, SwapStamp(t)) == s2;
    CheckStep(s2, t);
    OneStep(s2, t);
    ShapeStep(s2, CheckSafe(t));
    hide Apply, Alone, WellShaped, Enabled;
    AloneThen(s, t, 1, s1, 1, s2);
    AloneThen(s, t, 2, s2, 1, Apply(s2, CheckSafe(t)));
    assert Apply(s2, CheckSafe(t)) == Moved(Marked(s, slot), t, if prior == Free then Fill(slot, task) else Destroy(slot, task));
  }

  /** A slot that can be taken is taken. */
  lemma {:induction false} TakeAlone(s: State, t: nat) returns (n: nat)
    requires WellShaped(s) && t < |s.threads| && s.threads[t].pc.Peek?
    requires s.threads[t].pc.slot < |s.ring| && Usable(s, s.threads[t].pc.slot, s.threads[t].pc.task)
    ensures 4 <= n <= 5
    ensures var Peek(slot, task) := s.threads[t].pc;
      Alone(s, t, n, Moved(Taken(s, slot, task), t, if task.Push? then Idle else Retry(slot, task, |s.ring|)))
  {
    var Peek(slot, task) := s.threads[t].pc;
    hide Apply, Alone, WellShaped, Enabled;
    var s4 := Emptied(s, t, slot, task);
    var m := EmptyAlone(s, t);
    FillStep(s4, t);
    OneStep(s4, t);
    AloneThen(s, t, m, s4, 1, Apply(s4, FillSlot(t)));
    n := m + 1;
    TakenIs(s, t, slot, task, s4);
  }

  /** The slot marked, with what was in it destroyed. */
  function Emptied(s: State, t: nat, slot: nat, task: Task): State
    requires t < |s.threads| && slot < |s.ring|
  {
    var x := s.ring[slot].item;
    var marked := Moved(Marked(s, slot), t, Fill(slot, task));
    if s.ring[slot].stamp.At? then marked.(place := s.place[x := Destroyed], destroyed := s.destroyed + [x]) else marked
  }

  lemma {:induction false} EmptyAlone(s: State, t: nat) returns (n: nat)
    requires WellShaped(s) && t < |s.threads| && s.threads[t].pc.Peek?
    requires s.threads[t].pc.slot < |s.ring| && Usable(s, s.threads[t].pc.slot, s.threads[t].pc.task)
    ensures var Peek(slot, task) := s.threads[t].pc;
      3 <= n <= 4 && Alone(s, t, n, Emptied(s, t, slot, task)) && WellShaped(Emptied(s, t, slot, task))
  {
    var Peek(slot, task) := s.threads[t].pc;
    ClaimAlone(s, t);
    hide Apply, Alone, WellShaped, Enabled;
    n := 3;
    if s.ring[slot].stamp.At? {
      var s3 := Moved(Marked(s, slot), t, Destroy(slot, task));
      DestroyStep(s3, t);
      OneStep(s3, t);
      ShapeStep(s3, CallDestroy(t));
      AloneThen(s, t, 3, s3, 1, Apply(s3, CallDestroy(t)));
      assert Apply(s3, CallDestroy(t)) == Emptied(s, t, slot, task);
      n := 4;
    }
  }

  /** Destroying, when there is something, and filling add up to taking the slot. */
  lemma {:induction false} TakenIs(s: State, t: nat, slot: nat, task: Task, s4: State)
    requires t < |s.threads| && slot < |s.ring|
    requires s4 == Emptied(s, t, slot, task)
    ensures t < |s4.threads| && slot < |s4.ring|
    ensures var pc := if task.Push? then Idle else Retry(slot, task, |s.ring|);
      Moved(s4.(ring := s4.ring[slot := NewSlot(task)], place := PlaceWith(s4.place, [], task, slot)), t, pc)
        == Moved(Taken(s, slot, task), t, pc)
  {
    assert s4.ring[slot := NewSlot(task)] == s.ring[slot := NewSlot(task)];
    assert s4.destroyed == s.destroyed + Freed(s.ring[slot]);
  }

  // ----- Scavenge -----

  /** The ring and the destroyed items after the slots from k on have been looked at. */
  ghost predicate Swept(s: State, k: nat, t: nat, s': State) {
    && |s'.ring| == |s.ring|
    && (forall j :: 0 <= j < |s.ring| ==>
          s'.ring[j] == if k <= j && s.ring[j].stamp.At? && s.ring[j].stamp.epoch <= s.safe then Slot(Free, 0) else s.ring[j])
    && s'.destroyed == s.destroyed + SweptItems(s, k)
    && s'.current == s.current && s'.safe == s.safe && s'.table == s.table && s'.tail == s.tail && s'.removedAt == s.removedAt
    && t < |s.threads|
    && s'.threads == s.threads[t := s.threads[t].(pc := Idle)]
  }

  /** The reclaimable items in the slots from k on, in the order of the slots. */
  function SweptItems(s: State, k: nat): seq<Item>
    decreases |s.ring| - k
  {
    if k >= |s.ring| then []
    else (if s.ring[k].stamp.At? && s.ring[k].stamp.epoch <= s.safe then [s.ring[k].item] else []) + SweptItems(s, k + 1)
  }

  /** The rest is the same whatever was done to the slots before it. */
  lemma {:induction false} SweptSame(s: State, s1: State, k: nat)
    requires |s1.ring| == |s.ring| && s1.safe == s.safe && forall j :: k <= j < |s.ring| ==> s1.ring[j] == s.ring[j]
    ensures SweptItems(s1, k) == SweptItems(s, k)
    decreases |s.ring| - k
  {
    if k < |s.ring| {
      SweptSame(s, s1, k + 1);
    }
  }

  /** The state after one slot. */
  function SweptOne(s: State, k: nat): State
    requires k < |s.ring|
  {
    if Usable(s, k, Scavenge) then Taken(s, k, Scavenge) else s
  }

  /** The state when the thread goes on to the next slot, or is done. */
  function SweptOn(s: State, t: nat, k: nat): State
    requires k < |s.ring| && t < |s.threads|
  {
    Moved(SweptOne(s, k), t, if k + 1 < |s.ring| then Peek(k + 1, Scavenge) else Idle)
  }

  lemma {:induction false} SweepSlot(s: State, t: nat) returns (n: nat, k: nat, s1: State)
    requires WellShaped(s) && t < |s.threads| && s.threads[t].pc.Peek? && s.threads[t].pc.task == Scavenge
    ensures s.threads[t].pc == Peek(k, Scavenge) && k < |s.ring|
    ensures 1 <= n <= 5 && Alone(s, t, n, s1) && WellShaped(s1) && s1 == SweptOn(s, t, k)
    ensures t < |s1.threads| && |s1.ring| == |s.ring|
    ensures s1.threads[t].pc == if k + 1 < |s.ring| then Peek(k + 1, Scavenge) else Idle
  {
    assert ThreadShaped(|s.table|, |s.ring|, s.threads[t]);
    k := s.threads[t].pc.slot;
    s1 := SweptOn(s, t, k);
    hide Alone, WellShaped;
    if Usable(s, k, Scavenge) {
      n := TakeAlone(s, t);
    } else {
      n := SkipAlone(s, t);
    }
    ShapeAlone(s, t, n, s1);
  }

  lemma {:induction false} SweptRing(s: State, k: nat, t: nat, s1: State, s': State)
    requires k < |s.ring| && t < |s.threads| && s1 == SweptOn(s, t, k)
    requires if k + 1 < |s.ring| then Swept(s1, k + 1, t, s') else s' == s1
    ensures |s'.ring| == |s.ring| && forall j :: 0 <= j < |s.ring| ==>
      s'.ring[j] == if k <= j && s.ring[j].stamp.At? && s.ring[j].stamp.epoch <= s.safe then Slot(Free, 0) else s.ring[j]
  {
    hide SweptItems;
  }

  lemma {:induction false} SweptDestroyed(s: State, k: nat, t: nat, s1: State, s': State)
    requires k < |s.ring| && t < |s.threads| && s1 == SweptOn(s, t, k)
    requires if k + 1 < |s.ring| then Swept(s1, k + 1, t, s') else s' == s1
    ensures s'.destroyed == s.destroyed + SweptItems(s, k)
  {
    var here := if s.ring[k].stamp.At? && s.ring[k].stamp.epoch <= s.safe then [s.ring[k].item] else [];
    assert SweptItems(s, k) == here + SweptItems(s, k + 1);
    SweptSame(s, s1, k + 1);
    assert s1.destroyed == s.destroyed + here;
    if k + 1 == |s.ring| {
      assert SweptItems(s, k + 1) == [];
    }
    hide SweptItems;
  }

  lemma {:induction false} SweptJoins(s: State, k: nat, t: nat, s1: State, s': State)
    requires k < |s.ring| && t < |s.threads| && s1 == SweptOn(s, t, k)
    requires if k + 1 < |s.ring| then Swept(s1, k + 1, t, s') else s' == s1
    ensures Swept(s, k, t, s') && t < |s'.threads| && s'.threads[t].pc == Idle
  {
    SweptRing(s, k, t, s1, s');
    SweptDestroyed(s, k, t, s1, s');
    hide SweptItems;
  }

  /**
   * Scavenge, undisturbed: it comes to every slot, clears exactly those whose item may be reclaimed,
   * destroys these items in the order of the slots, and changes nothing else.
   */
  lemma {:induction false} ScavengeAlone(s: State, t: nat) returns (n: nat, s': State)
    requires WellShaped(s) && t < |s.threads| && s.threads[t].pc.Peek? && s.threads[t].pc.task == Scavenge
    ensures Alone(s, t, n, s') && Swept(s, s.threads[t].pc.slot, t, s') && s'.threads[t].pc == Idle
    ensures n <= 5 * (|s.ring| - s.threads[t].pc.slot)
    decreases |s.ring| - s.threads[t].pc.slot
  {
    hide *;
    var m, k, s1 := SweepSlot(s, t);
    n, s' := m, s1;
    if k + 1 < |s.ring| {
      var rest;
      rest, s' := ScavengeAlone(s1, t);
      AloneThen(s, t, m, s1, rest, s');
      n := m + rest;
    }
    SweptJoins(s, k, t, s1, s');
  }

  // ----- Push -----

  /** The slots come up one after the other: the last one first, then from 0 on, and round again. */
  lemma {:induction false} SlotsInTurn(tail: nat, size: nat)
    requires size > 0
    ensures TailSlot(0, size) == size - 1
    ensures TailSlot(tail + 1, size) == if TailSlot(tail, size) + 1 == size then 0 else TailSlot(tail, size) + 1
  {
    LocalGarbage.ModIs(size - 1, size, 0, size - 1);
    LocalGarbage.NextSlot(tail + size - 1, size);
    assert tail + 1 + size - 1 == (tail + size - 1) + 1;
  }

  /** The state after the fetch_add on the tail, and the bump that every quarter of the ring makes. */
  function Picked(s: State): State
    requires |s.ring| > 0 && OldestFrom(s.table, 0, s.current) >= 1
  {
    var s1 := s.(tail := s.tail + 1);
    if (TailSlot(s.tail, |s.ring|) * 4) % |s.ring| == 0 then Bumped(s1) else s1
  }

  lemma {:induction false} PickStep(s: State, t: nat)
    requires WellShaped(s) && t < |s.threads| && s.threads[t].pc.Pick?
    ensures var slot := TailSlot(s.tail, |s.ring|); var task := s.threads[t].pc.task;
      && task.Push? && Next(s, t) == PickSlot(t) && Enabled(s, PickSlot(t))
      && Apply(s, PickSlot(t)) == Moved(s.(tail := s.tail + 1), t,
           if (slot * 4) % |s.ring| == 0 then FetchAdd(slot, task) else Peek(slot, task))
  {
    assert ThreadShaped(|s.table|, |s.ring|, s.threads[t]);
  }

  lemma {:induction false} PickAlone(s: State, t: nat) returns (n: nat)
    requires WellShaped(s) && t < |s.threads| && s.threads[t].pc.Pick?
    ensures OldestFrom(s.table, 0, s.current) >= 1
    ensures var s' := Moved(Picked(s), t, Peek(TailSlot(s.tail, |s.ring|), s.threads[t].pc.task));
      1 <= n <= |s.table| + 3 && Alone(s, t, n, s') && WellShaped(s')
  {
    var slot, task := TailSlot(s.tail, |s.ring|), s.threads[t].pc.task;
    OldestPositive(s);
    PickStep(s, t);
    OneStep(s, t);
    ShapeStep(s, PickSlot(t));
    var s1 := Apply(s, PickSlot(t));
    hide Apply, Alone, WellShaped, Enabled, OldestFrom, TailSlot;
    n := 1;
    if (slot * 4) % |s.ring| == 0 {
      BumpAlone(s1, t);
      var s2 := Moved(Bumped(s1), t, Peek(slot, task));
      AloneThen(s, t, 1, s1, |s.table| + 2, s2);
      ShapeAlone(s1, t, |s.table| + 2, s2);
      n := |s.table| + 3;
      assert s2 == Moved(Picked(s), t, Peek(slot, task));
    }
  }

  /** What one round of Push leaves: the item published in the slot before the old tail, or the ring as it was. */
  ghost predicate PushedOnce(s: State, t: nat, s': State) {
    && t < |s.threads| && s.threads[t].pc.Pick? && s.threads[t].pc.task.Push? && |s.ring| > 0
    && OldestFrom(s.table, 0, s.current) >= 1
    && (var Push(x, r) := s.threads[t].pc.task;
        var slot := TailSlot(s.tail, |s.ring|);
        var prior := s.ring[slot];
        && s'.tail == s.tail + 1 && s'.current == Picked(s).current && s'.safe == Picked(s).safe && s'.table == s.table
        && if prior.stamp == Free || (prior.stamp.At? && prior.stamp.epoch <= s'.safe) then
             && s'.ring == s.ring[slot := Slot(At(r), x)]
             && s'.destroyed == s.destroyed + (if prior.stamp.At? then [prior.item] else [])
             && s'.threads == s.threads[t := s.threads[t].(pc := Idle)]
           else
             s'.ring == s.ring && s'.destroyed == s.destroyed && s'.threads == s.threads)
  }

  /**
   * One round of Push, undisturbed: the slot before the old tail is tried, after a bump if it begins a
   * quarter of the ring. If it is free or its item may be reclaimed, that item is destroyed, the new
   * one is published there with its stamp, and the push returns; otherwise the ring is as it was and
   * the push goes on to the next slot.
   */
  lemma {:induction false} PushRoundAlone(s: State, t: nat) returns (n: nat, s': State)
    requires WellShaped(s) && t < |s.threads| && s.threads[t].pc.Pick?
    ensures OldestFrom(s.table, 0, s.current) >= 1 && s.threads[t].pc.task.Push? && Alone(s, t, n, s') && n <= |s.table| + 8
    ensures PushedOnce(s, t, s')
  {
    hide Alone, WellShaped, OldestFrom, Apply, Enabled, PushedOnce;
    PickStep(s, t);
    var m := PickAlone(s, t);
    var task, slot := s.threads[t].pc.task, TailSlot(s.tail, |s.ring|);
    var s1 := Moved(Picked(s), t, Peek(slot, task));
    hide TailSlot;
    PickedSame(s);
    var k;
    if Usable(s1, slot, task) {
      k := TakeAlone(s1, t);
      s' := Moved(Taken(s1, slot, task), t, Idle);
      TakenRound(s, t);
    } else {
      k := SkipAlone(s1, t);
      s' := Moved(s1, t, Pick(task));
      SkippedRound(s, t);
    }
    AloneThen(s, t, m, s1, k, s');
    n := m + k;
  }

  lemma {:induction false} PickedSame(s: State)
    requires |s.ring| > 0 && OldestFrom(s.table, 0, s.current) >= 1
    ensures Picked(s).ring == s.ring && Picked(s).threads == s.threads && Picked(s).table == s.table
    ensures Picked(s).tail == s.tail + 1 && Picked(s).destroyed == s.destroyed
  {
  }

  lemma {:induction false} TakenRound(s: State, t: nat)
    requires |s.ring| > 0 && OldestFrom(s.table, 0, s.current) >= 1 && t < |s.threads|
    requires s.threads[t].pc.Pick? && s.threads[t].pc.task.Push?
    requires var slot, task := TailSlot(s.tail, |s.ring|), s.threads[t].pc.task;
      |Picked(s).ring| == |s.ring| && t < |Picked(s).threads| && Usable(Moved(Picked(s), t, Peek(slot, task)), slot, task)
    ensures var slot, task := TailSlot(s.tail, |s.ring|), s.threads[t].pc.task;
      PushedOnce(s, t, Moved(Taken(Moved(Picked(s), t, Peek(slot, task)), slot, task), t, Idle))
  {
    hide TailSlot, OldestFrom;
  }

  lemma {:induction false} SkippedRound(s: State, t: nat)
    requires |s.ring| > 0 && OldestFrom(s.table, 0, s.current) >= 1 && t < |s.threads|
    requires s.threads[t].pc.Pick? && s.threads[t].pc.task.Push?
    requires var slot, task := TailSlot(s.tail, |s.ring|), s.threads[t].pc.task;
      |Picked(s).ring| == |s.ring| && t < |Picked(s).threads| && !Usable(Moved(Picked(s), t, Peek(slot, task)), slot, task)
    ensures var slot, task := TailSlot(s.tail, |s.ring|), s.threads[t].pc.task;
      PushedOnce(s, t, Moved(Moved(Picked(s), t, Peek(slot, task)), t, Pick(task)))
  {
    hide TailSlot, OldestFrom;
    var slot, task := TailSlot(s.tail, |s.ring|), s.threads[t].pc.task;
    assert Moved(Moved(Picked(s), t, Peek(slot, task)), t, Pick(task)).threads == s.threads;
  }

  // ----- Protect and Unprotect -----

  /** The state after thread t took entry i and published the epoch there. */
  function Entered(s: State, t: nat, i: nat, e: nat): State
    requires t < |s.threads| && i < |s.table|
  {
    var th := s.threads[t];
    s.(table := s.table[i := Entry(if th.entry.Some? then s.table[i].threadId else t + 1, e)],
       threads := s.threads[t := th.(entry := Some(i), pc := Idle)])
  }

  lemma {:induction false} EnterAlone(s: State, t: nat)
    requires WellShaped(s) && t < |s.threads| && s.threads[t].pc.Enter?
    ensures s.threads[t].entry.Some? && s.threads[t].entry.value < |s.table|
    ensures Alone(s, t, 1, Entered(s, t, s.threads[t].entry.value, s.threads[t].pc.epoch))
  {
    assert ThreadShaped(|s.table|, |s.ring|, s.threads[t]);
    OneStep(s, t);
    hide Alone;
    assert Apply(s, Next(s, t)) == Entered(s, t, s.threads[t].entry.value, s.threads[t].pc.epoch);
  }

  lemma {:induction false} ReserveAlone(s: State, t: nat)
    requires WellShaped(s) && t < |s.threads| && s.threads[t].pc.Reserve? && s.threads[t].entry.None?
    requires s.threads[t].pc.index < |s.table| && s.table[s.threads[t].pc.index].threadId == 0
    ensures Alone(s, t, 2, Entered(s, t, s.threads[t].pc.index, s.threads[t].pc.epoch))
  {
    var Reserve(e, i) := s.threads[t].pc;
    OneStep(s, t);
    ShapeStep(s, Next(s, t));
    var s1 := Apply(s, Next(s, t));
    assert s1 == s.(table := s.table[i := s.table[i].(threadId := t + 1)],
                    threads := s.threads[t := s.threads[t].(entry := Some(i), pc := Enter(e))]);
    EnterAlone(s1, t);
    hide Alone, Apply, WellShaped;
    var s2 := Entered(s1, t, i, e);
    AloneThen(s, t, 1, s1, 1, s2);
    assert s2.table == Entered(s, t, i, e).table && s2.threads == Entered(s, t, i, e).threads;
    assert s2 == Entered(s, t, i, e);
  }

  /** How many entries are probed from i until f comes up. */
  function Ahead(i: nat, f: nat, size: nat): nat
    requires i < size
  {
    if i <= f then f - i else f + size - i
  }

  lemma {:induction false} ProbeStep(s: State, t: nat)
    requires WellShaped(s) && t < |s.threads| && s.threads[t].pc.Probe?
    ensures var Probe(e, k) := s.threads[t].pc;
      && k < |s.table| && Next(s, t) == ProbeEntry(t) && Enabled(s, ProbeEntry(t))
      && Apply(s, ProbeEntry(t)) == Moved(s, t,
           if s.table[k].threadId == 0 then Reserve(e, k) else Probe(e, if k + 1 < |s.table| then k + 1 else 0))
  {
    assert ThreadShaped(|s.table|, |s.ring|, s.threads[t]);
    var k := s.threads[t].pc.index;
    assert Wrap(k + 1, |s.table|) == if k + 1 < |s.table| then k + 1 else 0;
  }

  /** Probing finds a free entry when there is one. */
  lemma {:induction false} ProbeAlone(s: State, t: nat, f: nat) returns (n: nat, i: nat)
    requires WellShaped(s) && t < |s.threads| && s.threads[t].pc.Probe? && s.threads[t].entry.None?
    requires f < |s.table| && s.table[f].threadId == 0 && s.threads[t].pc.index < |s.table|
    ensures i < |s.table| && s.table[i].threadId == 0
    ensures Alone(s, t, n, Entered(s, t, i, s.threads[t].pc.epoch))
    ensures n <= Ahead(s.threads[t].pc.index, f, |s.table|) + 3
    decreases Ahead(s.threads[t].pc.index, f, |s.table|)
  {
    hide Alone, Apply, WellShaped, Enabled;
    var Probe(e, k) := s.threads[t].pc;
    ProbeStep(s, t);
    OneStep(s, t);
    ShapeStep(s, ProbeEntry(t));
    var s1 := Apply(s, ProbeEntry(t));
    if s.table[k].threadId == 0 {
      ReserveAlone(s1, t);
      AloneThen(s, t, 1, s1, 2, Entered(s1, t, k, e));
      EnteredSame(s, t, s1.threads[t].pc, k, e);
      n, i := 3, k;
    } else {
      var m;
      m, i := ProbeAlone(s1, t, f);
      AloneThen(s, t, 1, s1, m, Entered(s1, t, i, e));
      EnteredSame(s, t, s1.threads[t].pc, i, e);
      n := m + 1;
    }
  }

  lemma {:induction false} EnteredSame(s: State, t: nat, pc: Pc, i: nat, e: nat)
    requires t < |s.threads| && i < |s.table|
    ensures Entered(Moved(s, t, pc), t, i, e) == Entered(s, t, i, e)
  {
    assert Moved(s, t, pc).threads[t := s.threads[t].(entry := Some(i), pc := Idle)] ==
      s.threads[t := s.threads[t].(entry := Some(i), pc := Idle)];
  }

  /**
   * Protect, undisturbed: a thread that has an entry, or finds a free one, publishes in it the epoch
   * that is current, and is then protected; every other entry stays as it was.
   */
  lemma {:induction false} ProtectAlone(s: State, t: nat, start: nat) returns (n: nat, i: nat)
    requires Inv(s) && Enabled(s, LoadEpoch(t, start))
    requires s.threads[t].entry.Some? || exists f :: 0 <= f < |s.table| && s.table[f].threadId == 0
    ensures WellShaped(s) && i < |s.table| && (if s.threads[t].entry.Some? then s.threads[t].entry.value == i else s.table[i].threadId == 0)
    ensures Alone(Apply(s, LoadEpoch(t, start)), t, n, Entered(s, t, i, s.current))
    ensures Protected(Entered(s, t, i, s.current), t) && EpochOf(Entered(s, t, i, s.current), t) == s.current
  {
    InvShaped(s);
    assert ThreadShaped(|s.table|, |s.ring|, s.threads[t]);
    var s1 := Apply(s, LoadEpoch(t, start));
    ShapeStep(s, LoadEpoch(t, start));
    if s.threads[t].entry.Some? {
      assert s1 == Moved(s, t, Enter(s.current));
      EnterAlone(s1, t);
      n, i := 1, s.threads[t].entry.value;
    } else {
      assert s1 == Moved(s, t, Probe(s.current, Wrap(start, |s.table|)));
      var f :| 0 <= f < |s.table| && s.table[f].threadId == 0;
      n, i := ProbeAlone(s1, t, f);
    }
    hide Alone, Apply;
    assert Entered(s1, t, i, s.current) == Entered(s, t, i, s.current);
  }

  /** Unprotect: the thread is out of its region and holds nothing, and no other entry changes. */
  lemma {:induction false} UnprotectLeaves(s: State, t: nat)
    requires Inv(s) && Enabled(s, Unprotect(t))
    ensures var s' := Apply(s, Unprotect(t));
      && t < |s'.threads| && !Protected(s', t) && s'.threads[t].held == {}
      && forall i :: 0 <= i < |s.table| && s.threads[t].entry != Some(i) ==> i < |s'.table| && s'.table[i] == s.table[i]
  {
  }

  /** Thread t makes no step after i and before j other than those of one Protect. */
  ghost predicate OneProtect(steps: seq<Step>, i: nat, j: nat, t: nat) {
    && i < j <= |steps|
    && steps[i].LoadEpoch? && steps[i].t == t
    && forall m :: i < m < j && steps[m].t == t ==> steps[m] == ProbeEntry(t) || steps[m] == ReserveEntry(t)
  }

  /** The epoch a thread is about to publish. */
  ghost predicate Carries(s: State, t: nat, e: nat) {
    && t < |s.threads|
    && (s.threads[t].pc.Probe? || s.threads[t].pc.Reserve? || s.threads[t].pc.Enter?)
    && s.threads[t].pc.epoch == e
  }

  lemma {:induction false} CarriesStep(s: State, step: Step, t: nat, e: nat)
    requires Inv(s) && Enabled(s, step) && Carries(s, t, e)
    requires step.t == t ==> step == ProbeEntry(t) || step == ReserveEntry(t)
    ensures Carries(Apply(s, step), t, e)
  {
    if step.t != t {
      hide Apply;
      OthersKeep(s, step, t);
    }
  }

  lemma {:induction false} CarriesFirst(s: State, step: Step, t: nat)
    requires Inv(s) && Enabled(s, step) && step.LoadEpoch? && step.t == t
    ensures Carries(Apply(s, step), t, s.current)
  {
  }

  lemma {:induction false} CarriesOn(states: seq<State>, steps: seq<Step>, i: nat, j: nat, t: nat)
    requires Run(states, steps) && j < |states| && OneProtect(steps, i, j, t)
    ensures Carries(states[j], t, states[i].current)
    decreases j
  {
    hide Run, Inv, Apply, Enabled, Carries;
    StepOfRun(states, steps, j - 1);
    if i + 1 == j {
      CarriesFirst(states[i], steps[i], t);
    } else {
      assert OneProtect(steps, i, j - 1, t);
      CarriesOn(states, steps, i, j - 1, t);
      CarriesStep(states[j - 1], steps[j - 1], t, states[i].current);
    }
  }

  /** In every run, what Protect publishes is the epoch it loaded, however late that is. */
  lemma {:induction false} ProtectPublishes(states: seq<State>, steps: seq<Step>, i: nat, j: nat, t: nat)
    requires Run(states, steps) && OneProtect(steps, i, j, t) && j < |steps| && steps[j] == StoreEntry(t)
    ensures |states| == |steps| + 1 && t < |states[j + 1].threads|
    ensures Protected(states[j + 1], t) && EpochOf(states[j + 1], t) == states[i].current
  {
    StepOfRun(states, steps, j);
    CarriesOn(states, steps, i, j, t);
    InvOnRun(states, steps, i);
    hide Run;
    Published(states[j], t, states[i].current);
    assert states[i].current >= 1;
  }

  lemma {:induction false} Published(s: State, t: nat, e: nat)
    requires Inv(s) && Enabled(s, StoreEntry(t)) && Carries(s, t, e) && e >= 1
    ensures var s' := Apply(s, StoreEntry(t)); t < |s'.threads| && Protected(s', t) && EpochOf(s', t) == e
  {
    assert ThreadShaped(|s.table|, |s.ring|, s.threads[t]);
  }
}

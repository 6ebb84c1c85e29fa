/**
 * The epoch manager and the garbage ring as one machine of atomic steps, run by any number of
 * threads in any order.
 *
 * Memory is sequentially consistent. Every load, store, fetch_add and compare-and-swap of the
 * source is a step of its own; the fields after `threads` only record what happened.
 */
module EpochMachine {
  import opened Sequences

  type Item = nat

  /** removal_epoch of a ring slot: 0, an epoch, or the invalid epoch that marks a claimed slot. */
  datatype Stamp = Free | At(epoch: nat) | Claimed

  datatype Entry = Entry(threadId: nat, epoch: nat)

  datatype Slot = Slot(stamp: Stamp, item: Item)

  /** What a thread inside the garbage list or the manager is working on. */
  datatype Task =
    | Push(item: Item, removalEpoch: nat)
    | Scavenge
    | Bump

  /** Where a thread stands; the name says what its next step does. */
  datatype Pc =
    | Idle
    | Probe(epoch: nat, index: nat)
    | Reserve(epoch: nat, index: nat)
    | Enter(epoch: nat)
    | Pick(task: Task)
    | FetchAdd(slot: nat, task: Task)
    | Scan(index: nat, oldest: nat, slot: nat, task: Task)
    | SetSafe(oldest: nat, slot: nat, task: Task)
    | Peek(slot: nat, task: Task)
    | Claim(slot: nat, prior: Stamp, task: Task)
    | Check(slot: nat, prior: Stamp, task: Task)
    | Destroy(slot: nat, task: Task)
    | Fill(slot: nat, task: Task)

  /** A thread: its reserved entry, its position, and the items it has read since it entered its region. */
  datatype Thread = Thread(entry: Option<nat>, pc: Pc, held: set<Item>)

  /** Where an item is. */
  datatype Place = Linked | Removed(thread: nat) | Resident(slot: nat) | Destroyed

  datatype State = State(
    current: nat,
    safe: nat,
    table: seq<Entry>,
    tail: nat,
    ring: seq<Slot>,
    threads: seq<Thread>,
    place: map<Item, Place>,
    removedAt: map<Item, nat>,
    destroyed: seq<Item>)

  datatype Step =
    | Link(t: nat, item: Item)
    | Read(t: nat, item: Item)
    | Unlink(t: nat, item: Item)
    | LoadEpoch(t: nat, start: nat)
    | ProbeEntry(t: nat)
    | ReserveEntry(t: nat)
    | StoreEntry(t: nat)
    | Unprotect(t: nat)
    | BeginPush(t: nat, item: Item)
    | BeginScavenge(t: nat)
    | BeginBump(t: nat)
    | PickSlot(t: nat)
    | AddEpoch(t: nat)
    | ScanEntry(t: nat)
    | StoreSafe(t: nat)
    | PeekStamp(t: nat)
    | SwapStamp(t: nat)
    | CheckSafe(t: nat)
    | CallDestroy(t: nat)
    | FillSlot(t: nat)

  predicate Protected(s: State, t: nat)
    requires t < |s.threads|
  {
    var e := s.threads[t].entry;
    e.Some? && e.value < |s.table| && s.table[e.value].epoch != 0
  }

  function EpochOf(s: State, t: nat): nat
    requires t < |s.threads| && Protected(s, t)
  {
    s.table[s.threads[t].entry.value].epoch
  }

  /** Every bump belongs to a slot of the ring whose number is a multiple of a quarter of its size. */
  predicate Rolls(slot: nat, size: nat)
    requires size > 0
  {
    (slot * 4) % size == 0
  }

  /** The slot that a fetch_add on tail yields: one behind the old value, modulo the size. */
  function TailSlot(tail: nat, size: nat): (slot: nat)
    requires size > 0
    ensures slot < size
  {
    (tail + size - 1) % size
  }

  function Wrap(i: nat, size: nat): (r: nat)
    requires size > 0
    ensures r < size
  {
    i % size
  }

  /** Where a thread goes when the slot it looked at is of no use. */
  function Retry(slot: nat, task: Task, size: nat): (pc: Pc)
    ensures pc.Pick? || pc.Peek? || pc.Idle?
  {
    match task
    case Push(_, _) => Pick(task)
    case Scavenge => if slot + 1 < size then Peek(slot + 1, task) else Idle
    case Bump => Idle
  }

  predicate Enabled(s: State, step: Step) {
    step.t < |s.threads| &&
    var th := s.threads[step.t];
    match step
    case Link(_, x) => th.pc == Idle && x !in s.place
    case Read(_, x) => th.pc == Idle && Protected(s, step.t) && x in s.place && s.place[x] == Linked
    case Unlink(_, x) => th.pc == Idle && x in s.place && s.place[x] == Linked
    case LoadEpoch(_, start) => th.pc == Idle && !Protected(s, step.t)
    case ProbeEntry(_) => th.pc.Probe?
    case ReserveEntry(_) => th.pc.Reserve?
    case StoreEntry(_) => th.pc.Enter?
    case Unprotect(_) => th.pc == Idle && Protected(s, step.t)
    case BeginPush(_, x) => th.pc == Idle && x in s.place && s.place[x] == Removed(step.t)
    case BeginScavenge(_) => th.pc == Idle
    case BeginBump(_) => th.pc == Idle
    case PickSlot(_) => th.pc.Pick?
    case AddEpoch(_) => th.pc.FetchAdd?
    case ScanEntry(_) => th.pc.Scan?
    case StoreSafe(_) => th.pc.SetSafe?
    case PeekStamp(_) => th.pc.Peek?
    case SwapStamp(_) => th.pc.Claim?
    case CheckSafe(_) => th.pc.Check?
    case CallDestroy(_) => th.pc.Destroy?
    case FillSlot(_) => th.pc.Fill?
  }

  /** The scan of the table starts, or is over at once when the table is empty. */
  function ScanFrom(s: State, index: nat, oldest: nat, slot: nat, task: Task): Pc {
    if index < |s.table| then Scan(index, oldest, slot, task) else SetSafe(oldest, slot, task)
  }

  // ----- what a step does: where the thread goes, and what it writes -----

  function PcAfter(s: State, step: Step): Pc
    requires WellShaped(s) && Enabled(s, step)
  {
    var th := s.threads[step.t];
    assert ThreadShaped(|s.table|, |s.ring|, th);
    match step
    case Link(_, _) | Read(_, _) | Unlink(_, _) | Unprotect(_) => th.pc
    case LoadEpoch(_, start) =>
      if th.entry.Some? then Enter(s.current) else Probe(s.current, Wrap(start, |s.table|))
    case ProbeEntry(_) =>
      var Probe(e, i) := th.pc;
      if s.table[i].threadId == 0 then Reserve(e, i) else Probe(e, Wrap(i + 1, |s.table|))
    case ReserveEntry(_) =>
      var Reserve(e, i) := th.pc;
      if s.table[i].threadId == 0 then Enter(e) else Probe(e, Wrap(i + 1, |s.table|))
    case StoreEntry(_) => Idle
    case BeginPush(_, x) => Pick(Push(x, s.current))
    case BeginScavenge(_) => Peek(0, Scavenge)
    case BeginBump(_) => FetchAdd(0, Bump)
    case PickSlot(_) =>
      var slot := TailSlot(s.tail, |s.ring|);
      if Rolls(slot, |s.ring|) then FetchAdd(slot, th.pc.task) else Peek(slot, th.pc.task)
    case AddEpoch(_) => ScanFrom(s, 0, s.current, th.pc.slot, th.pc.task)
    case ScanEntry(_) =>
      var Scan(i, oldest, slot, task) := th.pc;
      var e := s.table[i].epoch;
      ScanFrom(s, i + 1, if e != 0 && e < oldest then e else oldest, slot, task)
    case StoreSafe(_) =>
      var SetSafe(_, slot, task) := th.pc;
      if task == Bump then Idle else Peek(slot, task)
    case PeekStamp(_) =>
      var Peek(slot, task) := th.pc;
      var prior := s.ring[slot].stamp;
      if prior == Claimed || (prior == Free && task == Scavenge)
      then Retry(slot, task, |s.ring|) else Claim(slot, prior, task)
    case SwapStamp(_) =>
      var Claim(slot, prior, task) := th.pc;
      if s.ring[slot].stamp == prior then Check(slot, prior, task) else Retry(slot, task, |s.ring|)
    case CheckSafe(_) =>
      var Check(slot, prior, task) := th.pc;
      if prior == Free then Fill(slot, task)
      else if s.safe < prior.epoch then Retry(slot, task, |s.ring|)
      else Destroy(slot, task)
    case CallDestroy(_) => Fill(th.pc.slot, th.pc.task)
    case FillSlot(_) => if th.pc.task.Push? then Idle else Retry(th.pc.slot, th.pc.task, |s.ring|)
  }

  /** Protect and Unprotect, and the compare-and-swap that reserves an entry. */
  function TableAfter(s: State, step: Step): (table: seq<Entry>)
    requires WellShaped(s) && Enabled(s, step)
    ensures |table| == |s.table|
  {
    var th := s.threads[step.t];
    assert ThreadShaped(|s.table|, |s.ring|, th);
    match step
    case ReserveEntry(_) =>
      var i := th.pc.index;
      if s.table[i].threadId == 0 then s.table[i := s.table[i].(threadId := step.t + 1)] else s.table
    case StoreEntry(_) => s.table[th.entry.value := s.table[th.entry.value].(epoch := th.pc.epoch)]
    case Unprotect(_) => s.table[th.entry.value := s.table[th.entry.value].(epoch := 0)]
    case _ => s.table
  }

  /** The compare-and-swap that claims a slot, the store that gives it back and the one that fills it. */
  function RingAfter(s: State, step: Step): (ring: seq<Slot>)
    requires WellShaped(s) && Enabled(s, step)
    ensures |ring| == |s.ring|
  {
    var th := s.threads[step.t];
    assert ThreadShaped(|s.table|, |s.ring|, th);
    match step
    case SwapStamp(_) =>
      var Claim(slot, prior, _) := th.pc;
      if s.ring[slot].stamp == prior then s.ring[slot := s.ring[slot].(stamp := Claimed)] else s.ring
    case CheckSafe(_) =>
      var Check(slot, prior, _) := th.pc;
      if prior.At? && s.safe < prior.epoch then s.ring[slot := s.ring[slot].(stamp := prior)] else s.ring
    case FillSlot(_) =>
      var Fill(slot, task) := th.pc;
      s.ring[slot := if task.Push? then Slot(At(task.removalEpoch), task.item) else Slot(Free, 0)]
    case _ => s.ring
  }

  /** A thread keeps the entry it reserved. */
  function EntryAfter(s: State, step: Step): Option<nat>
    requires WellShaped(s) && Enabled(s, step)
  {
    var th := s.threads[step.t];
    assert ThreadShaped(|s.table|, |s.ring|, th);
    if step.ReserveEntry? && s.table[th.pc.index].threadId == 0 then Some(th.pc.index) else th.entry
  }

  function HeldAfter(s: State, step: Step): set<Item>
    requires WellShaped(s) && Enabled(s, step)
  {
    var held := s.threads[step.t].held;
    match step
    case Read(_, x) => held + {x}
    case Unprotect(_) => {}
    case _ => held
  }

  function PlaceAfter(s: State, step: Step): map<Item, Place>
    requires WellShaped(s) && Enabled(s, step)
  {
    var th := s.threads[step.t];
    assert ThreadShaped(|s.table|, |s.ring|, th);
    match step
    case Link(_, x) => s.place[x := Linked]
    case Unlink(t, x) => s.place[x := Removed(t)]
    case CallDestroy(_) => s.place[s.ring[th.pc.slot].item := Destroyed]
    case FillSlot(_) => if th.pc.task.Push? then s.place[th.pc.task.item := Resident(th.pc.slot)] else s.place
    case _ => s.place
  }

  function DestroyedAfter(s: State, step: Step): seq<Item>
    requires WellShaped(s) && Enabled(s, step)
  {
    var th := s.threads[step.t];
    assert ThreadShaped(|s.table|, |s.ring|, th);
    if step.CallDestroy? then s.destroyed + [s.ring[th.pc.slot].item] else s.destroyed
  }

  function SafeAfter(s: State, step: Step): nat
    requires WellShaped(s) && Enabled(s, step)
  {
    var th := s.threads[step.t];
    assert ThreadShaped(|s.table|, |s.ring|, th);
    if step.StoreSafe? then th.pc.oldest - 1 else s.safe
  }

  function Apply(s: State, step: Step): State
    requires WellShaped(s) && Enabled(s, step)
  {
    State(
      current := if step.AddEpoch? then s.current + 1 else s.current,
      safe := SafeAfter(s, step),
      table := TableAfter(s, step),
      tail := if step.PickSlot? then s.tail + 1 else s.tail,
      ring := RingAfter(s, step),
      threads := s.threads[step.t := Thread(EntryAfter(s, step), PcAfter(s, step), HeldAfter(s, step))],
      place := PlaceAfter(s, step),
      removedAt := if step.Unlink? then s.removedAt[step.item := s.current] else s.removedAt,
      destroyed := DestroyedAfter(s, step))
  }

  // ----- the invariant -----

  /** Indices are in range and the numbers that are decremented are positive. */
  predicate PcShaped(entries: nat, slots: nat, th: Thread) {
    match th.pc
    case Idle => true
    case Probe(_, i) => i < entries
    case Reserve(_, i) => i < entries
    case Enter(_) => th.entry.Some?
    case Pick(task) => task.Push?
    case FetchAdd(slot, _) => slot < slots
    case Scan(i, oldest, slot, _) => i < entries && oldest >= 1 && slot < slots
    case SetSafe(oldest, slot, _) => oldest >= 1 && slot < slots
    case Peek(slot, task) => slot < slots && task != Bump
    case Claim(slot, prior, task) => slot < slots && prior != Claimed && task != Bump
    case Check(slot, prior, task) => slot < slots && prior != Claimed && task != Bump
    case Destroy(slot, task) => slot < slots && task != Bump
    case Fill(slot, task) => slot < slots && task != Bump
  }

  predicate ThreadShaped(entries: nat, slots: nat, th: Thread) {
    && (th.entry.Some? ==> th.entry.value < entries)
    && PcShaped(entries, slots, th)
  }

  predicate WellShaped(s: State) {
    && |s.table| > 0
    && |s.ring| > 0
    && s.current >= 1
    && (forall t :: 0 <= t < |s.threads| ==> ThreadShaped(|s.table|, |s.ring|, s.threads[t]))
  }

  /** An entry that a thread reserved carries that thread's id, so no two threads share one. */
  ghost predicate EntriesOwned(s: State) {
    forall t :: 0 <= t < |s.threads| ==>
      var e := s.threads[t].entry;
      e.Some? ==> e.value < |s.table| && s.table[e.value].threadId == t + 1
  }

  /** Epochs a thread carries from one step to the next. */
  ghost predicate PcEpochs(current: nat, pc: Pc) {
    match pc
    case Probe(e, _) => 1 <= e <= current
    case Reserve(e, _) => 1 <= e <= current
    case Enter(e) => 1 <= e <= current
    case Scan(_, oldest, _, _) => oldest < current
    case SetSafe(oldest, _, _) => oldest < current
    case _ => true
  }

  /** No stored or loaded epoch is ahead of the current one, and the safe epoch is behind it. */
  ghost predicate EpochsInOrder(s: State) {
    && s.safe < s.current
    && (forall i :: 0 <= i < |s.table| ==> s.table[i].epoch <= s.current)
    && (forall t :: 0 <= t < |s.threads| ==> PcEpochs(s.current, s.threads[t].pc))
  }

  /** A thread holds only what it read in its region: items still linked, or removed at its epoch or later. */
  ghost predicate HeldBy(s: State, t: nat, x: Item)
    requires t < |s.threads|
  {
    && Protected(s, t)
    && !s.threads[t].pc.Probe?
    && !s.threads[t].pc.Reserve?
    && !s.threads[t].pc.Enter?
    && (x in s.removedAt ==> EpochOf(s, t) <= s.removedAt[x])
  }

  ghost predicate HeldInRegion(s: State) {
    forall t, x {:trigger x in s.threads[t].held} :: 0 <= t < |s.threads| && x in s.threads[t].held ==> HeldBy(s, t, x)
  }

  ghost predicate RemovedBefore(s: State, x: Item, e: nat) {
    x in s.removedAt && s.removedAt[x] < e
  }

  /** What a scan has already passed holds nothing that the scan may go on to declare safe. */
  ghost predicate ScanPassed(s: State, pc: Pc) {
    match pc
    case Scan(i, oldest, _, _) =>
      forall t, x {:trigger x in s.threads[t].held} ::
        0 <= t < |s.threads| && x in s.threads[t].held && RemovedBefore(s, x, oldest) ==>
          s.threads[t].entry.Some? && i <= s.threads[t].entry.value
    case SetSafe(oldest, _, _) =>
      forall t, x {:trigger x in s.threads[t].held} ::
        0 <= t < |s.threads| && x in s.threads[t].held ==> !RemovedBefore(s, x, oldest)
    case _ => true
  }

  ghost predicate ScansSound(s: State) {
    forall u :: 0 <= u < |s.threads| ==> ScanPassed(s, s.threads[u].pc)
  }

  /** Nothing removed at or before the safe epoch is still held. */
  ghost predicate SafeIsSafe(s: State) {
    forall t, x {:trigger x in s.threads[t].held} ::
      0 <= t < |s.threads| && x in s.threads[t].held ==> !RemovedBefore(s, x, s.safe + 1)
  }

  // The ring.

  ghost predicate Owns(pc: Pc, slot: nat) {
    (pc.Check? || pc.Destroy? || pc.Fill?) && pc.slot == slot
  }

  /** The item in a slot is there, and was removed no later than its stamp. */
  ghost predicate Stored(s: State, slot: nat, e: nat)
    requires slot < |s.ring|
  {
    var x := s.ring[slot].item;
    x in s.place && s.place[x] == Resident(slot) && x in s.removedAt && s.removedAt[x] <= e
  }

  ghost predicate Vacant(s: State, slot: nat) {
    forall x :: x in s.place ==> s.place[x] != Resident(slot)
  }

  ghost predicate NotHeld(s: State, x: Item) {
    forall t :: 0 <= t < |s.threads| ==> x !in s.threads[t].held
  }

  ghost predicate SlotSound(s: State, k: nat)
    requires k < |s.ring|
  {
    && (s.ring[k].stamp.At? ==> Stored(s, k, s.ring[k].stamp.epoch))
    && (s.ring[k].stamp.Free? ==> Vacant(s, k))
    && (forall x :: x in s.place && s.place[x] == Resident(k) ==> x == s.ring[k].item)
  }

  ghost predicate PcRing(s: State, t: nat, pc: Pc) {
    match pc
    case Pick(task) => TaskOwned(s, t, task)
    case FetchAdd(_, task) => TaskOwned(s, t, task)
    case Scan(_, _, _, task) => TaskOwned(s, t, task)
    case SetSafe(_, _, task) => TaskOwned(s, t, task)
    case Peek(_, task) => TaskOwned(s, t, task)
    case Claim(_, _, task) => TaskOwned(s, t, task)
    case Check(slot, prior, task) =>
      && TaskOwned(s, t, task)
      && slot < |s.ring|
      && s.ring[slot].stamp == Claimed
      && (if prior.At? then Stored(s, slot, prior.epoch) else Vacant(s, slot))
    case Destroy(slot, task) =>
      && TaskOwned(s, t, task)
      && slot < |s.ring|
      && s.ring[slot].stamp == Claimed
      && (exists e :: Stored(s, slot, e))
      && NotHeld(s, s.ring[slot].item)
    case Fill(slot, task) =>
      && TaskOwned(s, t, task)
      && slot < |s.ring|
      && s.ring[slot].stamp == Claimed
      && Vacant(s, slot)
    case _ => true
  }

  /** The item being pushed belongs to the pushing thread and was removed no later than its stamp. */
  ghost predicate TaskOwned(s: State, t: nat, task: Task) {
    task.Push? ==>
      && task.item in s.place
      && s.place[task.item] == Removed(t)
      && task.item in s.removedAt
      && s.removedAt[task.item] <= task.removalEpoch
  }

  ghost predicate HasOwner(s: State, k: nat) {
    exists t :: 0 <= t < |s.threads| && Owns(s.threads[t].pc, k)
  }

  ghost predicate RingSound(s: State) {
    && (forall k :: 0 <= k < |s.ring| ==> SlotSound(s, k))
    && (forall k :: 0 <= k < |s.ring| && s.ring[k].stamp == Claimed ==> HasOwner(s, k))
    && (forall t :: 0 <= t < |s.threads| ==> PcRing(s, t, s.threads[t].pc))
    && (forall t, u, k {:trigger Owns(s.threads[t].pc, k), Owns(s.threads[u].pc, k)} ::
          0 <= t < |s.threads| && 0 <= u < |s.threads| && Owns(s.threads[t].pc, k) && Owns(s.threads[u].pc, k) ==> t == u)
  }

  /** An item has a removal epoch exactly when it is no longer linked. */
  ghost predicate PlacesSound(s: State) {
    && (forall x {:trigger x in s.removedAt} :: x in s.removedAt <==> x in s.place && s.place[x] != Linked)
    && (forall x :: x in s.removedAt ==> s.removedAt[x] <= s.current)
    && (forall x :: x in s.place && s.place[x].Resident? ==> s.place[x].slot < |s.ring|)
    && (forall x :: x in s.place && s.place[x].Removed? ==> s.place[x].thread < |s.threads|)
  }

  /** The destroy log lists each destroyed item once, and no thread holds a destroyed item. */
  ghost predicate DestroyedSound(s: State) {
    && (forall i, j :: 0 <= i < j < |s.destroyed| ==> s.destroyed[i] != s.destroyed[j])
    && (forall x :: x in s.destroyed <==> x in s.place && s.place[x] == Destroyed)
    && (forall x :: x in s.destroyed ==> NotHeld(s, x))
  }

  ghost predicate Inv(s: State) {
    && WellShaped(s)
    && EntriesOwned(s)
    && EpochsInOrder(s)
    && HeldInRegion(s)
    && ScansSound(s)
    && SafeIsSafe(s)
    && RingSound(s)
    && PlacesSound(s)
    && DestroyedSound(s)
  }

  ghost predicate Init(s: State) {
    && s.current == 1
    && s.safe == 0
    && |s.table| > 0
    && |s.ring| > 0
    && (forall i :: 0 <= i < |s.table| ==> s.table[i] == Entry(0, 0))
    && (forall k :: 0 <= k < |s.ring| ==> s.ring[k] == Slot(Free, 0))
    && (forall t :: 0 <= t < |s.threads| ==> s.threads[t] == Thread(None, Idle, {}))
    && s.place == map[]
    && s.removedAt == map[]
    && s.destroyed == []
  }
}

/** The thread-local garbage list and the epoch manager it drives, in their imperative form. */
module LocalGarbage {
  import EpochMachine

  type Item = nat

  // ----- the epoch manager, seen by one thread -----

  /** The oldest epoch among `bound` and the protected entries (an entry of 0 is unprotected). */
  function Oldest(entries: seq<nat>, bound: nat): (m: nat)
    ensures m <= bound
    ensures forall i :: 0 <= i < |entries| && entries[i] != 0 ==> m <= entries[i]
    ensures m == bound || m in entries
    ensures bound >= 1 ==> m >= 1
  {
    if entries == [] then
      bound
    else
      var last := entries[|entries| - 1];
      var rest := Oldest(entries[..|entries| - 1], bound);
      if last != 0 && last < rest then last else rest
  }

  predicate Quiet(entries: seq<nat>) {
    forall i :: 0 <= i < |entries| ==> entries[i] == 0
  }

  /** A bound below the oldest epoch stays below it when entries are cleared, set above the bound, or the last epoch grows. */
  lemma OldestAbove(entries: seq<nat>, current: nat, entries': seq<nat>, current': nat, bound: nat)
    requires bound < Oldest(entries, current) && current <= current' && |entries'| == |entries|
    requires forall i :: 0 <= i < |entries| ==> entries'[i] == entries[i] || entries'[i] == 0 || entries'[i] > bound
    ensures bound < Oldest(entries', current')
  {
    hide Oldest;
    if Oldest(entries', current') in entries' {
      var i :| 0 <= i < |entries'| && entries'[i] == Oldest(entries', current');
      assert entries'[i] != 0;
    }
  }

  class EpochManager {
    var current: nat
    var safe: nat
    var entries: seq<nat>

    /** The safe epoch is behind the current one and behind every protected one. */
    ghost predicate Valid()
      reads this
    {
      && safe < Oldest(entries, current)
      && (forall i :: 0 <= i < |entries| ==> entries[i] <= current)
    }

    constructor (size: nat)
      ensures Valid() && current == 1 && safe == 0 && |entries| == size && Quiet(entries)
    {
      current, safe := 1, 0;
      entries := seq(size, _ => 0);
    }

    method Protect(i: nat)
      requires Valid() && i < |entries|
      modifies this
      ensures Valid() && entries == old(entries)[i := current] && current == old(current) && safe == old(safe)
    {
      OldestAbove(entries, current, entries[i := current], current, safe);
      entries := entries[i := current];
    }

    method Unprotect(i: nat)
      requires Valid() && i < |entries|
      modifies this
      ensures Valid() && entries == old(entries)[i := 0] && current == old(current) && safe == old(safe)
    {
      OldestAbove(entries, current, entries[i := 0], current, safe);
      entries := entries[i := 0];
    }

    function IsSafeToReclaim(epoch: nat): bool
      reads this
    {
      epoch <= safe
    }

    method BumpCurrentEpoch()
      requires Valid()
      modifies this
      ensures Valid() && entries == old(entries)
      ensures current == old(current) + 1
      ensures safe == Oldest(entries, old(current)) - 1
    {
      var newEpoch := current;
      OldestAbove(entries, current, entries, current + 1, Oldest(entries, current) - 1);
      current := current + 1;
      safe := ComputeNewSafeToReclaimEpoch(newEpoch);
    }

    method ComputeNewSafeToReclaimEpoch(epoch: nat) returns (r: nat)
      requires epoch >= 1
      ensures r == Oldest(entries, epoch) - 1
    {
      var oldest := epoch;
      for i := 0 to |entries|
        invariant oldest == Oldest(entries[..i], epoch)
      {
        assert entries[..i + 1][..i] == entries[..i];
        var e := entries[i];
        if e != 0 && e < oldest {
          oldest := e;
        }
      }
      assert entries[..|entries|] == entries;
      r := oldest - 1;
    }
  }

  // ----- the ring -----

  /** removal_epoch 0 marks an empty slot. */
  datatype Slot = Slot(epoch: nat, item: Item)

  ghost function One(s: Slot): multiset<Item> {
    if s.epoch == 0 then multiset{} else multiset{s.item}
  }

  /** The items in the ring that still wait to be destroyed. */
  ghost function Waiting(items: seq<Slot>): multiset<Item> {
    if items == [] then multiset{} else Waiting(items[..|items| - 1]) + One(items[|items| - 1])
  }

  lemma {:induction false} WaitingUpdate(items: seq<Slot>, k: nat, s: Slot)
    requires k < |items|
    ensures Waiting(items[k := s]) + One(items[k]) == Waiting(items) + One(s)
  {
    hide One;
    var n, updated := |items| - 1, items[k := s];
    if k == n {
      assert updated[..n] == items[..n];
    } else {
      WaitingUpdate(items[..n], k, s);
      assert updated[..n] == items[..n][k := s] && items[..n][k] == items[k];
      assert Waiting(updated) == Waiting(updated[..n]) + One(items[n]);
      assert Waiting(items) == Waiting(items[..n]) + One(items[n]);
      assert Waiting(updated) + One(items[k]) == (Waiting(updated[..n]) + One(items[k])) + One(items[n]);
    }
  }

  predicate PowerOfTwo(n: nat) {
    n == 1 || (n > 1 && n % 2 == 0 && PowerOfTwo(n / 2))
  }

  function SlotOf(tail: nat, size: nat): (slot: nat)
    requires size > 0
    ensures slot < size
  {
    tail % size
  }

  function Quarter(size: nat): (q: nat)
    ensures q >= 1
  {
    if size < 4 then 1 else size / 4
  }

  /** One lap more is n slots more, so later laps begin after the whole of an earlier one. */
  lemma {:induction false} MulStep(c: nat, c': nat, n: nat)
    requires c < c'
    ensures c * n + n <= c' * n
  {
    assert (c + 1) * n == c * n + n;
    if c + 1 < c' {
      MulStep(c, c' - 1, n);
      assert c' * n == (c' - 1) * n + n;
    }
  }

  lemma ModIs(x: nat, n: nat, c: nat, r: nat)
    requires n > 0 && x == c * n + r && r < n
    ensures x % n == r
  {
    var c', r' := x / n, x % n;
    SameQuotient(n, c, r, c', r') by {
      assert x == n * c' + r';
    }
  }

  lemma SameQuotient(n: nat, c: nat, r: nat, c': nat, r': nat)
    requires r < n && r' < n && c * n + r == c' * n + r'
    ensures r == r'
  {
    if c < c' {
      MulStep(c, c', n);
    } else if c' < c {
      MulStep(c', c, n);
    }
  }

  lemma NextSlot(tail: nat, n: nat)
    requires n > 0
    ensures SlotOf(tail, n) < n
    ensures SlotOf(tail + 1, n) == if SlotOf(tail, n) + 1 == n then 0 else SlotOf(tail, n) + 1
  {
    var c, r := tail / n, tail % n;
    assert tail == c * n + r;
    if r + 1 == n {
      assert tail + 1 == (c + 1) * n;
      ModIs(tail + 1, n, c + 1, 0);
    } else {
      ModIs(tail + 1, n, c, r + 1);
    }
  }

  lemma QuarterOf(size: nat)
    requires PowerOfTwo(size) && size >= 4
    ensures size == 4 * Quarter(size)
  {
    assert PowerOfTwo(size / 2) && PowerOfTwo(size / 2 / 2);
  }

  lemma RollsAtQuarter(size: nat, c: nat)
    requires PowerOfTwo(size) && c < 4
    ensures size >= 4 ==> size == 4 * Quarter(size) && EpochMachine.Rolls(c * Quarter(size), size)
  {
    hide EpochMachine.Rolls, Quarter, PowerOfTwo;
    if size >= 4 {
      QuarterOf(size);
      RollsAt(size, Quarter(size), c);
    }
  }

  lemma RollsAt(size: nat, q: nat, c: nat)
    requires size == 4 * q > 0
    ensures EpochMachine.Rolls(c * q, size)
  {
    assert c * q * 4 == c * size;
    ModIs(c * size, size, c, 0);
  }

  lemma SmallRolls(size: nat, slot: nat)
    requires PowerOfTwo(size) && size < 4
    ensures EpochMachine.Rolls(slot, size)
  {
    assert size == 1 || size == 2;
    hide PowerOfTwo;
    ModIs(slot * 4, size, if size == 1 then slot * 4 else slot * 2, 0);
  }

  /** How far a slot is past the last quarter boundary, and which quarter it is in. */
  ghost predicate AtOffset(slot: nat, size: nat, c: nat, offset: nat) {
    offset < Quarter(size) && if size < 4 then c == 0 else c < 4 && slot == c * Quarter(size) + offset
  }

  /** Attempts left until the next boundary. */
  function Distance(offset: nat, q: nat): nat
    requires offset < q
  {
    if offset == 0 then 0 else q - offset
  }

  lemma OffsetStep(slot: nat, size: nat, c: nat, offset: nat) returns (c': nat, offset': nat)
    requires PowerOfTwo(size) && slot < size && AtOffset(slot, size, c, offset)
    ensures offset == 0 ==> EpochMachine.Rolls(slot, size)
    ensures offset < Quarter(size) && offset' < Quarter(size) && (Distance(offset, Quarter(size)) == 0 ==> EpochMachine.Rolls(slot, size))
    ensures AtOffset(if slot + 1 == size then 0 else slot + 1, size, c', offset')
    ensures Distance(offset', Quarter(size)) ==
              if Distance(offset, Quarter(size)) == 0 then Quarter(size) - 1 else Distance(offset, Quarter(size)) - 1
  {
    var q := Quarter(size);
    RollsAtQuarter(size, c);
    if size < 4 {
      SmallRolls(size, slot);
      c', offset' := 0, 0;
    } else if offset + 1 < q {
      c', offset' := c, offset + 1;
      assert slot + 1 < size by {
        assert c * q <= 3 * q;
      }
    } else if c == 3 {
      c', offset' := 0, 0;
    } else {
      c', offset' := c + 1, 0;
      assert (c + 1) * q == c * q + q;
      assert (c + 1) * q <= 3 * q;
    }
  }

  lemma OffsetOf(slot: nat, size: nat) returns (c: nat, offset: nat)
    requires PowerOfTwo(size) && slot < size
    ensures AtOffset(slot, size, c, offset) && offset < Quarter(size)
  {
    var q := Quarter(size);
    RollsAtQuarter(size, 0);
    if size < 4 {
      c, offset := 0, 0;
    } else {
      c, offset := slot / q, slot % q;
      assert slot == c * q + offset;
      assert c < 4 by {
        if c > 3 { MulStep(3, c, q); }
      }
    }
  }

  /** The result of Push: done after so many attempts, or an attempt that would be repeated for ever. */
  datatype PushResult = Pushed(attempts: nat) | Spins

  /** Some thread is protected, and no slot is free or holds an item removed before every protected thread entered. */
  predicate Hopeless(items: seq<Slot>, entries: seq<nat>, current: nat) {
    !Quiet(entries) && forall k :: 0 <= k < |items| ==> items[k].epoch >= Oldest(entries, current)
  }

  /** Attempts until slot 0 comes up again. */
  function ToGo(tail: nat, n: nat): nat
    requires n > 0
  {
    if SlotOf(tail, n) == 0 then 0 else n - SlotOf(tail, n)
  }

  lemma NextToGo(tail: nat, n: nat)
    requires n > 0
    ensures ToGo(tail, n) < n && (ToGo(tail, n) == 0 <==> SlotOf(tail, n) == 0)
    ensures ToGo(tail + 1, n) == if ToGo(tail, n) == 0 then n - 1 else ToGo(tail, n) - 1
  {
    NextSlot(tail, n);
  }

  lemma IsHopeless(items: seq<Slot>, entries: seq<nat>, safe: nat, current: nat, current': nat)
    requires !Quiet(entries) && safe + 1 == Oldest(entries, current') && current <= current'
    requires forall k :: 0 <= k < |items| ==> items[k].epoch > safe
    requires forall i :: 0 <= i < |entries| ==> entries[i] <= current
    ensures Hopeless(items, entries, current)
  {
    OldestFixed(entries, current, current');
  }

  /** One slot that can be reused is enough. */
  lemma NotHopeless(items: seq<Slot>, slot: nat, entries: seq<nat>, safe: nat, current: nat, current': nat)
    requires slot < |items| && items[slot].epoch <= safe < Oldest(entries, current') && current <= current'
    requires forall i :: 0 <= i < |entries| ==> entries[i] <= current
    ensures !Hopeless(items, entries, current)
  {
    if !Quiet(entries) {
      OldestFixed(entries, current, current');
    }
  }

  class GarbageListUnsafe {
    const manager: EpochManager
    var tail: nat
    var items: seq<Slot>
    var destroyed: seq<Item>

    ghost predicate Valid()
      reads this, manager
    {
      && manager.Valid()
      && |items| > 0
      && PowerOfTwo(|items|)
      && (forall k :: 0 <= k < |items| ==> items[k].epoch <= manager.current)
    }

    /** Some thread is protected, and no slot is free or older than every protected thread. */
    ghost predicate Stuck()
      reads this, manager
    {
      && manager.safe + 1 == Oldest(manager.entries, manager.current) && manager.safe + 1 in manager.entries
      && (forall k :: 0 <= k < |items| ==> items[k].epoch > manager.safe)
    }

    constructor (manager: EpochManager, size: nat)
      requires manager.Valid() && PowerOfTwo(size)
      ensures Valid() && this.manager == manager && |items| == size && Waiting(items) == multiset{} && destroyed == []
    {
      this.manager := manager;
      tail := 0;
      items := seq(size, _ => Slot(0, 0));
      destroyed := [];
      new;
      SizePositive(size);
      NothingWaiting(items);
    }

    /** One round of the loop in Push. */
    method Attempt(item: Item, removalEpoch: nat) returns (done: bool)
      requires Valid() && 1 <= removalEpoch <= manager.current
      modifies this, manager
      ensures Valid() && tail == old(tail) + 1 && |items| == old(|items|)
      ensures manager.entries == old(manager.entries)
      ensures var slot := SlotOf(old(tail), |items|);
              && (if EpochMachine.Rolls(slot, |items|) then
                    && manager.current == old(manager.current) + 1
                    && manager.safe == Oldest(manager.entries, old(manager.current)) - 1
                  else
                    manager.current == old(manager.current) && manager.safe == old(manager.safe))
              && (done <==> old(items)[slot].epoch <= manager.safe)
              && items == (if done then old(items)[slot := Slot(removalEpoch, item)] else old(items))
              && destroyed == old(destroyed) + (if done && old(items)[slot].epoch != 0 then [old(items)[slot].item] else [])
    {
      hide PowerOfTwo, Oldest, SlotOf, EpochMachine.Rolls;
      var slot := SlotOf(tail, |items|);
      tail := tail + 1;
      if EpochMachine.Rolls(slot, |items|) {
        manager.BumpCurrentEpoch();
      }
      var prior := items[slot].epoch;
      if prior != 0 {
        if !manager.IsSafeToReclaim(prior) {
          return false;
        }
        destroyed := destroyed + [items[slot].item];
      }
      items := items[slot := Slot(removalEpoch, item)];
      return true;
    }

    /**
     * Push, with the endless loop cut after the first fruitless lap that starts at slot 0. The call
     * never ends exactly when some thread is protected and no slot is free or older than all of the
     * protected threads. Otherwise the item is stored, stamped with the epoch at the start, in the
     * slot of the last attempt; what was there was reclaimable and is destroyed.
     */
    method Push(item: Item) returns (r: PushResult)
      requires Valid()
      modifies this, manager
      ensures Valid() && manager.entries == old(manager.entries) && |items| == old(|items|)
      ensures (r == Spins) == old(Hopeless(items, manager.entries, manager.current))
      ensures r == Spins ==> Stuck() && items == old(items) && destroyed == old(destroyed)
      ensures r.Pushed? ==> tail == old(tail) + r.attempts && 1 <= r.attempts <= 2 * |items|
      ensures Quiet(manager.entries) ==> r.Pushed? && r.attempts <= if |items| < 4 then 2 else |items| / 2
      ensures r.Pushed? ==>
        var slot := SlotOf(old(tail) + r.attempts - 1, |items|);
        && old(items)[slot].epoch <= manager.safe
        && items == old(items)[slot := Slot(old(manager.current), item)]
        && destroyed == old(destroyed) + if old(items)[slot].epoch != 0 then [old(items)[slot].item] else []
      ensures r.Pushed? ==> Account(items, destroyed) == Account(old(items), old(destroyed)) + multiset{item}
    {
      hide Account, PowerOfTwo, Oldest, SlotOf, Hopeless, Quiet;
      var done, attempts := TryAll(item, manager.current);
      ghost var slot := SlotOf(old(tail) + attempts - 1, |items|);
      if done {
        AccountStep(old(items), slot, Slot(old(manager.current), item), old(destroyed), destroyed);
        NotHopeless(old(items), slot, manager.entries, manager.safe, old(manager.current), manager.current);
        return Pushed(attempts);
      }
      IsHopeless(items, manager.entries, manager.safe, old(manager.current), manager.current);
      return Spins;
    }

    /** One more round after rounds that all failed. */
    method Round(item: Item, removalEpoch: nat, ghost lap: bool, ghost attempts: nat, ghost pos: Position)
      returns (done: bool, ghost pos': Position)
      requires Valid() && 1 <= removalEpoch <= manager.current
      requires Trying(manager.entries, items, tail, lap, manager.safe, manager.current, removalEpoch, attempts, pos)
      requires Quiet(manager.entries) || !lap || SlotOf(tail, |items|) != 0
      modifies this, manager
      ensures Valid() && tail == old(tail) + 1 && |items| == old(|items|) && old(manager.current) <= manager.current
      ensures manager.entries == old(manager.entries)
      ensures Quiet(manager.entries) ==> attempts < 2 * Quarter(|items|) && attempts < (if |items| < 4 then 2 else |items| / 2)
      ensures done ==>
        var slot := SlotOf(old(tail), |items|);
        && old(items)[slot].epoch <= manager.safe
        && items == old(items)[slot := Slot(removalEpoch, item)]
        && destroyed == old(destroyed) + if old(items)[slot].epoch != 0 then [old(items)[slot].item] else []
      ensures !done ==> items == old(items) && destroyed == old(destroyed)
      ensures !done ==> Trying(manager.entries, items, tail, lap || SlotOf(old(tail), |items|) == 0,
        manager.safe, manager.current, removalEpoch, attempts + 1, pos')
    {
      hide PowerOfTwo, EpochMachine.Rolls, Oldest, SlotOf, Trying, Quarter, Quiet;
      TryDone(manager.entries, items, tail, lap, manager.safe, manager.current, removalEpoch, attempts, pos);
      done := Attempt(item, removalEpoch);
      pos' := pos;
      if !done {
        pos' := TryFails(manager.entries, items, old(tail), lap, old(manager.safe), manager.safe, old(manager.current),
                         manager.current, removalEpoch, attempts, pos);
      }
    }

    /** The rounds of Push, up to the first that succeeds or the end of a fruitless lap that started at slot 0. */
    method TryAll(item: Item, removalEpoch: nat) returns (done: bool, attempts: nat)
      requires Valid() && removalEpoch == manager.current
      modifies this, manager
      ensures Valid() && manager.entries == old(manager.entries) && |items| == old(|items|)
      ensures old(manager.current) <= manager.current && tail == old(tail) + attempts && 1 <= attempts <= 2 * |items|
      ensures Quiet(manager.entries) ==> done && attempts <= if |items| < 4 then 2 else |items| / 2
      ensures done ==>
        var slot := SlotOf(old(tail) + attempts - 1, |items|);
        && old(items)[slot].epoch <= manager.safe
        && items == old(items)[slot := Slot(removalEpoch, item)]
        && destroyed == old(destroyed) + if old(items)[slot].epoch != 0 then [old(items)[slot].item] else []
      ensures !done ==> Stuck() && items == old(items) && destroyed == old(destroyed) && !Quiet(manager.entries)
    {
      hide PowerOfTwo, EpochMachine.Rolls, Oldest, SlotOf, Trying, Quarter, ToGo, Quiet;
      attempts := 0;
      var lap := false;
      var quiet := Quiet(manager.entries);
      ghost var n := |items|;
      ghost var pos := TryStarts(manager.entries, items, tail, manager.safe, manager.current);
      NextToGo(tail, n);
      while quiet || !lap || SlotOf(tail, |items|) != 0
        invariant Valid() && manager.entries == old(manager.entries) && quiet == Quiet(manager.entries)
        invariant items == old(items) && destroyed == old(destroyed) && |items| == n
        invariant 1 <= removalEpoch == old(manager.current) <= manager.current
        invariant tail == old(tail) + attempts && (lap ==> attempts >= 1)
        invariant !quiet ==> attempts + ToGo(tail, n) <= if lap then 2 * n else n
        invariant Trying(manager.entries, items, tail, lap, manager.safe, manager.current, removalEpoch, attempts, pos)
        decreases if quiet then 2 * Quarter(n) - attempts else 0, if lap then 0 else 1, ToGo(tail, n)
      {
        NextToGo(tail, n);
        var first := SlotOf(tail, |items|) == 0;
        done, pos := Round(item, removalEpoch, lap, attempts, pos);
        lap := lap || first;
        attempts := attempts + 1;
        if done {
          return;
        }
      }
      TryEnds(manager.entries, items, tail, lap, manager.safe, manager.current, removalEpoch, attempts, pos);
      done := false;
    }

    /** Destroy and clear every slot that can be reclaimed now; nothing else changes and nothing is lost. */
    method Scavenge() returns (scavenged: nat)
      requires Valid()
      modifies this
      ensures Valid() && tail == old(tail) && |items| == old(|items|)
      ensures forall k :: 0 <= k < |items| ==>
        items[k] == if 0 < old(items)[k].epoch <= manager.safe then Slot(0, 0) else old(items)[k]
      ensures Account(items, destroyed) == Account(old(items), old(destroyed))
      ensures old(destroyed) <= destroyed && scavenged == |destroyed| - |old(destroyed)|
    {
      hide PowerOfTwo, Account;
      scavenged := 0;
      var slot := 0;
      while slot < |items|
        invariant 0 <= slot <= |items| == old(|items|) && Valid() && tail == old(tail)
        invariant forall k :: 0 <= k < slot ==>
          items[k] == if 0 < old(items)[k].epoch <= manager.safe then Slot(0, 0) else old(items)[k]
        invariant forall k :: slot <= k < |items| ==> items[k] == old(items)[k]
        invariant Account(items, destroyed) == Account(old(items), old(destroyed))
        invariant old(destroyed) <= destroyed && scavenged == |destroyed| - |old(destroyed)|
      {
        var prior := items[slot].epoch;
        if prior != 0 && manager.IsSafeToReclaim(prior) {
          AccountDrop(items, slot, destroyed);
          destroyed := destroyed + [items[slot].item];
          items := items[slot := Slot(0, 0)];
          scavenged := scavenged + 1;
        }
        slot := slot + 1;
      }
    }

    /** Destroy whatever is left, each item once, safe or not. */
    method Uninitialize()
      requires Valid()
      modifies this
      ensures Waiting(items) == multiset{} && multiset(destroyed) == Account(old(items), old(destroyed))
      ensures old(destroyed) <= destroyed && tail == 0
    {
      hide PowerOfTwo, Account, Waiting;
      var i := 0;
      while i < |items|
        invariant 0 <= i <= |items|
        invariant forall k :: 0 <= k < i ==> items[k].epoch == 0
        invariant Account(items, destroyed) == Account(old(items), old(destroyed)) && old(destroyed) <= destroyed
      {
        if items[i].epoch != 0 {
          AccountDrop(items, i, destroyed);
          destroyed := destroyed + [items[i].item];
          items := items[i := Slot(0, 0)];
        }
        i := i + 1;
      }
      NothingWaiting(items);
      AccountIs(items, destroyed);
      tail := 0;
    }
  }

  /** Where the next attempt stands relative to the quarters, and how often the epoch has rolled. */
  datatype Position = Position(quarter: nat, offset: nat, bumps: nat)

  /** What all failed attempts of one Push have left behind. */
  ghost predicate Trying(entries: seq<nat>, items: seq<Slot>, tail: nat, lap: bool, safe: nat, current: nat,
                         removalEpoch: nat, attempts: nat, pos: Position)
  {
    var n, q := |items|, Quarter(|items|);
    && n > 0
    && PowerOfTwo(n)
    && safe < current
    && (forall i :: 0 <= i < |entries| ==> entries[i] <= current)
    && (forall k :: 0 <= k < n ==> items[k].epoch <= removalEpoch)
    && AtOffset(SlotOf(tail, n), n, pos.quarter, pos.offset)
    && (Quiet(entries) ==> Progress(pos.bumps, attempts, Distance(pos.offset, q), q, safe, current, removalEpoch))
    && (!Quiet(entries) && lap ==> LapSoFar(items, SlotOf(tail, n), safe, entries, current))
  }

  lemma TryStarts(entries: seq<nat>, items: seq<Slot>, tail: nat, safe: nat, current: nat) returns (pos: Position)
    requires |items| > 0 && PowerOfTwo(|items|) && safe < current
    requires forall i :: 0 <= i < |entries| ==> entries[i] <= current
    requires forall k :: 0 <= k < |items| ==> items[k].epoch <= current
    ensures Trying(entries, items, tail, false, safe, current, current, 0, pos)
  {
    var c, offset := OffsetOf(SlotOf(tail, |items|), |items|);
    pos := Position(c, offset, 0);
  }

  lemma TryFails(entries: seq<nat>, items: seq<Slot>, tail: nat, lap: bool, safe: nat, safe': nat, current: nat,
                 current': nat, removalEpoch: nat, attempts: nat, pos: Position)
    returns (pos': Position)
    requires Trying(entries, items, tail, lap, safe, current, removalEpoch, attempts, pos)
    requires Quiet(entries) || !lap || SlotOf(tail, |items|) != 0
    requires var slot := SlotOf(tail, |items|);
             && items[slot].epoch > safe'
             && safe' < current'
             && if EpochMachine.Rolls(slot, |items|) then current' == current + 1 && safe' == Oldest(entries, current) - 1
                else current' == current && safe' == safe
    ensures Trying(entries, items, tail + 1, lap || SlotOf(tail, |items|) == 0, safe', current', removalEpoch, attempts + 1, pos')
  {
    hide EpochMachine.Rolls, PowerOfTwo, AtOffset, Oldest, SlotOf, Quarter;
    var n, q, slot := |items|, Quarter(|items|), SlotOf(tail, |items|);
    NextSlot(tail, n);
    QuarterBound(n);
    var c, offset := OffsetStep(slot, n, pos.quarter, pos.offset);
    pos' := Position(c, offset, if EpochMachine.Rolls(slot, n) then pos.bumps + 1 else pos.bumps);
    if Quiet(entries) {
      QuietGoesOn(entries, EpochMachine.Rolls(slot, n), pos.bumps, attempts, Distance(pos.offset, q), Distance(offset, q), q,
                  safe, safe', current, current', removalEpoch, items[slot].epoch);
    } else {
      LapGoesOn(items, slot, lap, safe, safe', entries, current, current');
    }
  }

  lemma TryDone(entries: seq<nat>, items: seq<Slot>, tail: nat, lap: bool, safe: nat, current: nat,
                removalEpoch: nat, attempts: nat, pos: Position)
    requires Trying(entries, items, tail, lap, safe, current, removalEpoch, attempts, pos)
    ensures Quiet(entries) ==> attempts < 2 * Quarter(|items|) && attempts < (if |items| < 4 then 2 else |items| / 2)
  {
    hide PowerOfTwo, SlotOf, AtOffset, Oldest;
    QuarterBound(|items|);
  }

  lemma TryEnds(entries: seq<nat>, items: seq<Slot>, tail: nat, lap: bool, safe: nat, current: nat,
                removalEpoch: nat, attempts: nat, pos: Position)
    requires Trying(entries, items, tail, lap, safe, current, removalEpoch, attempts, pos)
    requires !Quiet(entries) && lap && SlotOf(tail, |items|) == 0
    ensures safe + 1 == Oldest(entries, current) && safe + 1 in entries
    ensures forall k :: 0 <= k < |items| ==> items[k].epoch > safe
  {
    hide PowerOfTwo, AtOffset;
  }

  lemma QuarterBound(n: nat)
    ensures Quarter(n) >= 1 && 2 * Quarter(n) <= (if n < 4 then 2 else n / 2)
  {
  }

  /** Every item ever pushed: still in the ring, or already destroyed. */
  ghost function Account(items: seq<Slot>, destroyed: seq<Item>): multiset<Item> {
    Waiting(items) + multiset(destroyed)
  }

  lemma AccountStep(items: seq<Slot>, slot: nat, next: Slot, destroyed: seq<Item>, destroyed': seq<Item>)
    requires slot < |items| && next.epoch != 0
    requires destroyed' == destroyed + if items[slot].epoch != 0 then [items[slot].item] else []
    ensures Account(items[slot := next], destroyed') == Account(items, destroyed) + multiset{next.item}
  {
    hide Waiting;
    var waiting, waiting', prior := Waiting(items), Waiting(items[slot := next]), items[slot];
    WaitingUpdate(items, slot, next);
    assert multiset(destroyed') == multiset(destroyed) + One(prior);
    assert waiting' + (multiset(destroyed) + One(prior)) == (waiting' + One(prior)) + multiset(destroyed);
  }

  lemma AccountDrop(items: seq<Slot>, slot: nat, destroyed: seq<Item>)
    requires slot < |items| && items[slot].epoch != 0
    ensures Account(items[slot := Slot(0, 0)], destroyed + [items[slot].item]) == Account(items, destroyed)
  {
    hide Waiting;
    var empty := Slot(0, 0);
    WaitingUpdate(items, slot, empty);
    var waiting, waiting', x := Waiting(items), Waiting(items[slot := empty]), items[slot].item;
    assert waiting' + multiset{x} == waiting + multiset{} == waiting;
    assert multiset(destroyed + [x]) == multiset(destroyed) + multiset{x};
    assert waiting' + (multiset(destroyed) + multiset{x}) == (waiting' + multiset{x}) + multiset(destroyed);
  }

  lemma AccountIs(items: seq<Slot>, destroyed: seq<Item>)
    ensures Account(items, destroyed) == Waiting(items) + multiset(destroyed)
  {
  }

  lemma {:induction false} QuietBump(entries: seq<nat>, bound: nat)
    requires Quiet(entries)
    ensures Oldest(entries, bound) == bound
  {
    if entries != [] {
      QuietBump(entries[..|entries| - 1], bound);
    }
  }

  lemma {:induction false} OldestFixed(entries: seq<nat>, a: nat, b: nat)
    requires a <= b && !Quiet(entries) && forall i :: 0 <= i < |entries| ==> entries[i] <= a
    ensures Oldest(entries, a) == Oldest(entries, b)
    ensures Oldest(entries, a) in entries
  {
    var n := |entries| - 1;
    if Quiet(entries[..n]) {
      QuietBump(entries[..n], a);
      QuietBump(entries[..n], b);
      assert forall i :: 0 <= i < n ==> entries[..n][i] == entries[i];
    } else {
      OldestFixed(entries[..n], a, b);
    }
  }

  /** A failed attempt without protected threads: one step closer to the second bump, which no resident survives. */
  lemma QuietGoesOn(entries: seq<nat>, rolls: bool, bumps: nat, attempts: nat, d: nat, d': nat, q: nat,
                    safe: nat, safe': nat, current: nat, current': nat, removalEpoch: nat, epoch: nat)
    requires Quiet(entries) && q >= 1 && safe < current && epoch <= removalEpoch
    requires Progress(bumps, attempts, d, q, safe, current, removalEpoch)
    requires if rolls then current' == current + 1 && safe' == Oldest(entries, current) - 1
             else current' == current && safe' == safe
    requires d == 0 ==> rolls
    requires d' == if d == 0 then q - 1 else d - 1
    requires safe' < epoch
    ensures Progress(if rolls then bumps + 1 else bumps, attempts + 1, d', q, safe', current', removalEpoch)
  {
    QuietBump(entries, current);
  }

  /** With a protected thread: every slot of this lap, from 0 on, was found too young. */
  ghost predicate LapSoFar(items: seq<Slot>, slot: nat, safe: nat, entries: seq<nat>, current: nat) {
    && slot < |items|
    && safe + 1 == Oldest(entries, current)
    && safe + 1 in entries
    && (forall k :: 0 <= k < (if slot == 0 then |items| else slot) ==> items[k].epoch > safe)
  }

  lemma LapGoesOn(items: seq<Slot>, slot: nat, lap: bool, safe: nat, safe': nat, entries: seq<nat>, current: nat, current': nat)
    requires slot < |items| && !Quiet(entries) && current >= 1 && (forall i :: 0 <= i < |entries| ==> entries[i] <= current)
    requires if EpochMachine.Rolls(slot, |items|) then current' == current + 1 && safe' == Oldest(entries, current) - 1
             else current' == current && safe' == safe
    requires lap && slot != 0 ==> LapSoFar(items, slot, safe, entries, current)
    requires items[slot].epoch > safe'
    ensures lap || slot == 0 ==> LapSoFar(items, if slot + 1 == |items| then 0 else slot + 1, safe', entries, current')
  {
    OldestFixed(entries, current, current');
    assert slot == 0 ==> EpochMachine.Rolls(slot, |items|);
  }

  /** Without protected threads: how far Push can be after its attempts so far have failed. */
  ghost predicate Progress(bumps: nat, attempts: nat, distance: nat, q: nat, safe: nat, current: nat, removalEpoch: nat) {
    && bumps <= 1
    && current == removalEpoch + bumps
    && attempts + distance <= (if bumps == 0 then q - 1 else 2 * q - 1)
    && (bumps == 1 ==> safe + 2 == current)
  }

  lemma SizePositive(n: nat)
    requires PowerOfTwo(n)
    ensures n >= 1
  {
  }

  /** From a stuck state every attempt fails and leaves a stuck state, as long as the protected threads stay. */
  lemma StuckForever(entries: seq<nat>, items: seq<Slot>, slot: nat, safe: nat, safe': nat, current: nat, current': nat)
    requires slot < |items| && (forall i :: 0 <= i < |entries| ==> entries[i] <= current)
    requires safe + 1 == Oldest(entries, current) && safe + 1 in entries
    requires forall k :: 0 <= k < |items| ==> items[k].epoch > safe
    requires if EpochMachine.Rolls(slot, |items|) then current' == current + 1 && safe' == Oldest(entries, current) - 1
             else current' == current && safe' == safe
    ensures items[slot].epoch > safe'
    ensures safe' + 1 == Oldest(entries, current') && safe' + 1 in entries
    ensures forall k :: 0 <= k < |items| ==> items[k].epoch > safe'
  {
    hide EpochMachine.Rolls;
    OldestFixed(entries, current, current');
  }

  lemma {:induction false} NothingWaiting(items: seq<Slot>)
    requires forall k :: 0 <= k < |items| ==> items[k].epoch == 0
    ensures Waiting(items) == multiset{}
  {
    if items != [] {
      NothingWaiting(items[..|items| - 1]);
    }
  }

  // ----- a push that never ends -----

  lemma {:induction false} WaitingSize(items: seq<Slot>)
    ensures |Waiting(items)| <= |items|
    ensures |Waiting(items)| == |items| <==> AllTaken(items)
  {
    if items != [] {
      var n := |items| - 1;
      var front, last := items[..n], items[n];
      WaitingSize(front);
      assert Waiting(items) == Waiting(front) + One(last);
      AllTakenStep(items);
    }
  }

  ghost predicate AllTaken(items: seq<Slot>) {
    forall k :: 0 <= k < |items| ==> items[k].epoch != 0
  }

  lemma {:induction false} AllTakenStep(items: seq<Slot>)
    requires items != []
    ensures AllTaken(items) <==> AllTaken(items[..|items| - 1]) && items[|items| - 1].epoch != 0
  {
    var n := |items| - 1;
    assert forall k :: 0 <= k < n ==> items[..n][k] == items[k];
  }

  /** With one thread protected since the first epoch, a push ends exactly when there is a free slot. */
  lemma {:induction false} HopelessWhenTaken(items: seq<Slot>, current: nat)
    requires current >= 1
    ensures Oldest([1], current) == 1 && (Hopeless(items, [1], current) <==> AllTaken(items))
  {
    assert [1][..0] == [];
    assert Oldest([], current) == current;
    assert ([1])[0] != 0;
  }

  method PushUnderProtection(list: GarbageListUnsafe, x: Item) returns (r: PushResult)
    requires list.Valid() && list.manager.entries == [1] && list.destroyed == []
    modifies list, list.manager
    ensures list.Valid() && list.manager.entries == [1] && list.destroyed == [] && |list.items| == old(|list.items|)
    ensures r == Spins <==> old(AllTaken(list.items))
    ensures r == Spins ==> list.Stuck() && list.items == old(list.items)
    ensures r.Pushed? ==> Waiting(list.items) == old(Waiting(list.items)) + multiset{x}
  {
    HopelessWhenTaken(list.items, list.manager.current);
    ghost var items := list.items;
    hide Hopeless, PowerOfTwo, AllTaken, Waiting, Account, SlotOf, Oldest, Quiet;
    r := list.Push(x);
    HopelessWhenTaken(items, list.manager.current);
    NoneDestroyed(items);
    NoneDestroyed(list.items);
  }

  lemma NoneDestroyed(items: seq<Slot>)
    ensures Account(items, []) == Waiting(items)
  {
  }

  /** An empty ring, with a thread protected in the first epoch. */
  method ProtectedRing(size: nat) returns (list: GarbageListUnsafe)
    requires PowerOfTwo(size)
    ensures fresh(list) && fresh(list.manager) && list.Valid() && list.manager.entries == [1] && |list.items| == size
    ensures Waiting(list.items) == multiset{} && list.destroyed == []
  {
    var manager := new EpochManager(1);
    list := new GarbageListUnsafe(manager, size);
    manager.Protect(0);
  }

  lemma {:induction false} HowManyWait(items: seq<Slot>, xs: seq<Item>, i: nat)
    requires i <= |xs| && Waiting(items) == multiset(xs[..i])
    ensures AllTaken(items) <==> i == |items|
    ensures i < |xs| ==> multiset(xs[..i + 1]) == multiset(xs[..i]) + multiset{xs[i]}
  {
    hide Waiting, AllTaken;
    WaitingSize(items);
    if i < |xs| {
      assert xs[..i + 1] == xs[..i] + [xs[i]];
    }
  }

  method FillRing(list: GarbageListUnsafe, xs: seq<Item>)
    requires list.Valid() && list.manager.entries == [1] && |list.items| == |xs|
    requires Waiting(list.items) == multiset{} && list.destroyed == []
    modifies list, list.manager
    ensures list.Valid() && list.manager.entries == [1] && |list.items| == |xs|
    ensures Waiting(list.items) == multiset(xs) && list.destroyed == [] && AllTaken(list.items)
  {
    hide Waiting, AllTaken, PowerOfTwo, Oldest, GarbageListUnsafe.Stuck, GarbageListUnsafe.Valid;
    var i := 0;
    while i < |xs|
      invariant 0 <= i <= |xs| && list.Valid() && list.manager.entries == [1] && |list.items| == |xs|
      invariant list.destroyed == [] && Waiting(list.items) == multiset(xs[..i])
    {
      HowManyWait(list.items, xs, i);
      var pushed := PushUnderProtection(list, xs[i]);
      i := i + 1;
    }
    HowManyWait(list.items, xs, i);
    assert xs[..i] == xs;
  }

  /**
   * In every ring: while one thread stays protected, as many pushes as there are slots go through
   * and free nothing, and the next one never ends.
   */
  method OverfullSpins(size: nat, xs: seq<Item>, x: Item) returns (list: GarbageListUnsafe, r: PushResult)
    requires PowerOfTwo(size) && |xs| == size
    ensures r == Spins && list.Valid() && list.Stuck() && |list.items| == size
    ensures Waiting(list.items) == multiset(xs) && list.destroyed == []
  {
    hide Waiting, AllTaken, PowerOfTwo, Oldest, GarbageListUnsafe.Stuck, GarbageListUnsafe.Valid;
    list := ProtectedRing(size);
    FillRing(list, xs);
    r := PushUnderProtection(list, x);
  }
}

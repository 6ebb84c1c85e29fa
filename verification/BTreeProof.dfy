/** Every step of every thread keeps the invariant of the B-tree machine. */
module BTreeProof {
  import opened Sequences
  import opened BTreeNodes
  import opened BTreeMachine

  lemma InitInv(s: State)
    requires Init(s)
    ensures Inv(s)
  {
    forall n, k {:trigger LeafAgrees(s, s.nodes[n], k)} |
      n in s.nodes && LeafOk(s.nodes[n].body) && Covers(s.nodes[n], k)
      ensures LeafAgrees(s, s.nodes[n], k)
    {
    }
  }

  // ----- what a step leaves alone -----

  ghost predicate NodeAdvances(s: State, t: nat, s': State, n: nat)
    requires t < |s.threads| && n in s.nodes
  {
    && n in s'.nodes
    && s.nodes[n].version <= s'.nodes[n].version
    && s'.nodes[n].body.Leaf? == s.nodes[n].body.Leaf?
    && (!s'.nodes[n].locked && s'.nodes[n].version == s.nodes[n].version ==> s'.nodes[n] == s.nodes[n])
    && (n !in Locks(s.threads[t].pc) && s.nodes[n].locked ==> s'.nodes[n] == s.nodes[n])
  }

  ghost predicate Advances(s: State, t: nat, s': State) {
    && t < |s.threads| == |s'.threads|
    && (forall u :: 0 <= u < |s.threads| && u != t ==> s'.threads[u] == s.threads[u])
    && (forall n :: n in s.nodes ==> NodeAdvances(s, t, s', n))
    && (s'.root != s.root ==> s.root in Locks(s.threads[t].pc))
  }

  lemma SplitAdvances(s: State, t: nat, n: nat, p: Option<Parent>, left: nat, top: nat, pc': Pc)
    requires t < |s.threads| && s.threads[t].pc == Splitting(n, p)
    requires NodeShaped(s, n) && Full(s.nodes[n].body) && s.nodes[n].locked
    requires p.Some? ==> NodeShaped(s, p.value.id) && s.nodes[p.value.id].body.Inner? && s.nodes[p.value.id].locked
    requires left !in s.nodes && top !in s.nodes
    requires p.None? ==> s.root == n
    ensures Advances(s, t, Go(SplitNode(s, n, p, left, top), t, pc'))
  {
    hide LeafOk, InnerOk, Separator;
    var s' := Go(SplitNode(s, n, p, left, top), t, pc');
    assert LeftHalf(s.nodes[n].body).Leaf? == s.nodes[n].body.Leaf?;
    forall m | m in s.nodes
      ensures NodeAdvances(s, t, s', m)
    {
      if m != n && !(p.Some? && p.value.id == m) {
        assert s'.nodes[m] == s.nodes[m];
      } else if p.Some? && p.value.id == m {
        assert s'.nodes[m].body.Inner?;
      }
    }
  }

  lemma GoAdvances(s: State, t: nat, pc': Pc)
    requires t < |s.threads|
    ensures Advances(s, t, Go(s, t, pc'))
  {
  }

  lemma LockAdvances(s: State, t: nat, n: nat, pc': Pc)
    requires t < |s.threads| && n in s.nodes && !s.nodes[n].locked
    ensures Advances(s, t, Go(Lock(s, n), t, pc'))
  {
    hide Locks;
  }

  lemma TryLockAdvances(s: State, t: nat, n: nat, v: nat, success: Pc, failure: Pc)
    requires t < |s.threads|
    ensures Advances(s, t, TryLock(s, t, n, v, success, failure))
  {
    hide Locks, Advances, Go, Lock;
    if At(s, n, v) {
      LockAdvances(s, t, n, success);
    } else {
      GoAdvances(s, t, failure);
    }
  }

  lemma UnlockAdvances(s: State, t: nat, n: nat, pc': Pc)
    requires t < |s.threads| && n in s.nodes && s.nodes[n].locked && n in Locks(s.threads[t].pc)
    ensures Advances(s, t, Go(Unlock(s, n), t, pc'))
  {
  }

  lemma WriteAdvances(s: State, t: nat, n: nat)
    requires t < |s.threads| && s.threads[t].pc == Writing(n) && Enabled(s, t, Nothing) && s.nodes[n].locked
    ensures Advances(s, t, Apply(s, t, Nothing))
  {
    hide LowerBound;
  }

  lemma BeginAdvances(s: State, t: nat, c: Choice)
    requires Enabled(s, t, c) && s.threads[t].pc == Idle
    ensures Advances(s, t, Apply(s, t, c))
  {
  }

  lemma AdvancesStep(s: State, t: nat, c: Choice)
    requires LocksOk(s) && Enabled(s, t, c) && PcOk(s, s.threads[t])
    ensures Advances(s, t, Apply(s, t, c))
  {
    hide Reached, Passing, RightChild, Linked, AnswerOk, SplitNode, LowerBound, LeafOk, InnerOk, Full, Lookup, ChildFor;
    hide Advances, TryLock, Unlock, Go, At, ParentAt, NodeShaped;
    var s' := Apply(s, t, c);
    var Thread(task, pc) := s.threads[t];
    assert forall n :: n in Locks(pc) ==> n in s.nodes && s.nodes[n].locked;
    match pc {
      case Idle => BeginAdvances(s, t, c);
      case Room(n, v, p) =>
        TryLockAdvances(s, t, n, v, LeafLocked(n, p), LoadRoot);
        GoAdvances(s, t, Descend(n, v));
        GoAdvances(s, t, LoadRoot);
      case Crowded(n, v, p) =>
        if p.Some? {
          TryLockAdvances(s, t, p.value.id, p.value.version, ParentLocked(n, v, p.value), LoadRoot);
        } else {
          TryLockAdvances(s, t, n, v, RootLocked(n), LoadRoot);
        }
      case ParentLocked(n, v, p) => TryLockAdvances(s, t, n, v, Splitting(n, Some(p)), Release(p.id));
      case SplitDone(n, p) => UnlockAdvances(s, t, n, if p.Some? then Release(p.value.id) else LoadRoot);
      case Release(n) => UnlockAdvances(s, t, n, LoadRoot);
      case Finish(n) => UnlockAdvances(s, t, n, Idle);
      case Writing(n) => WriteAdvances(s, t, n);
      case Splitting(n, p) =>
        SplitAdvances(s, t, n, p, c.left, c.top, SplitDone(n, p));
      case _ =>
        assert exists pc' :: s' == Go(s, t, pc');
        var pc' :| s' == Go(s, t, pc');
        GoAdvances(s, t, pc');
    }
  }

  lemma AtBefore(s: State, t: nat, s': State, n: nat, v: nat)
    requires Advances(s, t, s') && n in s.nodes && v <= s.nodes[n].version && At(s', n, v)
    ensures At(s, n, v) && s'.nodes[n] == s.nodes[n]
  {
    assert NodeAdvances(s, t, s', n);
  }

  ghost predicate Shaped(s: State) {
    forall n {:trigger s.nodes[n]} :: n in s.nodes ==> LeafOk(s.nodes[n].body) || InnerOk(s.nodes[n].body)
  }

  lemma TreeShaped(s: State)
    requires TreeOk(s)
    ensures Shaped(s)
  {
    forall n {:trigger s.nodes[n]} | n in s.nodes
      ensures LeafOk(s.nodes[n].body) || InnerOk(s.nodes[n].body)
    {
      assert NodeOk(s, s.nodes[n]);
    }
  }

  // ----- what a thread relies on survives the steps of the others -----

  lemma SureKept(s: State, t: nat, s': State, n: nat, v: nat, k: int)
    requires Advances(s, t, s') && Sure(s, n, v, k)
    ensures Sure(s', n, v, k)
    ensures n in s.nodes && v <= s.nodes[n].version && (At(s', n, v) ==> At(s, n, v) && s'.nodes[n] == s.nodes[n])
  {
    assert NodeAdvances(s, t, s', n);
    if At(s', n, v) {
      AtBefore(s, t, s', n, v);
    }
  }

  lemma LinkedKept(s: State, t: nat, s': State, p: Parent, n: nat, task: Task)
    requires Advances(s, t, s') && Linked(s, p, n, task)
    ensures Linked(s', p, n, task)
  {
    assert NodeAdvances(s, t, s', p.id) && NodeAdvances(s, t, s', n);
    if At(s', p.id, p.version) {
      AtBefore(s, t, s', p.id, p.version);
    }
  }

  lemma ReachedKept(s: State, t: nat, s': State, n: nat, v: nat, p: Option<Parent>, task: Task)
    requires Advances(s, t, s') && Reached(s, n, v, p, task)
    ensures Reached(s', n, v, p, task)
    ensures n in s.nodes && v <= s.nodes[n].version && (At(s', n, v) ==> At(s, n, v) && s'.nodes[n] == s.nodes[n])
  {
    if At(s', n, v) { AtBefore(s, t, s', n, v); }
    assert NodeAdvances(s, t, s', n);
    if p.None? {
      SureKept(s, t, s', n, v, task.key);
    } else {
      LinkedKept(s, t, s', p.value, n, task);
    }
  }

  lemma PassingKept(s: State, t: nat, s': State, n: nat, v: nat, task: Task)
    requires Advances(s, t, s') && Shaped(s') && Passing(s, n, v, task)
    ensures Passing(s', n, v, task)
    ensures n in s.nodes && v <= s.nodes[n].version && (At(s', n, v) ==> At(s, n, v) && s'.nodes[n] == s.nodes[n])
  {
    assert NodeAdvances(s, t, s', n);
    SureKept(s, t, s', n, v, task.key);
    if At(s', n, v) {
      AtBefore(s, t, s', n, v);
    }
  }

  lemma AnswerKept(s: State, t: nat, s': State, n: nat, v: nat, k: int, answer: (bool, int))
    requires Advances(s, t, s') && Shaped(s') && AnswerOk(s, n, v, k, answer) && v <= s.nodes[n].version
    ensures AnswerOk(s', n, v, k, answer)
  {
    assert NodeAdvances(s, t, s', n);
    if At(s', n, v) {
      AtBefore(s, t, s', n, v);
    }
  }

  lemma LockedKept(s: State, t: nat, s': State, u: nat, n: nat)
    requires Advances(s, t, s') && LocksOk(s) && u < |s.threads| && u != t && n in Locks(s.threads[u].pc)
    ensures n in s.nodes && n in s'.nodes && s'.nodes[n] == s.nodes[n]
    ensures s.root == n ==> s'.root == n
  {
    hide Locks;
    assert NodeAdvances(s, t, s', n);
    assert n !in Locks(s.threads[t].pc);
  }

  lemma StaysThere(s: State, t: nat, s': State, n: nat)
    requires Advances(s, t, s') && n in s.nodes
    ensures n in s'.nodes && s.nodes[n].version <= s'.nodes[n].version
  {
    assert NodeAdvances(s, t, s', n);
  }

  /** Another thread's knowledge, step by step of its own program. */
  lemma PcKept(s: State, t: nat, s': State, u: nat)
    requires Advances(s, t, s') && Shaped(s') && LocksOk(s) && u < |s.threads| && u != t
    requires PcOk(s, s.threads[u])
    ensures PcOk(s', s.threads[u])
  {
    hide Advances, LocksOk, Reached, Passing, Linked, Sure, AnswerOk, LeafOk, InnerOk, Full, LowerBound, Lookup;
    var Thread(task, pc) := s.threads[u];
    match pc {
      case Idle =>
      case LoadRoot =>
      case RootVersion(n) => StaysThere(s, t, s', n);
      case RootCheck(n, v) => StaysThere(s, t, s', n);
      case Visit(n, v, p) => ReachedKept(s, t, s', n, v, p, task);
      case Room(n, v, p) =>
        ReachedKept(s, t, s', n, v, p, task);
      case Crowded(n, v, p) =>
        ReachedKept(s, t, s', n, v, p, task);
      case ParentLocked(n, v, p) =>
        LockedKept(s, t, s', u, p.id);
        StaysThere(s, t, s', n);
        if At(s', n, v) { AtBefore(s, t, s', n, v); }
      case RootLocked(n) => LockedKept(s, t, s', u, n);
      case Splitting(n, p) =>
        LockedKept(s, t, s', u, n);
        if p.Some? { LockedKept(s, t, s', u, p.value.id); }
      case SplitDone(n, p) => LockedKept(s, t, s', u, n);
      case Release(n) => LockedKept(s, t, s', u, n);
      case Descend(n, v) => PassingKept(s, t, s', n, v, task);
      case GotChild(n, v, c) =>
        PassingKept(s, t, s', n, v, task);
      case ChildVersion(n, v, c) =>
        PassingKept(s, t, s', n, v, task);
        StaysThere(s, t, s', c);
      case LeafLocked(n, p) =>
        LockedKept(s, t, s', u, n);
        if p.Some? { LinkedKept(s, t, s', p.value, n, task); }
      case Writing(n) => LockedKept(s, t, s', u, n);
      case Finish(n) => LockedKept(s, t, s', u, n);
      case LeafRead(n, v, p, answer) =>
        ReachedKept(s, t, s', n, v, p, task);
        AnswerKept(s, t, s', n, v, task.key, answer);
      case LeafSure(n, v, answer) =>
        SureKept(s, t, s', n, v, task.key);
        AnswerKept(s, t, s', n, v, task.key, answer);
    }
  }

  // ----- the moving thread -----

  /** A parent still at its version makes its child cover the key. */
  lemma ChildCovers(s: State, p: nat, n: nat, task: Task)
    requires TreeOk(s) && RightChild(s, p, n, task)
    ensures n in s.nodes && Covers(s.nodes[n], task.key)
    ensures s.nodes[n].level + 1 == s.nodes[p].level
  {
    var node := s.nodes[p];
    var i := LowerBound(node.body.keys, task.key);
    assert NodeOk(s, node) && ChildOk(s, node, i);
  }

  lemma ValidatedParent(s: State, n: nat, v: nat, p: Option<Parent>, task: Task)
    requires TreeOk(s) && Reached(s, n, v, p, task) && ParentAt(s, p)
    ensures Sure(s, n, v, task.key)
  {
    if p.Some? {
      ChildCovers(s, p.value.id, n, task);
    }
  }

  lemma VisitMoves(s: State, t: nat, c: Choice, s': State, n: nat, v: nat, p: Option<Parent>)
    requires TreeOk(s) && Enabled(s, t, c) && PcOk(s, s.threads[t]) && s.threads[t].pc == Visit(n, v, p)
    requires s' == Apply(s, t, c) && Advances(s, t, s')
    ensures PcOk(s', s'.threads[t])
  {
    hide NodeOk, Advances, Reached, Sure, Linked, LowerBound, Full, Lookup, Increasing;
    var task := s.threads[t].task;
    TreeShaped(s);
    ReachedKept(s, t, s', n, v, p, task);
    if task.Find? && !IsLeaf(s, n) && ParentAt(s, p) {
      ValidatedParent(s, n, v, p, task);
      SureKept(s, t, s', n, v, task.key);
    }
  }

  lemma RoomMoves(s: State, t: nat, c: Choice, s': State, n: nat, v: nat, p: Option<Parent>)
    requires TreeOk(s) && Enabled(s, t, c) && PcOk(s, s.threads[t]) && s.threads[t].pc == Room(n, v, p)
    requires s' == Apply(s, t, c) && Advances(s, t, s')
    ensures PcOk(s', s'.threads[t])
  {
    hide NodeOk, Advances, Linked, LowerBound, Full, Lookup, Increasing;
    var task := s.threads[t].task;
    TreeShaped(s);
    ReachedKept(s, t, s', n, v, p, task);
    if !IsLeaf(s, n) && ParentAt(s, p) {
      ValidatedParent(s, n, v, p, task);
      SureKept(s, t, s', n, v, task.key);
    }
  }

  lemma CrowdedMoves(s: State, t: nat, c: Choice, s': State, n: nat, v: nat, p: Option<Parent>)
    requires TreeOk(s) && Enabled(s, t, c) && PcOk(s, s.threads[t]) && s.threads[t].pc == Crowded(n, v, p)
    requires s' == Apply(s, t, c) && Advances(s, t, s')
    ensures PcOk(s', s'.threads[t])
  {
    hide NodeOk, Advances, LowerBound, Full, Lookup, Increasing;
    var task := s.threads[t].task;
    TreeShaped(s);
    ReachedKept(s, t, s', n, v, p, task);
  }

  lemma ParentLockedMoves(s: State, t: nat, c: Choice, s': State, n: nat, v: nat, p: Parent)
    requires TreeOk(s) && Enabled(s, t, c) && PcOk(s, s.threads[t]) && s.threads[t].pc == ParentLocked(n, v, p)
    requires s' == Apply(s, t, c) && Advances(s, t, s')
    ensures PcOk(s', s'.threads[t])
  {
    hide NodeOk, Advances, Reached, Sure, Linked, LowerBound, Full, Lookup, Increasing;
    var task := s.threads[t].task;
    TreeShaped(s);
    ChildCovers(s, p.id, n, task);
  }

  lemma ChildMoves(s: State, t: nat, c: Choice, s': State, pc: Pc)
    requires TreeOk(s) && Enabled(s, t, c) && PcOk(s, s.threads[t])
    requires s.threads[t].pc == pc && (pc.Descend? || pc.GotChild? || pc.ChildVersion?)
    requires s' == Apply(s, t, c) && Advances(s, t, s')
    ensures PcOk(s', s'.threads[t])
  {
    hide NodeOk, Advances, LowerBound, Full, Lookup, Increasing;
    var task := s.threads[t].task;
    TreeShaped(s);
    SureKept(s, t, s', pc.n, pc.v, task.key);
    if pc.GotChild? && At(s, pc.n, pc.v) {
      ChildCovers(s, pc.n, pc.c, task);
    }
  }

  lemma LeafMoves(s: State, t: nat, c: Choice, s': State, pc: Pc)
    requires TreeOk(s) && Enabled(s, t, c) && PcOk(s, s.threads[t])
    requires s.threads[t].pc == pc && (pc.LeafLocked? || pc.Writing? || pc.LeafRead? || pc.LeafSure?)
    requires s' == Apply(s, t, c) && Advances(s, t, s')
    ensures PcOk(s', s'.threads[t])
  {
    hide NodeOk, Advances, LowerBound, Full, Lookup, Increasing, TreeOk;
    var task := s.threads[t].task;
    TreeShaped(s);
    match pc {
      case LeafLocked(n, p) =>
        if p.Some? && ParentAt(s, p) { ChildCovers(s, p.value.id, n, task); }
      case LeafRead(n, v, p, answer) =>
        if ParentAt(s, p) { ValidatedParent(s, n, v, p, task); SureKept(s, t, s', n, v, task.key); }
      case _ =>
    }
  }

  lemma RootMoves(s: State, t: nat, c: Choice, s': State)
    requires TreeOk(s) && Enabled(s, t, c) && PcOk(s, s.threads[t])
    requires s.threads[t].pc.RootVersion? || s.threads[t].pc.RootCheck? || s.threads[t].pc.RootLocked? || s.threads[t].pc.LoadRoot?
    requires BELOW_ALL < s.threads[t].task.key <= GREATEST
    requires s' == Apply(s, t, c) && Advances(s, t, s')
    ensures PcOk(s', s'.threads[t])
  {
    hide NodeOk, Advances, LowerBound, Full, Lookup, Increasing;
  }

  lemma SplitMoves(s: State, t: nat, c: Choice, s': State)
    requires Enabled(s, t, c) && PcOk(s, s.threads[t])
    requires var pc := s.threads[t].pc; pc.Splitting? || pc.SplitDone? || pc.Release? || pc.Finish? || pc.Idle?
    requires LocksOk(s)
    requires s' == Apply(s, t, c) && Advances(s, t, s')
    ensures PcOk(s', s'.threads[t])
  {
    hide Advances, LowerBound, Full, Lookup, Increasing, LeftHalf, RightHalf, Separator, Grow;
  }

  /** The moving thread knows, at its new point, what it is taken to know there. */
  lemma PcMoved(s: State, t: nat, c: Choice, s': State)
    requires Inv(s) && t < |s.threads| && Enabled(s, t, c)
    requires s' == Apply(s, t, c) && Advances(s, t, s')
    ensures PcOk(s', s'.threads[t])
  {
    hide TreeOk, StoreOk, LocksOk, PcOk, Advances, Apply, Enabled;
    var Thread(task, pc) := s.threads[t];
    assert PcOk(s, s.threads[t]);
    match pc {
      case Visit(n, v, p) => VisitMoves(s, t, c, s', n, v, p);
      case Room(n, v, p) => RoomMoves(s, t, c, s', n, v, p);
      case Crowded(n, v, p) => CrowdedMoves(s, t, c, s', n, v, p);
      case ParentLocked(n, v, p) => ParentLockedMoves(s, t, c, s', n, v, p);
      case Descend(_, _) => ChildMoves(s, t, c, s', pc);
      case GotChild(_, _, _) => ChildMoves(s, t, c, s', pc);
      case ChildVersion(_, _, _) => ChildMoves(s, t, c, s', pc);
      case LeafLocked(_, _) => LeafMoves(s, t, c, s', pc);
      case Writing(_) => LeafMoves(s, t, c, s', pc);
      case LeafRead(_, _, _, _) => LeafMoves(s, t, c, s', pc);
      case LeafSure(_, _, _) => LeafMoves(s, t, c, s', pc);
      case LoadRoot => RootMoves(s, t, c, s');
      case RootVersion(_) => RootMoves(s, t, c, s');
      case RootCheck(_, _) => RootMoves(s, t, c, s');
      case RootLocked(_) => RootMoves(s, t, c, s');
      case _ => SplitMoves(s, t, c, s');
    }
  }

  // ----- locks -----

  lemma SplitLocks(s: State, n: nat, p: Option<Parent>, left: nat, top: nat)
    requires NodeShaped(s, n) && Full(s.nodes[n].body) && left !in s.nodes && top !in s.nodes
    requires p.Some? ==> NodeShaped(s, p.value.id) && s.nodes[p.value.id].body.Inner?
    ensures SplitNode(s, n, p, left, top).threads == s.threads
    ensures forall m :: m in s.nodes ==>
      m in SplitNode(s, n, p, left, top).nodes && SplitNode(s, n, p, left, top).nodes[m].locked == s.nodes[m].locked
  {
  }

  /** What a thread holds after its step it held before, or found unlocked. */
  lemma OwnLocks(s: State, t: nat, c: Choice, s': State, n: nat)
    requires Enabled(s, t, c)
    requires var pc := s.threads[t].pc; pc.SplitDone? && pc.p.Some? ==> pc.n != pc.p.value.id
    requires forall m :: m in Locks(s.threads[t].pc) ==> m in s.nodes && s.nodes[m].locked
    requires s' == Apply(s, t, c) && n in Locks(s'.threads[t].pc)
    ensures n in s.nodes && n in s'.nodes && s'.nodes[n].locked
    ensures n in Locks(s.threads[t].pc) || !s.nodes[n].locked
  {
    hide LowerBound, LeafOk, InnerOk, Full, Lookup, ChildFor, SplitNode, Upsert, ParentAt, NodeShaped, IsLeaf;
    var pc := s.threads[t].pc;
    if pc.Room? || pc.Crowded? || pc.ParentLocked? {
      TryLocks(s, t, c, n);
    } else if pc.Splitting? {
      SplitLocks(s, pc.n, pc.p, c.left, c.top);
    }
  }

  lemma TryLocks(s: State, t: nat, c: Choice, n: nat)
    requires Enabled(s, t, c) && (var pc := s.threads[t].pc; pc.Room? || pc.Crowded? || pc.ParentLocked?)
    requires forall m :: m in Locks(s.threads[t].pc) ==> m in s.nodes && s.nodes[m].locked
    requires n in Locks(Apply(s, t, c).threads[t].pc)
    ensures var s' := Apply(s, t, c); n in s.nodes && n in s'.nodes && s'.nodes[n].locked
    ensures n in Locks(s.threads[t].pc) || !s.nodes[n].locked
  {
    hide LowerBound, LeafOk, InnerOk, Full, Lookup, ChildFor, SplitNode, Upsert, ParentAt, NodeShaped, IsLeaf;
  }

  lemma LocksStep(s: State, t: nat, c: Choice, s': State)
    requires t < |s.threads| && Enabled(s, t, c) && PcOk(s, s.threads[t]) && LocksOk(s)
    requires s' == Apply(s, t, c) && Advances(s, t, s')
    ensures LocksOk(s')
  {
    hide Apply, Enabled, Locks, Reached, Passing, RightChild, Linked, AnswerOk, LeafOk, Full;
    assert forall m :: m in Locks(s.threads[t].pc) ==> m in s.nodes && s.nodes[m].locked;
    forall u, n | 0 <= u < |s'.threads| && n in Locks(s'.threads[u].pc)
      ensures n in s'.nodes && s'.nodes[n].locked
    {
      if u == t {
        OwnLocks(s, t, c, s', n);
      } else {
        LockedKept(s, t, s', u, n);
      }
    }
    forall u, w | 0 <= u < w < |s'.threads|
      ensures Locks(s'.threads[u].pc) !! Locks(s'.threads[w].pc)
    {
      forall n | n in Locks(s'.threads[u].pc) && n in Locks(s'.threads[w].pc)
        ensures false
      {
        if u == t || w == t {
          OwnLocks(s, t, c, s', n);
        }
      }
    }
  }
}

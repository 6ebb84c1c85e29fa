/**
 * One call at a time: an insert that runs while no other thread moves splits at most one node of
 * each level, restarts only after a split, and finishes; a lookup goes straight down and finishes.
 */
module BTreeAlone {
  import opened Sequences
  import opened BTreeNodes
  import opened BTreeMachine
  import opened BTreeShape
  import opened BTreeProof
  import opened BTreeSafety

  // ----- locks have holders -----

  ghost predicate HasHolder(s: State, n: nat) {
    exists t :: 0 <= t < |s.threads| && n in Locks(s.threads[t].pc)
  }

  ghost predicate NoLockLost(s: State) {
    forall n :: n in s.nodes && s.nodes[n].locked ==> HasHolder(s, n)
  }

  /** Only thread t holds locks. */
  ghost predicate OnlyHolder(s: State, t: nat) {
    t < |s.threads| && forall n :: n in s.nodes && s.nodes[n].locked ==> n in Locks(s.threads[t].pc)
  }

  lemma SplitLocked(s: State, n: nat, p: Option<Parent>, left: nat, top: nat)
    requires NodeShaped(s, n) && Full(s.nodes[n].body) && left !in s.nodes && top !in s.nodes
    requires p.Some? ==> NodeShaped(s, p.value.id) && s.nodes[p.value.id].body.Inner?
    ensures forall m :: m in SplitNode(s, n, p, left, top).nodes && SplitNode(s, n, p, left, top).nodes[m].locked ==>
      m in s.nodes && s.nodes[m].locked
  {
  }

  /** After a step of t a locked node is one t holds, or was locked and not held by t. */
  lemma LockedAfter(s: State, t: nat, c: Choice, s': State, n: nat)
    requires t < |s.threads| && Enabled(s, t, c) && s' == Apply(s, t, c) && t < |s'.threads|
    requires n in s'.nodes && s'.nodes[n].locked
    ensures n in Locks(s'.threads[t].pc) || (n in s.nodes && s.nodes[n].locked && n !in Locks(s.threads[t].pc))
  {
    hide LowerBound, LeafOk, InnerOk, Full, Lookup, ChildFor, SplitNode, Upsert;
    match s.threads[t].pc {
      case Splitting(m, p) =>
        SplitLocked(s, m, p, c.left, c.top);
        SplitLocks(s, m, p, c.left, c.top);
      case SplitDone(m, p) =>
      case Writing(m) =>
      case Room(m, v, p) =>
      case Crowded(m, v, p) =>
      case ParentLocked(m, v, p) =>
      case _ =>
    }
  }

  lemma HolderStep(s: State, step: Step, s': State)
    requires Inv(s) && IsStep(s, step, s') && Advances(s, step.t, s') && NoLockLost(s)
    ensures NoLockLost(s')
  {
    hide Apply, Enabled, Inv, Locks;
    var t := step.t;
    forall n | n in s'.nodes && s'.nodes[n].locked
      ensures HasHolder(s', n)
    {
      LockedAfter(s, t, step.c, s', n);
      if n !in Locks(s'.threads[t].pc) {
        assert HasHolder(s, n);
        var u :| 0 <= u < |s.threads| && n in Locks(s.threads[u].pc);
        assert s'.threads[u] == s.threads[u];
      }
    }
  }

  /** A locked node is held by some thread: no path through the code leaves a lock behind. */
  lemma {:induction false} LocksAreReleased(states: seq<State>, steps: seq<Step>, i: nat)
    requires Run(states, steps) && i < |states|
    ensures NoLockLost(states[i])
  {
    if i > 0 {
      hide Apply, Enabled, Inv, Init, NoLockLost, Advances;
      LocksAreReleased(states, steps, i - 1);
      InvOnRun(states, steps, i - 1);
      StepKeeps(states[i - 1], steps[i - 1], states[i]);
      HolderStep(states[i - 1], steps[i - 1], states[i]);
    }
  }

  // ----- the thread that runs alone -----

  /** What the thread has read is still so, and it holds every lock there is. */
  ghost predicate Fit(s: State, t: nat) {
    && OnlyHolder(s, t)
    && match s.threads[t].pc
       case RootVersion(n) => n == s.root
       case RootCheck(n, v) => n == s.root && At(s, n, v)
       case Visit(n, v, p) => At(s, n, v) && ParentAt(s, p) && (p.None? ==> n == s.root)
       case Room(n, v, p) => At(s, n, v) && ParentAt(s, p)
       case Crowded(n, v, p) => At(s, n, v) && ParentAt(s, p) && (p.Some? ==> p.value.id != n) && (p.None? ==> n == s.root)
       case ParentLocked(n, v, p) => At(s, n, v)
       case RootLocked(n) => n == s.root
       case Descend(n, v) => At(s, n, v)
       case GotChild(n, v, c) => At(s, n, v)
       case ChildVersion(n, v, c) => At(s, n, v)
       case LeafLocked(n, p) => ParentAt(s, p)
       case LeafRead(n, v, p, _) => At(s, n, v) && ParentAt(s, p)
       case LeafSure(n, v, _) => At(s, n, v)
       case _ => true
  }

  /** The number of steps to the end of this descent, at most; h is the level of the root when the call began. */
  ghost function Rank(s: State, t: nat, h: nat): int
    requires t < |s.threads|
  {
    var top := 10 * (h + 1);
    match s.threads[t].pc
    case SplitDone(_, _) => top + 25
    case Release(_) => top + 24
    case LoadRoot => top + 23
    case RootVersion(_) => top + 22
    case RootCheck(_, _) => top + 21
    case Visit(n, _, _) => Depth(s, n) + 9
    case Room(n, _, _) => Depth(s, n) + 8
    case Crowded(n, _, _) => Depth(s, n) + 8
    case Descend(n, _) => Depth(s, n) + 7
    case GotChild(n, _, _) => Depth(s, n) + 6
    case ChildVersion(n, _, _) => Depth(s, n) + 5
    case ParentLocked(n, _, _) => Depth(s, n) + 7
    case RootLocked(n) => Depth(s, n) + 7
    case Splitting(n, _) => Depth(s, n) + 6
    case LeafLocked(n, _) => 7
    case Writing(_) => 6
    case Finish(_) => 5
    case LeafRead(_, _, _, _) => 4
    case LeafSure(_, _, _) => 3
    case _ => 0
  }

  ghost function Depth(s: State, n: nat): nat {
    if n in s.nodes then 10 * s.nodes[n].level else 0
  }

  lemma OnlyHolderStep(s: State, t: nat, c: Choice, s': State)
    requires t < |s.threads| && Enabled(s, t, c) && s' == Apply(s, t, c) && t < |s'.threads| && OnlyHolder(s, t)
    ensures OnlyHolder(s', t)
  {
    hide Apply, Enabled, Locks;
    forall n | n in s'.nodes && s'.nodes[n].locked
      ensures n in Locks(s'.threads[t].pc)
    {
      LockedAfter(s, t, c, s', n);
    }
  }

  lemma ParentDiffers(s: State, n: nat, v: nat, p: Option<Parent>, task: Task)
    requires TreeOk(s) && Reached(s, n, v, p, task) && ParentAt(s, p)
    ensures p.Some? ==> p.value.id != n
  {
    if p.Some? {
      ChildCovers(s, p.value.id, n, task);
    }
  }

  /** A split has been made and the restart that follows it is still to come. */
  function Owed(pc: Pc): nat {
    if pc.SplitDone? || pc.Release? then 1 else 0
  }

  function Restarting(pc: Pc): nat {
    if pc.LoadRoot? then 1 else 0
  }

  /** A step of the thread alone, other than a split. */
  ghost predicate Moves(s: State, t: nat, c: Choice, s': State, h: nat) {
    && t < |s.threads|
    && Enabled(s, t, c)
    && s' == Apply(s, t, c)
    && OnlyHolder(s', t)
    && TreeOk(s)
    && PcOk(s, s.threads[t])
    && Fit(s, t)
    && s.nodes[s.root].level <= h + 1
    && s.threads[t].pc != Idle
    && !s.threads[t].pc.Splitting?
  }

  lemma FitRoot(s: State, t: nat, c: Choice, s': State, h: nat)
    requires Moves(s, t, c, s', h)
    requires var pc := s.threads[t].pc; pc.LoadRoot? || pc.RootVersion? || pc.RootCheck?
    ensures Fit(s', t) && Rank(s', t, h) < Rank(s, t, h)
    ensures Restarting(s'.threads[t].pc) + Owed(s'.threads[t].pc) == Owed(s.threads[t].pc)
  {
    hide NodeOk, LowerBound, Full, Lookup, Increasing, Sure, StoreOk, LeafOk, InnerOk, Upsert, SplitNode;
  }

  lemma FitVisit(s: State, t: nat, c: Choice, s': State, h: nat)
    requires Moves(s, t, c, s', h)
    requires var pc := s.threads[t].pc; pc.Visit?
    ensures Fit(s', t) && Rank(s', t, h) < Rank(s, t, h)
    ensures Restarting(s'.threads[t].pc) + Owed(s'.threads[t].pc) == Owed(s.threads[t].pc)
  {
    hide NodeOk, LowerBound, Full, Lookup, Increasing, Sure, StoreOk, LeafOk, InnerOk, Upsert, SplitNode, Reached;
    var pc := s.threads[t].pc;
    ParentDiffers(s, pc.n, pc.v, pc.p, s.threads[t].task);
  }

  lemma FitRoom(s: State, t: nat, c: Choice, s': State, h: nat)
    requires Moves(s, t, c, s', h)
    requires var pc := s.threads[t].pc; pc.Room?
    ensures Fit(s', t) && Rank(s', t, h) < Rank(s, t, h)
    ensures Restarting(s'.threads[t].pc) + Owed(s'.threads[t].pc) == Owed(s.threads[t].pc)
  {
    hide NodeOk, LowerBound, Full, Lookup, Increasing, Sure, StoreOk, LeafOk, InnerOk, Upsert, SplitNode, RightChild;
  }

  lemma FitCrowded(s: State, t: nat, c: Choice, s': State, h: nat)
    requires Moves(s, t, c, s', h)
    requires var pc := s.threads[t].pc; pc.Crowded? || pc.ParentLocked?
    ensures Fit(s', t) && Rank(s', t, h) < Rank(s, t, h)
    ensures Restarting(s'.threads[t].pc) + Owed(s'.threads[t].pc) == Owed(s.threads[t].pc)
  {
    hide NodeOk, LowerBound, Full, Lookup, Increasing, Sure, StoreOk, LeafOk, InnerOk, Upsert, SplitNode, Reached, RightChild;
  }

  lemma FitChild(s: State, t: nat, c: Choice, s': State, h: nat)
    requires Moves(s, t, c, s', h)
    requires var pc := s.threads[t].pc; pc.Descend? || pc.GotChild? || pc.ChildVersion?
    ensures Fit(s', t) && Rank(s', t, h) < Rank(s, t, h)
    ensures Restarting(s'.threads[t].pc) + Owed(s'.threads[t].pc) == Owed(s.threads[t].pc)
  {
    hide NodeOk, LowerBound, Full, Lookup, Increasing, StoreOk, Upsert, SplitNode;
    var pc := s.threads[t].pc;
    if pc.ChildVersion? {
      assert RightChild(s, pc.n, pc.c, s.threads[t].task) by { assert Sure(s, pc.n, pc.v, s.threads[t].task.key); }
      ChildCovers(s, pc.n, pc.c, s.threads[t].task);
    }
  }

  lemma FitLeafRead(s: State, t: nat, c: Choice, s': State, h: nat)
    requires Moves(s, t, c, s', h)
    requires var pc := s.threads[t].pc; pc.LeafRead? || pc.LeafSure?
    ensures Fit(s', t) && Rank(s', t, h) < Rank(s, t, h)
    ensures Restarting(s'.threads[t].pc) + Owed(s'.threads[t].pc) == Owed(s.threads[t].pc)
  {
    hide NodeOk, LowerBound, Full, Lookup, Increasing, Sure, StoreOk, LeafOk, InnerOk, SplitNode, Linked, AnswerOk, Reached;
  }

  lemma FitEnds(s: State, t: nat, c: Choice, s': State, h: nat)
    requires Moves(s, t, c, s', h)
    requires var pc := s.threads[t].pc; pc.RootLocked? || pc.SplitDone? || pc.Release? || pc.LeafLocked? || pc.Writing? || pc.Finish?
    ensures Fit(s', t) && Rank(s', t, h) < Rank(s, t, h)
    ensures Restarting(s'.threads[t].pc) + Owed(s'.threads[t].pc) == Owed(s.threads[t].pc)
  {
    hide NodeOk, LowerBound, Full, Lookup, Increasing, Sure, StoreOk, LeafOk, InnerOk, SplitNode, Linked;
  }

  /** Alone, a thread finds every version as it read it, so each step leads on. */
  lemma FitStep(s: State, t: nat, c: Choice, s': State, h: nat)
    requires Moves(s, t, c, s', h)
    ensures Fit(s', t) && Rank(s', t, h) < Rank(s, t, h)
    ensures Restarting(s'.threads[t].pc) + Owed(s'.threads[t].pc) == Owed(s.threads[t].pc)
  {
    hide TreeOk, PcOk, Apply, Enabled, Rank, OnlyHolder;
    match s.threads[t].pc {
      case LoadRoot => FitRoot(s, t, c, s', h);
      case RootVersion(_) => FitRoot(s, t, c, s', h);
      case RootCheck(_, _) => FitRoot(s, t, c, s', h);
      case Visit(_, _, _) => FitVisit(s, t, c, s', h);
      case Room(_, _, _) => FitRoom(s, t, c, s', h);
      case Crowded(_, _, _) => FitCrowded(s, t, c, s', h);
      case ParentLocked(_, _, _) => FitCrowded(s, t, c, s', h);
      case Descend(_, _) => FitChild(s, t, c, s', h);
      case GotChild(_, _, _) => FitChild(s, t, c, s', h);
      case ChildVersion(_, _, _) => FitChild(s, t, c, s', h);
      case LeafRead(_, _, _, _) => FitLeafRead(s, t, c, s', h);
      case LeafSure(_, _, _) => FitLeafRead(s, t, c, s', h);
      case _ => FitEnds(s, t, c, s', h);
    }
  }

  // ----- levels that were split -----

  /** A level that was split is far from full, and a new root has one separator. */
  predicate SlimNode(n: Node, done: set<nat>, h: nat) {
    && (n.level in done ==> |n.body.keys| <= 128 + if n.level > 0 && n.level - 1 in done then 1 else 0)
    && (n.level == h + 1 ==> |n.body.keys| == 1)
  }

  ghost predicate Slim(s: State, k: int, done: set<nat>, h: nat) {
    forall n :: n in s.nodes && Covers(s.nodes[n], k) ==> SlimNode(s.nodes[n], done, h)
  }

  ghost predicate Height(s: State, done: set<nat>, h: nat) {
    && s.root in s.nodes
    && h <= s.nodes[s.root].level <= h + 1
    && (forall l :: l in done ==> l <= h)
    && (s.nodes[s.root].level == h + 1 ==> h in done)
  }

  lemma HalvesSlim(b: Body)
    requires (LeafOk(b) || InnerOk(b)) && Full(b)
    ensures |b.keys| > 200 && |LeftHalf(b).keys| <= 128 && |RightHalf(b).keys| <= 128
  {
  }

  lemma GrowSize(b: Body, sep: int, left: nat)
    requires InnerOk(b)
    ensures |Grow(b, sep, left).keys| == |b.keys| + 1
  {
  }

  /** The node being split is on a level not split before. */
  lemma SplitsNewLevel(s: State, n: nat, k: int, done: set<nat>, h: nat)
    requires TreeOk(s) && Slim(s, k, done, h) && Height(s, done, h)
    requires n in s.nodes && NodeShaped(s, n) && Full(s.nodes[n].body) && Covers(s.nodes[n], k)
    ensures s.nodes[n].level !in done && s.nodes[n].level <= h
  {
    hide NodeOk, LeafOk, InnerOk;
    HalvesSlim(s.nodes[n].body);
    assert SlimNode(s.nodes[n], done, h);
  }

  lemma SlimAfterSplit(s: State, n: nat, p: Option<Parent>, left: nat, top: nat, s': State, task: Task, done: set<nat>, h: nat)
    requires TreeOk(s) && Slim(s, task.key, done, h) && Height(s, done, h)
    requires NodeShaped(s, n) && Full(s.nodes[n].body) && Covers(s.nodes[n], task.key)
    requires left !in s.nodes && top !in s.nodes && left != top
    requires if p.None? then s.root == n else RightChild(s, p.value.id, n, task) && p.value.id != n
    requires s' == SplitNode(s, n, p, left, top)
    ensures Slim(s', task.key, done + {s.nodes[n].level}, h) && Height(s', done + {s.nodes[n].level}, h)
  {
    hide NodeOk, LeftHalf, RightHalf, Separator, Grow, Full, LowerBound, LeafOk, Increasing;
    var node := s.nodes[n];
    var l := node.level;
    var k := task.key;
    SplitsNewLevel(s, n, k, done, h);
    HalvesSlim(node.body);
    if p.Some? {
      ChildCovers(s, p.value.id, n, task);
      GrowSize(s.nodes[p.value.id].body, Separator(node.body), left);
    }
    forall m | m in s'.nodes && Covers(s'.nodes[m], k)
      ensures SlimNode(s'.nodes[m], done + {l}, h)
    {
      if m in s.nodes && m != n {
        assert Covers(s.nodes[m], k);
        assert SlimNode(s.nodes[m], done, h);
        assert s.nodes[m].level != l;
      }
    }
  }

  // ----- the whole call -----

  ghost predicate Alone(s: State, t: nat, done: set<nat>, h: nat) {
    && Inv(s)
    && t < |s.threads|
    && Fit(s, t)
    && Height(s, done, h)
    && (s.threads[t].pc.Finish? || s.threads[t].pc.Idle? || Slim(s, s.threads[t].task.key, done, h))
  }

  function Segment(h: nat): nat {
    10 * (h + 1) + 30
  }

  /** A bound on the steps that are left. */
  ghost function Left(s: State, t: nat, done: set<nat>, h: nat): int
    requires t < |s.threads|
  {
    (h + 1 - |done|) * Segment(h) + Rank(s, t, h)
  }

  ghost function DoneAfter(s: State, t: nat, done: set<nat>): set<nat>
    requires t < |s.threads|
  {
    var pc := s.threads[t].pc;
    if pc.Splitting? && pc.n in s.nodes then done + {s.nodes[pc.n].level} else done
  }

  lemma SplittingCovers(s: State, t: nat)
    requires Inv(s) && t < |s.threads| && s.threads[t].pc.Splitting?
    ensures var Thread(task, Splitting(n, p)) := s.threads[t];
      && NodeShaped(s, n) && Full(s.nodes[n].body) && Covers(s.nodes[n], task.key)
      && if p.None? then s.root == n else RightChild(s, p.value.id, n, task) && p.value.id != n
  {
    var Thread(task, Splitting(n, p)) := s.threads[t];
    assert PcOk(s, s.threads[t]);
    TreeShaped(s);
    hide StoreOk, LocksOk, NodeOk, Full, LowerBound, LeafOk, InnerOk;
    if p.Some? {
      ChildCovers(s, p.value.id, n, task);
    }
  }

  lemma SplitApplied(s: State, t: nat, c: Choice, s': State)
    requires t < |s.threads| && s.threads[t].pc.Splitting? && Enabled(s, t, c) && s' == Apply(s, t, c)
    ensures t < |s'.threads| && s'.threads[t].pc.SplitDone? && s'.threads[t].task == s.threads[t].task
    ensures NodeShaped(s, s.threads[t].pc.n) && Full(s.nodes[s.threads[t].pc.n].body)
    ensures c.Fresh? && c.left !in s.nodes && c.top !in s.nodes && c.left != c.top
    ensures var p := s.threads[t].pc.p; p.Some? ==> NodeShaped(s, p.value.id) && s.nodes[p.value.id].body.Inner?
    ensures var mid := SplitNode(s, s.threads[t].pc.n, s.threads[t].pc.p, c.left, c.top); s'.nodes == mid.nodes && s'.root == mid.root
  {
    SplitThreads(s, s.threads[t].pc.n, s.threads[t].pc.p, c.left, c.top);
    hide SplitNode;
  }

  lemma SplitStepAlone(s: State, t: nat, c: Choice, s': State, done: set<nat>, h: nat)
    requires Alone(s, t, done, h) && Enabled(s, t, c) && s' == Apply(s, t, c)
    requires s.threads[t].pc.Splitting? && OnlyHolder(s', t)
    ensures Fit(s', t) && s'.threads[t].pc.SplitDone? && s'.threads[t].task == s.threads[t].task
    ensures s.threads[t].pc.n in s.nodes && s.nodes[s.threads[t].pc.n].level !in done
    ensures Height(s', DoneAfter(s, t, done), h) && Slim(s', s.threads[t].task.key, DoneAfter(s, t, done), h)
  {
    hide Inv, Enabled, TreeOk, SplitNode, Full, LeafOk, InnerOk, Slim, OnlyHolder, Height, Apply, RightChild, Covers;
    var Thread(task, pc) := s.threads[t];
    SplittingCovers(s, t);
    SplitApplied(s, t, c, s');
    InvHas(s);
    var mid := SplitNode(s, pc.n, pc.p, c.left, c.top);
    SplitsNewLevel(s, pc.n, task.key, done, h);
    SlimAfterSplit(s, pc.n, pc.p, c.left, c.top, mid, task, done, h);
    SlimSame(mid, s', task.key, DoneAfter(s, t, done), h);
  }

  lemma SplitThreads(s: State, n: nat, p: Option<Parent>, left: nat, top: nat)
    requires NodeShaped(s, n) && Full(s.nodes[n].body)
    requires p.Some? ==> NodeShaped(s, p.value.id) && s.nodes[p.value.id].body.Inner?
    ensures SplitNode(s, n, p, left, top).threads == s.threads
  {
  }

  lemma SlimSame(s: State, s': State, k: int, done: set<nat>, h: nat)
    requires s'.nodes == s.nodes && s'.root == s.root && Slim(s, k, done, h) && Height(s, done, h)
    ensures Slim(s', k, done, h) && Height(s', done, h)
  {
  }

  lemma SlimQuiet(s: State, s': State, k: int, done: set<nat>, h: nat)
    requires SameTree(s, s') && Slim(s, k, done, h)
    ensures Slim(s', k, done, h)
  {
    forall n | n in s'.nodes && Covers(s'.nodes[n], k)
      ensures SlimNode(s'.nodes[n], done, h)
    {
      assert SameNode(s'.nodes[n], s.nodes[n]) && SlimNode(s.nodes[n], done, h);
    }
  }

  lemma HeightQuiet(s: State, t: nat, c: Choice, s': State, done: set<nat>, h: nat)
    requires t < |s.threads| && Enabled(s, t, c) && s' == Apply(s, t, c) && !s.threads[t].pc.Splitting?
    requires Height(s, done, h)
    ensures Height(s', done, h)
    ensures !s.threads[t].pc.Writing? ==> SameTree(s, s')
  {
    if s.threads[t].pc.Writing? {
      hide LowerBound, Upsert;
    } else {
      hide Apply, Enabled;
      QuietStep(s, t, c, s');
    }
  }

  lemma RankBounds(s: State, t: nat, h: nat)
    requires TreeOk(s) && t < |s.threads| && s.nodes[s.root].level <= h + 1
    ensures 0 <= Rank(s, t, h) < Segment(h)
  {
    hide NodeOk;
  }

  lemma AloneSplit(s: State, t: nat, c: Choice, s': State, done: set<nat>, h: nat)
    requires Alone(s, t, done, h) && Enabled(s, t, c) && s' == Apply(s, t, c) && s.threads[t].pc.Splitting?
    requires Inv(s') && OnlyHolder(s', t)
    ensures Alone(s', t, DoneAfter(s, t, done), h)
    ensures Left(s', t, DoneAfter(s, t, done), h) < Left(s, t, done, h)
    ensures s'.threads[t].pc.SplitDone? && |DoneAfter(s, t, done)| == |done| + 1
    ensures s.threads[t].pc.n in s.nodes && s.nodes[s.threads[t].pc.n].level !in done
  {
    hide Inv, TreeOk, Slim, Apply, Enabled, Rank, Fit;
    SplitStepAlone(s, t, c, s', done, h);
    InvHas(s);
    InvHas(s');
    RankBounds(s, t, h);
    RankBounds(s', t, h);
    FewerLeft(h + 1 - |done|, Segment(h));
  }

  lemma AloneMove(s: State, t: nat, c: Choice, s': State, done: set<nat>, h: nat)
    requires Alone(s, t, done, h) && Enabled(s, t, c) && s' == Apply(s, t, c)
    requires s.threads[t].pc != Idle && !s.threads[t].pc.Splitting?
    requires Inv(s') && OnlyHolder(s', t)
    ensures Alone(s', t, done, h)
    ensures Left(s', t, done, h) < Left(s, t, done, h)
    ensures Restarting(s'.threads[t].pc) + Owed(s'.threads[t].pc) == Owed(s.threads[t].pc)
  {
    hide Inv, TreeOk, PcOk, Slim, Apply, Enabled, Rank, Fit, OnlyHolder, SameTree;
    InvHas(s);
    InvHasPc(s, t);
    assert Moves(s, t, c, s', h);
    FitStep(s, t, c, s', h);
    HeightQuiet(s, t, c, s', done, h);
    SameThreads(s, t, c);
    FinishFollows(s, t, c, s');
    if !s.threads[t].pc.Writing? && Slim(s, s.threads[t].task.key, done, h) {
      SlimQuiet(s, s', s.threads[t].task.key, done, h);
    }
  }

  /** One step of a call that runs alone: a split takes a new level, anything else leads on. */
  lemma AloneStep(s: State, t: nat, c: Choice, s': State, done: set<nat>, h: nat)
    requires Alone(s, t, done, h) && Enabled(s, t, c) && s' == Apply(s, t, c) && s.threads[t].pc != Idle
    ensures Alone(s', t, DoneAfter(s, t, done), h)
    ensures Left(s', t, DoneAfter(s, t, done), h) < Left(s, t, done, h)
    ensures Restarting(s'.threads[t].pc) + Owed(s'.threads[t].pc) + |done| == Owed(s.threads[t].pc) + |DoneAfter(s, t, done)|
    ensures s.threads[t].pc.Splitting? ==> s.threads[t].pc.n in s.nodes && s.nodes[s.threads[t].pc.n].level !in done
  {
    hide Inv, Apply, Enabled, Rank, Left, Slim, Height, OnlyHolder;
    InvStep(s, t, c);
    SameThreads(s, t, c);
    OnlyHolderStep(s, t, c, s');
    if s.threads[t].pc.Splitting? {
      AloneSplit(s, t, c, s', done, h);
    } else {
      AloneMove(s, t, c, s', done, h);
    }
  }

  lemma InvHasPc(s: State, t: nat)
    requires Inv(s) && t < |s.threads|
    ensures PcOk(s, s.threads[t])
  {
    hide TreeOk, StoreOk, PcOk, LocksOk;
  }

  lemma InvHas(s: State)
    requires Inv(s)
    ensures TreeOk(s)
  {
  }

  lemma FewerLeft(a: int, b: int)
    ensures (a - 1) * b == a * b - b
  {
  }

  lemma FinishFollows(s: State, t: nat, c: Choice, s': State)
    requires t < |s.threads| && Enabled(s, t, c) && s' == Apply(s, t, c) && s.threads[t].pc != Idle && t < |s'.threads|
    ensures s'.threads[t].task == s.threads[t].task
    ensures s.threads[t].pc.Writing? ==> s'.threads[t].pc.Finish?
    ensures s.threads[t].pc.Finish? ==> s'.threads[t].pc.Idle?
  {
    hide LowerBound, LeafOk, InnerOk, Full, Lookup, ChildFor, Upsert, At, ParentAt;
    hide LeftHalf, RightHalf, Separator, Grow;
  }

  /** Thread t makes these steps and no other thread moves; its call has not returned before the last of them. */
  ghost predicate AloneRun(states: seq<State>, steps: seq<Step>, t: nat) {
    && |states| == |steps| + 1
    && (forall i :: 0 <= i < |steps| ==> IsStep(states[i], steps[i], states[i + 1]) && StillRuns(states[i], steps[i], t))
  }

  ghost predicate StillRuns(s: State, step: Step, t: nat) {
    step.t == t && t < |s.threads| && s.threads[t].pc != Idle
  }

  /** A call is about to start and no node is locked. */
  ghost predicate Starts(s: State, t: nat) {
    && Inv(s)
    && t < |s.threads|
    && s.threads[t].pc == LoadRoot
    && forall n :: n in s.nodes ==> !s.nodes[n].locked
  }

  /** The levels split in the first i steps. */
  ghost function Split(states: seq<State>, t: nat, i: nat): set<nat>
    requires i <= |states| && forall j :: 0 <= j < i ==> t < |states[j].threads|
  {
    if i == 0 then {} else DoneAfter(states[i - 1], t, Split(states, t, i - 1))
  }

  /** The number of times the call went back to the root in the first i steps. */
  ghost function Restarts(states: seq<State>, t: nat, i: nat): nat
    requires i < |states| && forall j :: 0 <= j <= i ==> t < |states[j].threads|
  {
    if i == 0 then 0 else Restarts(states, t, i - 1) + Restarting(states[i].threads[t].pc)
  }

  lemma SameCount(states: seq<State>, steps: seq<Step>, t: nat, i: nat)
    requires AloneRun(states, steps, t) && i < |states| && t < |states[0].threads|
    ensures t < |states[i].threads|
  {
    if i > 0 {
      SameCount(states, steps, t, i - 1);
      assert IsStep(states[i - 1], steps[i - 1], states[i]);
      hide Enabled, Apply;
      SameThreads(states[i - 1], steps[i - 1].t, steps[i - 1].c);
    }
  }

  lemma {:induction false} AloneHolds(states: seq<State>, steps: seq<Step>, t: nat, h: nat, i: nat)
    requires AloneRun(states, steps, t) && Starts(states[0], t) && h == states[0].nodes[states[0].root].level && i < |states|
    ensures forall j :: 0 <= j < |states| ==> t < |states[j].threads|
    ensures Alone(states[i], t, Split(states, t, i), h)
    ensures Left(states[i], t, Split(states, t, i), h) + i <= Left(states[0], t, {}, h)
    ensures Restarts(states, t, i) + Owed(states[i].threads[t].pc) == |Split(states, t, i)|
  {
    hide Inv, Enabled, Apply, Alone, Left, DoneAfter, Starts;
    forall j | 0 <= j < |states|
      ensures t < |states[j].threads|
    {
      StartsAlone(states[0], t, h);
      SameCount(states, steps, t, j);
    }
    if i == 0 {
      StartsAlone(states[0], t, h);
    } else {
      AloneHolds(states, steps, t, h, i - 1);
      assert IsStep(states[i - 1], steps[i - 1], states[i]) && StillRuns(states[i - 1], steps[i - 1], t);
      AloneStep(states[i - 1], t, steps[i - 1].c, states[i], Split(states, t, i - 1), h);
    }
  }

  lemma StartsAlone(s: State, t: nat, h: nat)
    requires Starts(s, t) && h == s.nodes[s.root].level
    ensures t < |s.threads| && Alone(s, t, {}, h) && Owed(s.threads[t].pc) == 0
  {
    hide StoreOk, PcOk, LocksOk, NodeOk;
  }

  lemma {:induction false} FewLevels(done: set<nat>, h: nat)
    requires forall l :: l in done ==> l < h
    ensures |done| <= h
  {
    if h > 0 {
      assert done == (done - {h - 1}) + (done * {h - 1});
      assert |done * {h - 1}| <= 1 by { assert done * {h - 1} <= {h - 1}; SubsetSize(done * {h - 1}, h - 1); }
      FewLevels(done - {h - 1}, h - 1);
    }
  }

  lemma SubsetSize(a: set<nat>, x: nat)
    requires a <= {x}
    ensures |a| <= 1
  {
    if x in a {
      assert a == {x};
    }
  }

  /**
   * An insert that runs alone from any reachable state with no lock taken makes a bounded number
   * of steps, splits each level at most once, and restarts once for each split: at most once for
   * each level of the tree.
   */
  lemma InsertAloneEnds(states: seq<State>, steps: seq<Step>, t: nat, h: nat)
    requires AloneRun(states, steps, t) && Starts(states[0], t) && h == states[0].nodes[states[0].root].level
    ensures |steps| <= (h + 2) * Segment(h)
    ensures forall j :: 0 <= j < |states| ==> t < |states[j].threads|
    ensures Restarts(states, t, |steps|) <= |Split(states, t, |steps|)| <= h + 1
    ensures forall i :: 0 <= i < |steps| && states[i].threads[t].pc.Splitting? ==>
      SplitLevel(states[i], t) !in Split(states, t, i) && SplitLevel(states[i], t) in Split(states, t, i + 1)
  {
    hide Inv, Alone, Starts, Left, Split, Restarts, IsStep;
    AloneHolds(states, steps, t, h, |steps|);
    StartsAlone(states[0], t, h);
    LeftBounds(states[|steps|], t, Split(states, t, |steps|), h);
    LeftBounds(states[0], t, {}, h);
    forall i | 0 <= i < |steps| && states[i].threads[t].pc.Splitting?
      ensures SplitLevel(states[i], t) !in Split(states, t, i) && SplitLevel(states[i], t) in Split(states, t, i + 1)
    {
      SplitOnce(states, steps, t, h, i);
    }
  }

  lemma LeftBounds(s: State, t: nat, done: set<nat>, h: nat)
    requires t < |s.threads| && Alone(s, t, done, h)
    ensures |done| <= h + 1 && 0 <= Left(s, t, done, h) <= (h + 2) * Segment(h)
  {
    hide Inv, Rank, Slim, Fit;
    FewLevels(done, h + 1);
    InvHas(s);
    RankBounds(s, t, h);
    FewerLeft(h + 2, Segment(h));
    Scaled(h + 1 - |done|, h + 1, Segment(h));
  }

  lemma Scaled(a: nat, b: nat, c: nat)
    requires a <= b
    ensures 0 <= a * c <= b * c
  {
  }

  lemma SplitOnce(states: seq<State>, steps: seq<Step>, t: nat, h: nat, i: nat)
    requires AloneRun(states, steps, t) && Starts(states[0], t) && h == states[0].nodes[states[0].root].level
    requires i < |steps| && t < |states[i].threads| && states[i].threads[t].pc.Splitting?
    ensures forall j :: 0 <= j < |states| ==> t < |states[j].threads|
    ensures SplitLevel(states[i], t) !in Split(states, t, i) && SplitLevel(states[i], t) in Split(states, t, i + 1)
  {
    hide Inv, Enabled, Apply, Alone, Starts, Left;
    AloneHolds(states, steps, t, h, i);
    assert IsStep(states[i], steps[i], states[i + 1]) && StillRuns(states[i], steps[i], t);
    AloneStep(states[i], t, steps[i].c, states[i + 1], Split(states, t, i), h);
  }

  ghost function SplitLevel(s: State, t: nat): nat
    requires t < |s.threads| && s.threads[t].pc.Splitting?
  {
    if s.threads[t].pc.n in s.nodes then s.nodes[s.threads[t].pc.n].level else 0
  }

  // ----- a lookup alone -----

  /** Where a lookup can be. */
  predicate Looking(th: Thread) {
    && th.task.Find?
    && (th.pc.Idle? || th.pc.LoadRoot? || th.pc.RootVersion? || th.pc.RootCheck? || th.pc.Visit? || th.pc.Descend?
        || th.pc.GotChild? || th.pc.ChildVersion? || th.pc.LeafRead? || th.pc.LeafSure?)
  }

  lemma LookingStep(s: State, t: nat, c: Choice, s': State)
    requires t < |s.threads| && Enabled(s, t, c) && s' == Apply(s, t, c) && t < |s'.threads|
    requires Looking(s.threads[t]) && s.threads[t].pc != Idle
    ensures Looking(s'.threads[t])
  {
    hide LowerBound, LeafOk, InnerOk, Full, Lookup, ChildFor, Upsert, At, ParentAt, NodeShaped, SplitNode, IsLeaf, TryLock;
  }

  lemma {:induction false} StillLooking(states: seq<State>, steps: seq<Step>, t: nat, i: nat)
    requires AloneRun(states, steps, t) && i < |states| && t < |states[0].threads| && Looking(states[0].threads[t])
    ensures forall j :: 0 <= j < |states| ==> t < |states[j].threads|
    ensures Looking(states[i].threads[t]) && Split(states, t, i) == {}
  {
    hide Enabled, Apply;
    forall j | 0 <= j < |states|
      ensures t < |states[j].threads|
    {
      SameCount(states, steps, t, j);
    }
    if i > 0 {
      StillLooking(states, steps, t, i - 1);
      assert IsStep(states[i - 1], steps[i - 1], states[i]) && StillRuns(states[i - 1], steps[i - 1], t);
      LookingStep(states[i - 1], t, steps[i - 1].c, states[i]);
    }
  }

  /** The last step of a lookup: it was sure of its answer, and the answer is what the completed writes say. */
  ghost predicate Answered(s: State, t: nat) {
    && t < |s.threads|
    && s.threads[t].pc.LeafSure?
    && (var k := s.threads[t].task.key;
        s.threads[t].pc.answer == if k in s.store then (true, s.store[k]) else (false, 0))
  }

  /**
   * A lookup that runs alone from any reachable state with no lock taken goes down without a
   * restart, ends within a number of steps bounded by the height, and returns what was written last.
   */
  lemma LookupAloneEnds(states: seq<State>, steps: seq<Step>, t: nat, h: nat)
    requires AloneRun(states, steps, t) && Starts(states[0], t) && states[0].threads[t].task.Find?
    requires h == states[0].nodes[states[0].root].level
    ensures |steps| < Segment(h)
    ensures forall j :: 0 <= j < |states| ==> t < |states[j].threads|
    ensures Restarts(states, t, |steps|) == 0
    ensures |steps| > 0 && states[|steps|].threads[t].pc == Idle ==> Answered(states[|steps| - 1], t)
  {
    hide Inv, Alone, Starts, Left, Restarts, IsStep, Apply, Enabled;
    StartsAlone(states[0], t, h);
    StartsLooking(states[0], t);
    StillLooking(states, steps, t, |steps|);
    AloneHolds(states, steps, t, h, |steps|);
    LookupLeft(states[0], states[|steps|], t, h, |steps|);
    if |steps| > 0 && states[|steps|].threads[t].pc == Idle {
      var i := |steps| - 1;
      AloneHolds(states, steps, t, h, i);
      StillLooking(states, steps, t, i);
      LastStep(states, steps, t, i, Split(states, t, i), h);
    }
  }

  lemma StartsLooking(s: State, t: nat)
    requires Starts(s, t) && s.threads[t].task.Find?
    ensures Looking(s.threads[t])
  {
  }

  lemma LookupLeft(s: State, s': State, t: nat, h: nat, n: nat)
    requires t < |s.threads| && t < |s'.threads| && Alone(s, t, {}, h) && Alone(s', t, {}, h)
    requires Left(s', t, {}, h) + n <= Left(s, t, {}, h)
    ensures n < Segment(h)
  {
    hide Inv, Rank, Slim, Fit;
    InvHas(s);
    InvHas(s');
    RankBounds(s, t, h);
    RankBounds(s', t, h);
  }

  lemma LastStep(states: seq<State>, steps: seq<Step>, t: nat, i: nat, done: set<nat>, h: nat)
    requires AloneRun(states, steps, t) && i < |steps| && t < |states[i].threads| && t < |states[i + 1].threads|
    requires Alone(states[i], t, done, h) && Looking(states[i].threads[t]) && states[i + 1].threads[t].pc == Idle
    ensures Answered(states[i], t)
  {
    var s := states[i];
    assert IsStep(s, steps[i], states[i + 1]) && StillRuns(s, steps[i], t);
    ReturnsSure(s, t, steps[i].c);
    hide Slim, Height, Apply, Enabled;
    SureAnswer(s, t);
  }
}

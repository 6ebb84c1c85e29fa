/** What holds in every run of the B-tree, whatever the threads and their order. */
module BTreeSafety {
  import opened Sequences
  import opened BTreeNodes
  import opened BTreeMachine
  import opened BTreeShape
  import opened BTreeProof

  lemma LockKeepsTree(s: State, t: nat, n: nat, v: nat, success: Pc, failure: Pc)
    requires t < |s.threads|
    ensures SameTree(s, TryLock(s, t, n, v, success, failure))
  {
    if At(s, n, v) {
      var s' := Lock(s, n);
      assert s'.nodes.Keys == s.nodes.Keys;
      assert SameNode(s'.nodes[n], s.nodes[n]);
      assert forall m :: m in s.nodes && m != n ==> s'.nodes[m] == s.nodes[m];
    }
  }

  lemma UnlockKeepsTree(s: State, t: nat, n: nat, pc': Pc)
    requires t < |s.threads| && n in s.nodes
    ensures SameTree(s, Go(Unlock(s, n), t, pc'))
  {
  }

  /** All steps but a write and a split leave the tree as it is. */
  lemma QuietStep(s: State, t: nat, c: Choice, s': State)
    requires t < |s.threads| && Enabled(s, t, c) && s' == Apply(s, t, c)
    requires !s.threads[t].pc.Writing? && !s.threads[t].pc.Splitting?
    ensures SameTree(s, s')
  {
    hide LowerBound, LeafOk, InnerOk, Full, Lookup, ChildFor, SplitNode, Upsert, SameTree, TryLock, Unlock, At, ParentAt;
    match s.threads[t].pc {
      case Room(n, v, p) =>
        LockKeepsTree(s, t, n, v, LeafLocked(n, p), LoadRoot);
        Moved(s, Go(s, t, Descend(n, v)));
        Moved(s, Go(s, t, LoadRoot));
      case Crowded(n, v, p) =>
        if p.Some? {
          LockKeepsTree(s, t, p.value.id, p.value.version, ParentLocked(n, v, p.value), LoadRoot);
        } else {
          LockKeepsTree(s, t, n, v, RootLocked(n), LoadRoot);
        }
      case ParentLocked(n, v, p) => LockKeepsTree(s, t, n, v, Splitting(n, Some(p)), Release(p.id));
      case SplitDone(n, p) => UnlockKeepsTree(s, t, n, if p.Some? then Release(p.value.id) else LoadRoot);
      case Release(n) => UnlockKeepsTree(s, t, n, LoadRoot);
      case Finish(n) => UnlockKeepsTree(s, t, n, Idle);
      case _ => Moved(s, s');
    }
  }

  lemma TreeStep(s: State, t: nat, c: Choice, s': State)
    requires t < |s.threads| && Enabled(s, t, c) && s' == Apply(s, t, c)
    requires TreeOk(s) && StoreOk(s) && PcOk(s, s.threads[t])
    ensures TreeOk(s') && StoreOk(s')
  {
    var Thread(task, pc) := s.threads[t];
    match pc {
      case Writing(n) =>
        hide TreeOk, StoreOk, Upsert, Full, LowerBound, Lookup;
        WriteTree(s, n, task.key, task.value, s');
        WriteStore(s, n, task.key, task.value, s');
      case Splitting(n, p) =>
        hide TreeOk, StoreOk, Full, LowerBound, Lookup, SplitNode, SameTree, ChildFor, LeafOk, InnerOk;
        var mid := SplitNode(s, n, p, c.left, c.top);
        if p.Some? {
          SplitUnderParent(s, n, p.value, c.left, c.top, mid, task);
        } else {
          SplitRoot(s, c.left, c.top, mid);
        }
        SplitStore(s, n, p, c.left, c.top, mid);
        Moved(mid, s');
        SameTreeOk(mid, s');
      case _ =>
        hide *;
        QuietStep(s, t, c, s');
        SameTreeOk(s, s');
    }
  }

  lemma Moved(s: State, s': State)
    requires s'.nodes == s.nodes && s'.root == s.root && s'.store == s.store
    ensures SameTree(s, s')
  {
  }

  /** Every step of every thread keeps the invariant. */
  lemma InvStep(s: State, t: nat, c: Choice)
    requires Inv(s) && t < |s.threads| && Enabled(s, t, c)
    ensures Inv(Apply(s, t, c))
    ensures Advances(s, t, Apply(s, t, c))
  {
    hide TreeOk, StoreOk, LocksOk, PcOk, Apply, Enabled;
    var s' := Apply(s, t, c);
    assert PcOk(s, s.threads[t]);
    AdvancesStep(s, t, c);
    TreeStep(s, t, c, s');
    LocksStep(s, t, c, s');
    KeysStep(s, t, c, s');
    TreeShaped(s');
    forall u | 0 <= u < |s'.threads|
      ensures PcOk(s', s'.threads[u])
    {
      if u == t {
        PcMoved(s, t, c, s');
      } else {
        assert PcOk(s, s.threads[u]);
        PcKept(s, t, s', u);
      }
    }
  }

  lemma KeysStep(s: State, t: nat, c: Choice, s': State)
    requires t < |s.threads| && Enabled(s, t, c) && s' == Apply(s, t, c)
    requires BELOW_ALL < s.threads[t].task.key <= GREATEST || s.threads[t].pc == Idle
    ensures |s'.threads| == |s.threads| && BELOW_ALL < s'.threads[t].task.key <= GREATEST
  {
    hide Apply;
    OwnMoves(s, t, c);
  }

  // ----- runs -----

  datatype Step = Step(t: nat, c: Choice)

  ghost predicate IsStep(s: State, step: Step, s': State) {
    Enabled(s, step.t, step.c) && s' == Apply(s, step.t, step.c)
  }

  ghost predicate Run(states: seq<State>, steps: seq<Step>) {
    && |states| == |steps| + 1
    && Init(states[0])
    && (forall i :: 0 <= i < |steps| ==> IsStep(states[i], steps[i], states[i + 1]))
  }

  lemma {:induction false} InvOnRun(states: seq<State>, steps: seq<Step>, i: nat)
    requires Run(states, steps) && i < |states|
    ensures Inv(states[i])
  {
    hide Inv, Init, Enabled;
    if i == 0 {
      InitInv(states[0]);
    } else {
      InvOnRun(states, steps, i - 1);
      StepKeeps(states[i - 1], steps[i - 1], states[i]);
    }
  }

  lemma StepKeeps(s: State, step: Step, s': State)
    requires Inv(s) && IsStep(s, step, s')
    ensures Inv(s') && Advances(s, step.t, s')
  {
    hide Inv, Apply, Advances;
    InvStep(s, step.t, step.c);
  }

  /**
   * A read that starts at an unlocked version and is validated at that version saw no writer: in
   * between, nobody held the node's lock and the node did not change.
   */
  lemma {:induction false} ValidatedRead(states: seq<State>, steps: seq<Step>, i: nat, j: nat, n: nat, v: nat, m: nat)
    requires Run(states, steps) && i <= m <= j < |states|
    requires n in states[i].nodes && v <= states[i].nodes[n].version && At(states[j], n, v)
    ensures At(states[i], n, v) && At(states[m], n, v)
    ensures states[m].nodes[n] == states[j].nodes[n] == states[i].nodes[n]
    ensures forall t :: 0 <= t < |states[m].threads| ==> n !in Locks(states[m].threads[t].pc)
    decreases j - i
  {
    hide Inv, Init, Enabled, Advances, Apply;
    InvOnRun(states, steps, m);
    if i < j {
      InvOnRun(states, steps, i);
      StepKeeps(states[i], steps[i], states[i + 1]);
      StaysThere(states[i], steps[i].t, states[i + 1], n);
      ValidatedRead(states, steps, i + 1, j, n, v, if m == i then i + 1 else m);
      AtBefore(states[i], steps[i].t, states[i + 1], n, v);
    }
    NotLocked(states[m], n);
  }

  lemma NotLocked(s: State, n: nat)
    requires Inv(s) && n in s.nodes && !s.nodes[n].locked
    ensures forall t :: 0 <= t < |s.threads| ==> n !in Locks(s.threads[t].pc)
  {
    hide TreeOk, StoreOk, PcOk, Locks;
  }

  // ----- the leaf for a key -----

  /** The leaf a descent from the node reaches. */
  ghost function Route(s: State, n: nat, k: int): (r: nat)
    requires TreeOk(s) && n in s.nodes && Covers(s.nodes[n], k)
    ensures r in s.nodes && LeafOk(s.nodes[r].body) && Covers(s.nodes[r], k)
    decreases s.nodes[n].level
  {
    assert NodeOk(s, s.nodes[n]);
    if s.nodes[n].body.Leaf? then n
    else
      ChildCovers(s, n, ChildFor(s.nodes[n].body, k), Find(k));
      Route(s, ChildFor(s.nodes[n].body, k), k)
  }

  /** The pair found by a descent from the root that nobody disturbs. */
  ghost function Found(s: State, k: int): (bool, int)
    requires TreeOk(s) && BELOW_ALL < k <= GREATEST
  {
    Lookup(s.nodes[Route(s, s.root, k)].body, k)
  }

  lemma OneLeaf(s: State, n: nat, k: int)
    requires TreeOk(s) && n in s.nodes && s.nodes[n].body.Leaf? && Covers(s.nodes[n], k) && BELOW_ALL < k <= GREATEST
    ensures Route(s, s.root, k) == n
  {
    assert NodeOk(s, s.nodes[n]) && NodeOk(s, s.nodes[Route(s, s.root, k)]);
  }

  /** In every reachable state, through any leaf, inner or root split, the tree holds exactly what the completed writes amount to. */
  lemma NothingLost(states: seq<State>, steps: seq<Step>, i: nat, k: int)
    requires Run(states, steps) && i < |states| && BELOW_ALL < k <= GREATEST
    ensures Inv(states[i])
    ensures Found(states[i], k) == if k in states[i].store then (true, states[i].store[k]) else (false, 0)
  {
    InvOnRun(states, steps, i);
    hide TreeOk, PcOk, LocksOk, Run, Lookup;
    var s := states[i];
    assert LeafAgrees(s, s.nodes[Route(s, s.root, k)], k);
  }

  /** A write goes to the leaf whose range covers the key, the one a descent from the root reaches, and there is room. */
  lemma WriteLands(states: seq<State>, steps: seq<Step>, i: nat, t: nat)
    requires Run(states, steps) && i < |states| && t < |states[i].threads| && states[i].threads[t].pc.Writing?
    ensures Inv(states[i])
    ensures var s := states[i]; var k := s.threads[t].task.key; var n := s.threads[t].pc.n;
      n in s.nodes && Covers(s.nodes[n], k) && Route(s, s.root, k) == n && !Full(s.nodes[n].body)
  {
    InvOnRun(states, steps, i);
    hide TreeOk, StoreOk, LocksOk, Run, Full;
    var s := states[i];
    assert PcOk(s, s.threads[t]);
    OneLeaf(s, s.threads[t].pc.n, s.threads[t].task.key);
  }

  // ----- what calls return -----

  predicate WritesAt(states: seq<State>, steps: seq<Step>, i: nat)
    requires i < |steps| && |states| == |steps| + 1
  {
    steps[i].t < |states[i].threads| && states[i].threads[steps[i].t].pc.Writing?
  }

  /** The pairs written in the first i steps, the last one for each key. */
  ghost function Written(states: seq<State>, steps: seq<Step>, i: nat): map<int, int>
    requires |states| == |steps| + 1 && i <= |steps|
  {
    if i == 0 then map[]
    else if WritesAt(states, steps, i - 1) && states[i - 1].threads[steps[i - 1].t].task.Insert? then
      var task := states[i - 1].threads[steps[i - 1].t].task;
      Written(states, steps, i - 1)[task.key := task.value]
    else Written(states, steps, i - 1)
  }

  lemma StoreMoves(s: State, t: nat, c: Choice)
    requires Enabled(s, t, c)
    ensures t < |s.threads|
    ensures var task := s.threads[t].task;
      Apply(s, t, c).store == if s.threads[t].pc.Writing? && task.Insert? then s.store[task.key := task.value] else s.store
  {
    if s.threads[t].pc.Splitting? {
      hide LeftHalf, RightHalf, Separator, Grow;
    } else if !s.threads[t].pc.Writing? {
      hide SameTree, NodeShaped, Apply, Enabled;
      QuietStep(s, t, c, Apply(s, t, c));
      SameTreeStore(s, Apply(s, t, c));
    }
  }

  lemma SameTreeStore(s: State, s': State)
    requires SameTree(s, s')
    ensures s'.store == s.store
  {
  }

  lemma {:induction false} StoreIsWritten(states: seq<State>, steps: seq<Step>, i: nat)
    requires Run(states, steps) && i <= |steps|
    ensures states[i].store == Written(states, steps, i)
  {
    hide Enabled, Apply;
    if i > 0 {
      StoreIsWritten(states, steps, i - 1);
      assert IsStep(states[i - 1], steps[i - 1], states[i]);
      StoreMoves(states[i - 1], steps[i - 1].t, steps[i - 1].c);
    }
  }

  /**
   * readLockOrRestart: a thread goes on to read the root, or a child, only from a version it found
   * unlocked, and restarts exactly when it found the node locked.
   */
  lemma ReadLock(s: State, t: nat, c: Choice)
    requires Enabled(s, t, c) && (s.threads[t].pc.RootVersion? || s.threads[t].pc.ChildVersion?)
    ensures t < |Apply(s, t, c).threads|
    ensures var pc, pc' := s.threads[t].pc, Apply(s, t, c).threads[t].pc;
      var n := if pc.RootVersion? then pc.n else pc.c;
      && n in s.nodes
      && (pc'.LoadRoot? <==> s.nodes[n].locked)
      && (!pc'.LoadRoot? ==> (if pc.RootVersion? then pc'.RootCheck? else pc'.Visit?) && pc'.n == n && At(s, n, pc'.v))
  {
  }

  /** A lookup that is sure of its leaf, with the version still good, has the answer of the completed writes. */
  lemma SureAnswer(s: State, t: nat)
    requires Inv(s) && t < |s.threads|
    requires var pc := s.threads[t].pc; pc.LeafSure? && At(s, pc.n, pc.v)
    ensures var k := s.threads[t].task.key;
      s.threads[t].pc.answer == if k in s.store then (true, s.store[k]) else (false, 0)
  {
    hide TreeOk, LocksOk, Lookup;
    var pc := s.threads[t].pc;
    assert PcOk(s, s.threads[t]);
    assert LeafAgrees(s, s.nodes[pc.n], s.threads[t].task.key);
  }

  /** How a lookup returns: from its last version check, with the version still good. */
  lemma ReturnsSure(s: State, t: nat, c: Choice)
    requires Enabled(s, t, c) && !s.threads[t].pc.Idle? && !s.threads[t].pc.Finish?
    requires t < |Apply(s, t, c).threads| && Apply(s, t, c).threads[t].pc.Idle?
    ensures var pc := s.threads[t].pc; pc.LeafSure? && At(s, pc.n, pc.v)
  {
    hide LowerBound, LeafOk, InnerOk, Full, Lookup, ChildFor, Upsert, ParentAt, NodeShaped, SplitNode, IsLeaf, TryLock;
  }

  /**
   * A lookup that returns, in any run: the found branch is taken exactly for keys written before its
   * last step, with the value written last.
   */
  lemma LookupAnswers(states: seq<State>, steps: seq<Step>, i: nat)
    requires Run(states, steps) && i < |steps|
    requires var t := steps[i].t;
      && t < |states[i].threads| && t < |states[i + 1].threads|
      && states[i].threads[t].task.Find?
      && states[i].threads[t].pc != Idle
      && states[i + 1].threads[t].pc == Idle
    ensures var t := steps[i].t; var written := Written(states, steps, i); var k := states[i].threads[t].task.key;
      && states[i].threads[t].pc.LeafSure?
      && states[i].threads[t].pc.answer == if k in written then (true, written[k]) else (false, 0)
  {
    var s, t := states[i], steps[i].t;
    assert IsStep(s, steps[i], states[i + 1]);
    InvOnRun(states, steps, i);
    StoreIsWritten(states, steps, i);
    hide Inv, Written, Init, Apply, Enabled;
    if s.threads[t].pc.Finish? {
      var w := WriteBefore(states, steps, i, t);
    } else {
      ReturnsSure(s, t, steps[i].c);
      SureAnswer(s, t);
    }
  }

  lemma OthersStay(s: State, t: nat, c: Choice, u: nat)
    requires Enabled(s, t, c) && u < |s.threads| && u != t
    ensures u < |Apply(s, t, c).threads| && Apply(s, t, c).threads[u] == s.threads[u]
  {
    hide LowerBound, LeafOk, InnerOk, Full, Lookup, ChildFor, Upsert, At, ParentAt, NodeShaped, SplitNode, IsLeaf, TryLock;
  }

  /** How a thread's own step moves it into, through and out of a call. */
  lemma OwnMoves(s: State, t: nat, c: Choice)
    requires Enabled(s, t, c)
    ensures t < |s.threads| == |Apply(s, t, c).threads|
    ensures var th, th' := s.threads[t], Apply(s, t, c).threads[t];
      && (if th.pc.Idle? then c == Begin(th'.task) else th'.task == th.task)
      && (th'.pc.Finish? <==> th.pc.Writing?)
      && (th'.pc.Finish? ==> th.task.Insert?)
      && (th.pc.Finish? ==> th'.pc.Idle?)
  {
    hide LowerBound, LeafOk, InnerOk, Full, Lookup, ChildFor, Upsert, At, ParentAt, NodeShaped, SplitNode, IsLeaf, TryLock;
  }

  /** Which thread stands at Finish, and what brought it there. */
  lemma FinishComesFromWrite(s: State, t: nat, c: Choice, u: nat)
    requires Enabled(s, t, c) && u < |s.threads| && Apply(s, t, c).threads[u].pc.Finish?
    ensures s.threads[u].task == Apply(s, t, c).threads[u].task
    ensures if t == u then s.threads[u].pc.Writing? && s.threads[u].task.Insert? else s.threads[u].pc.Finish?
  {
    hide Enabled, Apply;
    if t == u {
      OwnMoves(s, t, c);
    } else {
      OthersStay(s, t, c, u);
    }
  }

  /** How a thread got to where it stands in the middle of a call: not by a write. */
  lemma InCall(s: State, t: nat, c: Choice, u: nat)
    requires Enabled(s, t, c) && u < |s.threads| == |Apply(s, t, c).threads|
    requires var pc := Apply(s, t, c).threads[u].pc; !pc.Idle? && !pc.Finish?
    ensures var th, th' := s.threads[u], Apply(s, t, c).threads[u];
      if t != u then th' == th
      else if th.pc.Idle? then c == Begin(th'.task)
      else th.task == th'.task && !th.pc.Writing? && !th.pc.Finish?
  {
    hide Enabled, Apply;
    if t == u {
      OwnMoves(s, t, c);
    } else {
      OthersStay(s, t, c, u);
    }
  }

  /** The call a thread is in: where it began, and that it has not written since. */
  lemma {:induction false} CallBegan(states: seq<State>, steps: seq<Step>, i: nat, t: nat) returns (b: nat)
    requires Run(states, steps) && i < |states| && t < |states[i].threads|
    requires !states[i].threads[t].pc.Idle? && !states[i].threads[t].pc.Finish?
    ensures b < i && steps[b] == Step(t, Begin(states[i].threads[t].task))
    ensures forall m :: b < m < i && steps[m].t == t ==> OnTheWay(states[m], t)
  {
    hide Enabled, Apply, Init;
    if i == 0 {
      NoneFinished(states[0], t);
    } else {
      assert IsStep(states[i - 1], steps[i - 1], states[i]);
      SameThreads(states[i - 1], steps[i - 1].t, steps[i - 1].c);
      InCall(states[i - 1], steps[i - 1].t, steps[i - 1].c, t);
      b := i - 1;
      if steps[i - 1].t != t || !states[i - 1].threads[t].pc.Idle? {
        b := CallBegan(states, steps, i - 1, t);
      }
    }
  }

  /** The thread is in a call and its next step is not the write. */
  predicate OnTheWay(s: State, t: nat) {
    t < |s.threads| && !s.threads[t].pc.Idle? && !s.threads[t].pc.Writing?
  }

  /** An insert that is about to return has written its pair exactly once since its call began, and that was its last step. */
  lemma {:induction false} InsertWrote(states: seq<State>, steps: seq<Step>, i: nat, t: nat) returns (b: nat, w: nat)
    requires Run(states, steps) && i < |states| && t < |states[i].threads| && states[i].threads[t].pc.Finish?
    ensures b < w < i && steps[b] == Step(t, Begin(states[i].threads[t].task)) && states[i].threads[t].task.Insert?
    ensures steps[w].t == t && WritesAt(states, steps, w) && states[w].threads[t].task == states[i].threads[t].task
    ensures forall m :: b < m < i && steps[m].t == t && m != w ==> OnTheWay(states[m], t)
    ensures forall m :: w < m < i ==> steps[m].t != t
  {
    w := WriteBefore(states, steps, i, t);
    b := CallBegan(states, steps, w, t);
  }

  lemma {:induction false} WriteBefore(states: seq<State>, steps: seq<Step>, i: nat, t: nat) returns (w: nat)
    requires Run(states, steps) && i < |states| && t < |states[i].threads| && states[i].threads[t].pc.Finish?
    ensures w < i && steps[w].t == t && WritesAt(states, steps, w)
    ensures states[w].threads[t].task == states[i].threads[t].task && states[i].threads[t].task.Insert?
    ensures forall m :: w < m < i ==> steps[m].t != t
  {
    hide Enabled, Apply, Init;
    if i == 0 {
      NoneFinished(states[0], t);
    } else {
      assert IsStep(states[i - 1], steps[i - 1], states[i]);
      SameThreads(states[i - 1], steps[i - 1].t, steps[i - 1].c);
      FinishComesFromWrite(states[i - 1], steps[i - 1].t, steps[i - 1].c, t);
      w := i - 1;
      if steps[i - 1].t != t {
        w := WriteBefore(states, steps, i - 1, t);
      }
    }
  }

  lemma NoneFinished(s: State, t: nat)
    requires Init(s) && t < |s.threads|
    ensures s.threads[t].pc == Idle
  {
  }

  lemma SameThreads(s: State, t: nat, c: Choice)
    requires Enabled(s, t, c)
    ensures t < |s.threads| == |Apply(s, t, c).threads|
  {
  }

  // ----- no thread is ever stuck -----

  ghost function Address(nodes: map<nat, Node>): (n: nat)
    ensures forall m :: m in nodes ==> m < n
  {
    if nodes == map[] then 0 else
      var m :| m in nodes;
      var rest := Address(nodes - {m});
      assert forall x :: x in nodes ==> x == m || x in nodes - {m};
      if m < rest then rest else m + 1
  }

  /** In every state of a run every thread has a next step: what the steps ask of the state is always given. */
  lemma NeverStuck(s: State, t: nat) returns (c: Choice)
    requires Inv(s) && t < |s.threads|
    ensures Enabled(s, t, c)
  {
    TreeShaped(s);
    assert PcOk(s, s.threads[t]);
    hide Inv, PcOk, Enabled;
    var pc := s.threads[t].pc;
    if pc.Visit? || pc.Descend? {
      c := ReadChoice(s, t);
    } else if pc.Splitting? {
      c := SplitChoice(s, t);
    } else {
      c := if pc.Idle? then Begin(Find(0)) else Nothing;
      OnlyChoice(s, t, c);
    }
  }

  lemma ReadChoice(s: State, t: nat) returns (c: Choice)
    requires t < |s.threads| && PcOk(s, s.threads[t]) && (s.threads[t].pc.Visit? || s.threads[t].pc.Descend?)
    requires forall n :: n in s.nodes ==> NodeShaped(s, n)
    ensures Enabled(s, t, c)
  {
    hide LowerBound, Lookup, Increasing;
    var Thread(task, pc) := s.threads[t];
    if pc.Descend? {
      c := Id(ChildFor(s.nodes[pc.n].body, task.key));
    } else {
      c := if task.Insert? then Bit(Full(s.nodes[pc.n].body))
           else if IsLeaf(s, pc.n) then Answer(Lookup(s.nodes[pc.n].body, task.key)) else Nothing;
    }
  }

  lemma SplitChoice(s: State, t: nat) returns (c: Choice)
    requires t < |s.threads| && PcOk(s, s.threads[t]) && s.threads[t].pc.Splitting?
    requires forall n :: n in s.nodes ==> NodeShaped(s, n)
    ensures Enabled(s, t, c)
  {
    hide LowerBound, Lookup, Increasing;
    var a := Address(s.nodes);
    c := Fresh(a, a + 1);
  }

  lemma OnlyChoice(s: State, t: nat, c: Choice)
    requires t < |s.threads| && PcOk(s, s.threads[t])
    requires var pc := s.threads[t].pc; !pc.Visit? && !pc.Descend? && !pc.Splitting?
    requires c == if s.threads[t].pc.Idle? then Begin(Find(0)) else Nothing
    requires forall n :: n in s.nodes ==> NodeShaped(s, n)
    ensures Enabled(s, t, c)
  {
    hide LowerBound, Lookup, Increasing, Full, At;
  }
}

/**
 * The B-tree under optimistic lock coupling, as a machine of atomic steps run by any number of
 * threads in any order.
 *
 * A node's fields may hold anything while it is locked, so a read that does not happen at the
 * version the reader started from returns an arbitrary value. The writes made under a lock take
 * effect in one step: nobody can tell, for the same reason.
 */
module BTreeMachine {
  import opened Sequences
  import opened BTreeNodes

  /** Keys are unsigned 64-bit numbers; ranges exclude their lower end. */
  const BELOW_ALL := -1
  const GREATEST := 0xFFFF_FFFF_FFFF_FFFF

  /** The version word split into its counter and its lock bit, the contents, and the key range and level it stands for. */
  datatype Node = Node(version: nat, locked: bool, level: nat, lo: int, hi: int, body: Body)

  predicate Covers(n: Node, k: int) {
    n.lo < k <= n.hi
  }

  function ChildFor(b: Body, k: int): nat
    requires InnerOk(b)
  {
    b.children[LowerBound(b.keys, k)]
  }

  datatype Task = Insert(key: int, value: int) | Find(key: int)

  datatype Parent = Parent(id: nat, version: nat)

  /** Where a thread stands; the name says what it knows or does next. */
  datatype Pc =
    | Idle
    | LoadRoot
    | RootVersion(n: nat)
    | RootCheck(n: nat, v: nat)
    | Visit(n: nat, v: nat, p: Option<Parent>)
    | Room(n: nat, v: nat, p: Option<Parent>)
    | Crowded(n: nat, v: nat, p: Option<Parent>)
    | ParentLocked(n: nat, v: nat, parent: Parent)
    | RootLocked(n: nat)
    | Splitting(n: nat, p: Option<Parent>)
    | SplitDone(n: nat, p: Option<Parent>)
    | Release(n: nat)
    | Descend(n: nat, v: nat)
    | GotChild(n: nat, v: nat, c: nat)
    | ChildVersion(n: nat, v: nat, c: nat)
    | LeafLocked(n: nat, p: Option<Parent>)
    | Writing(n: nat)
    | Finish(n: nat)
    | LeafRead(n: nat, v: nat, p: Option<Parent>, answer: (bool, int))
    | LeafSure(n: nat, v: nat, answer: (bool, int))

  datatype Thread = Thread(task: Task, pc: Pc)

  /** The heap, the root pointer and the threads; store records what the completed writes amount to. */
  datatype State = State(nodes: map<nat, Node>, root: nat, threads: seq<Thread>, store: map<int, int>)

  /** What a step is free to choose: the next task, a value read, or the address of a new node. */
  datatype Choice =
    | Begin(task: Task)
    | Bit(b: bool)
    | Id(n: nat)
    | Fresh(left: nat, top: nat)
    | Answer(answer: (bool, int))
    | Nothing

  /** The version word is still the unlocked word with this counter. */
  predicate At(s: State, n: nat, v: nat) {
    n in s.nodes && s.nodes[n].version == v && !s.nodes[n].locked
  }

  predicate ParentAt(s: State, p: Option<Parent>) {
    p.Some? ==> At(s, p.value.id, p.value.version)
  }

  predicate IsLeaf(s: State, n: nat) {
    n in s.nodes && s.nodes[n].body.Leaf?
  }

  predicate NodeShaped(s: State, n: nat) {
    n in s.nodes && (LeafOk(s.nodes[n].body) || InnerOk(s.nodes[n].body))
  }

  /** Which choices a thread may make at its next step. */
  predicate Enabled(s: State, t: nat, c: Choice) {
    t < |s.threads| &&
    var Thread(task, pc) := s.threads[t];
    match pc
    case Idle => c.Begin? && BELOW_ALL < c.task.key <= GREATEST
    case Visit(n, v, p) =>
      && NodeShaped(s, n)
      && (if task.Insert? then c.Bit? && (At(s, n, v) ==> c.b == Full(s.nodes[n].body))
          else if IsLeaf(s, n) then c.Answer? && (At(s, n, v) ==> c.answer == Lookup(s.nodes[n].body, task.key))
          else c == Nothing)
    case Splitting(n, p) =>
      && c.Fresh?
      && c.left !in s.nodes
      && c.top !in s.nodes
      && c.left != c.top
      && NodeShaped(s, n)
      && Full(s.nodes[n].body)
      && (p.Some? ==> NodeShaped(s, p.value.id) && s.nodes[p.value.id].body.Inner?)
    case Descend(n, v) =>
      && NodeShaped(s, n)
      && c.Id?
      && (At(s, n, v) ==> s.nodes[n].body.Inner? && c.n == ChildFor(s.nodes[n].body, task.key))
    case Writing(n) => c == Nothing && task.Insert? && NodeShaped(s, n) && IsLeaf(s, n)
    case ChildVersion(n, v, child) => c == Nothing && child in s.nodes
    case RootVersion(n) => c == Nothing && n in s.nodes
    case Room(n, v, p) => c == Nothing && n in s.nodes
    case Crowded(n, v, p) => c == Nothing && n in s.nodes && (p.Some? ==> p.value.id in s.nodes)
    case ParentLocked(n, v, p) => c == Nothing && n in s.nodes
    case SplitDone(n, p) => c == Nothing && n in s.nodes
    case Release(n) => c == Nothing && n in s.nodes
    case Finish(n) => c == Nothing && n in s.nodes
    case _ => c == Nothing
  }

  function Go(s: State, t: nat, pc: Pc): State
    requires t < |s.threads|
  {
    s.(threads := s.threads[t := s.threads[t].(pc := pc)])
  }

  function Lock(s: State, n: nat): State
    requires n in s.nodes
  {
    s.(nodes := s.nodes[n := s.nodes[n].(locked := true)])
  }

  /** Adding two to a locked word clears the bit and carries into the counter. */
  function Unlock(s: State, n: nat): State
    requires n in s.nodes
  {
    s.(nodes := s.nodes[n := s.nodes[n].(locked := false, version := s.nodes[n].version + 1)])
  }

  /** A compare-and-swap from the version read earlier, and where the thread goes on success and on failure. */
  function TryLock(s: State, t: nat, n: nat, v: nat, success: Pc, failure: Pc): (s': State)
    requires t < |s.threads|
    ensures s'.threads == s.threads[t := s.threads[t].(pc := if At(s, n, v) then success else failure)]
  {
    if At(s, n, v) then Go(Lock(s, n), t, success) else Go(s, t, failure)
  }

  /** split() on the node, and insert() on its parent or makeRoot(). */
  function SplitNode(s: State, n: nat, p: Option<Parent>, left: nat, top: nat): (s': State)
    requires NodeShaped(s, n) && Full(s.nodes[n].body)
    requires p.Some? ==> NodeShaped(s, p.value.id) && s.nodes[p.value.id].body.Inner?
    ensures s'.threads == s.threads
  {
    var node := s.nodes[n];
    var sep := Separator(node.body);
    var kept := node.(hi := sep, body := LeftHalf(node.body));
    var moved := Node(1, false, node.level, sep, node.hi, RightHalf(node.body));
    match p
    case Some(parent) =>
      var above := s.nodes[parent.id];
      s.(nodes := s.nodes[n := kept][left := moved][parent.id := above.(body := Grow(above.body, sep, left))])
    case None =>
      var above := Node(1, false, node.level + 1, node.lo, node.hi, Inner([sep], [n, left]));
      s.(nodes := s.nodes[n := kept][left := moved][top := above], root := top)
  }

  function Apply(s: State, t: nat, c: Choice): State
    requires Enabled(s, t, c)
  {
    var Thread(task, pc) := s.threads[t];
    match pc
    case Idle => s.(threads := s.threads[t := Thread(c.task, LoadRoot)])
    case LoadRoot => Go(s, t, RootVersion(s.root))
    case RootVersion(n) =>
      Go(s, t, if s.nodes[n].locked then LoadRoot else RootCheck(n, s.nodes[n].version))
    case RootCheck(n, v) => Go(s, t, if s.root == n then Visit(n, v, None) else LoadRoot)
    case Visit(n, v, p) =>
      if task.Insert? then
        Go(s, t, if c.b then Crowded(n, v, p) else Room(n, v, p))
      else if IsLeaf(s, n) then
        Go(s, t, LeafRead(n, v, p, c.answer))
      else
        Go(s, t, if ParentAt(s, p) then Descend(n, v) else LoadRoot)
    case Room(n, v, p) =>
      if IsLeaf(s, n) then
        TryLock(s, t, n, v, LeafLocked(n, p), LoadRoot)
      else
        Go(s, t, if ParentAt(s, p) then Descend(n, v) else LoadRoot)
    case Crowded(n, v, p) =>
      if p.Some? then
        TryLock(s, t, p.value.id, p.value.version, ParentLocked(n, v, p.value), LoadRoot)
      else
        TryLock(s, t, n, v, RootLocked(n), LoadRoot)
    case ParentLocked(n, v, p) => TryLock(s, t, n, v, Splitting(n, Some(p)), Release(p.id))
    case RootLocked(n) => Go(s, t, if s.root == n then Splitting(n, None) else Release(n))
    case Splitting(n, p) => Go(SplitNode(s, n, p, c.left, c.top), t, SplitDone(n, p))
    case SplitDone(n, p) => Go(Unlock(s, n), t, if p.Some? then Release(p.value.id) else LoadRoot)
    case Release(n) => Go(Unlock(s, n), t, LoadRoot)
    case Descend(n, v) => Go(s, t, GotChild(n, v, c.n))
    case GotChild(n, v, child) => Go(s, t, if At(s, n, v) then ChildVersion(n, v, child) else LoadRoot)
    case ChildVersion(n, v, child) =>
      Go(s, t, if s.nodes[child].locked then LoadRoot else Visit(child, s.nodes[child].version, Some(Parent(n, v))))
    case LeafLocked(n, p) => Go(s, t, if ParentAt(s, p) then Writing(n) else Release(n))
    case Writing(n) =>
      var node := s.nodes[n];
      Go(s.(nodes := s.nodes[n := node.(body := Upsert(node.body, task.key, task.value))],
            store := s.store[task.key := task.value]), t, Finish(n))
    case Finish(n) => Go(Unlock(s, n), t, Idle)
    case LeafRead(n, v, p, answer) => Go(s, t, if ParentAt(s, p) then LeafSure(n, v, answer) else LoadRoot)
    case LeafSure(n, v, answer) => Go(s, t, if At(s, n, v) then Idle else LoadRoot)
  }

  predicate Init(s: State) {
    && s.root in s.nodes
    && s.nodes == map[s.root := Node(1, false, 0, BELOW_ALL, GREATEST, Leaf([], []))]
    && s.store == map[]
    && (forall t :: 0 <= t < |s.threads| ==> s.threads[t].pc == Idle)
  }

  // ----- the shape of the tree -----

  /** The range between two neighbouring separators. */
  function LowEnd(n: Node, i: nat): int
    requires n.body.Inner? && i <= |n.body.keys|
  {
    if i == 0 then n.lo else n.body.keys[i - 1]
  }

  function HighEnd(n: Node, i: nat): int
    requires n.body.Inner? && i <= |n.body.keys|
  {
    if i == |n.body.keys| then n.hi else n.body.keys[i]
  }

  ghost predicate ChildOk(s: State, n: Node, i: nat)
    requires InnerOk(n.body) && i <= |n.body.keys|
  {
    var c := n.body.children[i];
    && c in s.nodes
    && s.nodes[c].level + 1 == n.level
    && s.nodes[c].lo == LowEnd(n, i)
    && s.nodes[c].hi == HighEnd(n, i)
  }

  predicate KeysWithin(n: Node) {
    forall i :: 0 <= i < |n.body.keys| ==> n.lo < n.body.keys[i] <= n.hi
  }

  ghost predicate NodeOk(s: State, n: Node) {
    && n.lo < n.hi
    && KeysWithin(n)
    && (if n.body.Leaf? then
          LeafOk(n.body) && n.level == 0
        else
          && InnerOk(n.body)
          && n.body.keys[|n.body.keys| - 1] < n.hi
          && (forall i :: 0 <= i <= |n.body.keys| ==> ChildOk(s, n, i)))
  }

  /** Separators and child ranges agree, nodes of one level share no key, and the root alone is on top and covers every key. */
  ghost predicate TreeOk(s: State) {
    && s.root in s.nodes
    && s.nodes[s.root].lo == BELOW_ALL
    && s.nodes[s.root].hi == GREATEST
    && (forall n :: n in s.nodes ==> NodeOk(s, s.nodes[n]))
    && (forall n :: n in s.nodes && n != s.root ==> s.nodes[n].level < s.nodes[s.root].level)
    && (forall m, n :: m in s.nodes && n in s.nodes && m != n && s.nodes[m].level == s.nodes[n].level ==>
          s.nodes[m].hi <= s.nodes[n].lo || s.nodes[n].hi <= s.nodes[m].lo)
  }

  /** What a leaf says about a key in its range is what the completed writes say. */
  ghost predicate LeafAgrees(s: State, n: Node, k: int)
    requires LeafOk(n.body)
  {
    Lookup(n.body, k) == if k in s.store then (true, s.store[k]) else (false, 0)
  }

  ghost predicate StoreOk(s: State) {
    forall n, k {:trigger s.nodes[n], k in s.store} {:trigger LeafAgrees(s, s.nodes[n], k)} ::
      n in s.nodes && LeafOk(s.nodes[n].body) && Covers(s.nodes[n], k) ==> LeafAgrees(s, s.nodes[n], k)
  }

  // ----- what threads know -----

  function Locks(pc: Pc): set<nat> {
    match pc
    case ParentLocked(_, _, p) => {p.id}
    case RootLocked(n) => {n}
    case Splitting(n, p) => {n} + (if p.Some? then {p.value.id} else {})
    case SplitDone(n, p) => {n} + (if p.Some? then {p.value.id} else {})
    case Release(n) => {n}
    case LeafLocked(n, _) => {n}
    case Writing(n) => {n}
    case Finish(n) => {n}
    case _ => {}
  }

  /** If the node is still at version v, it covers k. */
  ghost predicate Sure(s: State, n: nat, v: nat, k: int) {
    && n in s.nodes
    && v <= s.nodes[n].version
    && (At(s, n, v) ==> Covers(s.nodes[n], k))
  }

  ghost predicate RightChild(s: State, p: nat, n: nat, task: Task) {
    && p in s.nodes
    && InnerOk(s.nodes[p].body)
    && Covers(s.nodes[p], task.key)
    && ChildFor(s.nodes[p].body, task.key) == n
    && (task.Insert? ==> !Full(s.nodes[p].body))
  }

  /** If the parent is still at its version, n is its child for the key, and there is room in it for a separator. */
  ghost predicate Linked(s: State, p: Parent, n: nat, task: Task) {
    && p.id in s.nodes
    && n in s.nodes
    && s.nodes[p.id].body.Inner?
    && p.version <= s.nodes[p.id].version
    && (At(s, p.id, p.version) ==> RightChild(s, p.id, n, task))
  }

  ghost predicate Reached(s: State, n: nat, v: nat, p: Option<Parent>, task: Task) {
    && n in s.nodes
    && v <= s.nodes[n].version
    && (if p.None? then Sure(s, n, v, task.key) else Linked(s, p.value, n, task))
  }

  /** What a thread may rely on at each point. */
  ghost predicate PcOk(s: State, th: Thread) {
    var task := th.task;
    match th.pc
    case Idle => true
    case LoadRoot => true
    case RootVersion(n) => n in s.nodes
    case RootCheck(n, v) => n in s.nodes && v <= s.nodes[n].version
    case Visit(n, v, p) => Reached(s, n, v, p, task)
    case Room(n, v, p) => task.Insert? && Reached(s, n, v, p, task) && (At(s, n, v) ==> !Full(s.nodes[n].body))
    case Crowded(n, v, p) => task.Insert? && Reached(s, n, v, p, task) && (At(s, n, v) ==> Full(s.nodes[n].body))
    case ParentLocked(n, v, p) =>
      && task.Insert?
      && n in s.nodes
      && v <= s.nodes[n].version
      && RightChild(s, p.id, n, task)
      && (At(s, n, v) ==> Full(s.nodes[n].body))
    case RootLocked(n) => n in s.nodes && Full(s.nodes[n].body)
    case Splitting(n, p) =>
      && n in s.nodes
      && Full(s.nodes[n].body)
      && (if p.None? then s.root == n else task.Insert? && n != p.value.id && RightChild(s, p.value.id, n, task))
    case SplitDone(n, p) => n in s.nodes && (p.Some? ==> n != p.value.id)
    case Release(n) => n in s.nodes
    case Descend(n, v) => Passing(s, n, v, task)
    case GotChild(n, v, c) => Passing(s, n, v, task) && (At(s, n, v) ==> c == ChildFor(s.nodes[n].body, task.key))
    case ChildVersion(n, v, c) =>
      Passing(s, n, v, task) && c in s.nodes && (At(s, n, v) ==> c == ChildFor(s.nodes[n].body, task.key))
    case LeafLocked(n, p) =>
      && task.Insert?
      && n in s.nodes
      && LeafOk(s.nodes[n].body)
      && !Full(s.nodes[n].body)
      && (if p.None? then Covers(s.nodes[n], task.key) else Linked(s, p.value, n, task))
    case Writing(n) =>
      && task.Insert?
      && n in s.nodes
      && LeafOk(s.nodes[n].body)
      && !Full(s.nodes[n].body)
      && Covers(s.nodes[n], task.key)
    case Finish(n) => n in s.nodes
    case LeafRead(n, v, p, answer) => Reached(s, n, v, p, task) && AnswerOk(s, n, v, task.key, answer)
    case LeafSure(n, v, answer) => Sure(s, n, v, task.key) && AnswerOk(s, n, v, task.key, answer)
  }

  /** The thread is at an inner node that covers its key, if it is still at its version. */
  ghost predicate Passing(s: State, n: nat, v: nat, task: Task) {
    && Sure(s, n, v, task.key)
    && InnerOk(s.nodes[n].body)
    && (At(s, n, v) && task.Insert? ==> !Full(s.nodes[n].body))
  }

  ghost predicate AnswerOk(s: State, n: nat, v: nat, k: int, answer: (bool, int)) {
    n in s.nodes && LeafOk(s.nodes[n].body) && (At(s, n, v) ==> answer == Lookup(s.nodes[n].body, k))
  }

  ghost predicate LocksOk(s: State) {
    && (forall t, n :: 0 <= t < |s.threads| && n in Locks(s.threads[t].pc) ==> n in s.nodes && s.nodes[n].locked)
    && (forall t, u :: 0 <= t < u < |s.threads| ==> Locks(s.threads[t].pc) !! Locks(s.threads[u].pc))
  }

  ghost predicate Inv(s: State) {
    && TreeOk(s)
    && StoreOk(s)
    && LocksOk(s)
    && (forall t :: 0 <= t < |s.threads| ==>
          BELOW_ALL < s.threads[t].task.key <= GREATEST || s.threads[t].pc == Idle)
    && (forall t :: 0 <= t < |s.threads| ==> PcOk(s, s.threads[t]))
  }
}

/**
 * The adaptive radix tree, one operation at a time: path compression with at most eleven stored
 * bytes of each prefix, nodes that grow and shrink through four kinds, and the collapse of a node
 * left with one child. Keys have one length; a leaf holds an identifier whose key can be loaded.
 */
module ArtTree {

  type Byte = b: int | 0 <= b < 256

  type Key = seq<Byte>

  const MAX_STORED := 11

  datatype Kind = N4 | N16 | N48 | N256

  /** An inner node keeps the length of its prefix and its first bytes. */
  datatype Node =
    | Leaf(tid: nat)
    | Inner(kind: Kind, prefixLength: nat, stored: Key, children: map<Byte, Node>)

  function Min(a: nat, b: nat): nat {
    if a < b then a else b
  }

  function Stored(p: Key): Key {
    p[..Min(|p|, MAX_STORED)]
  }

  /** The path to the child at byte b of a node with prefix p. */
  function Extend(path: Key, p: Key, b: Byte): Key {
    path + p + [b]
  }

  /** The first l bytes of the key. */
  function Upto(k: Key, l: nat): Key
    requires l <= |k|
  {
    k[..l]
  }

  // ----- what a tree holds -----

  ghost predicate Has(n: Node, t: nat) {
    match n
    case Leaf(tid) => t == tid
    case Inner(_, _, _, children) => exists b :: b in children && Has(children[b], t)
  }

  /** How many children a node of each kind may have, below the root. */
  predicate Sized(kind: Kind, size: nat) {
    match kind
    case N4 => 2 <= size <= 4
    case N16 => 3 <= size <= 16
    case N48 => 12 <= size <= 48
    case N256 => 37 <= size <= 256
  }

  /** Every key below n starts with the path to n. */
  ghost predicate Ok(load: nat -> Key, len: nat, n: Node, path: Key)
    decreases n, 1
  {
    match n
    case Leaf(t) => t > 0 && |load(t)| == len && |path| <= len && load(t)[..|path|] == path
    case Inner(kind, _, _, children) => Sized(kind, |children|) && exists p :: Under(load, len, n, path, p)
  }

  /** The whole prefix of n is p: its first bytes are stored, and the children continue the path. */
  ghost predicate Under(load: nat -> Key, len: nat, n: Node, path: Key, p: Key)
    decreases n, 0
  {
    && n.Inner?
    && |p| == n.prefixLength
    && n.stored == Stored(p)
    && |path| + |p| < len
    && forall b :: b in n.children ==> Ok(load, len, n.children[b], Extend(path, p, b))
  }

  /** An inner node at the end of a path; the root is an N256 without a prefix and with any number of children. */
  ghost predicate InnerOk(load: nat -> Key, len: nat, n: Node, path: Key, root: bool) {
    RightSize(n, path, root) && exists p :: Under(load, len, n, path, p)
  }

  predicate RightSize(n: Node, path: Key, root: bool) {
    n.Inner? && if root then n.kind == N256 && n.prefixLength == 0 && path == [] else Sized(n.kind, |n.children|)
  }

  lemma {:induction false} KeysStartWithPath(load: nat -> Key, len: nat, n: Node, path: Key, t: nat)
    requires Ok(load, len, n, path) && Has(n, t)
    ensures t > 0 && |load(t)| == len && |path| <= len && load(t)[..|path|] == path
    decreases n
  {
    if n.Inner? {
      var p :| Under(load, len, n, path, p);
      var b :| b in n.children && Has(n.children[b], t);
      KeysStartWithPath(load, len, n.children[b], Extend(path, p, b), t);
      assert load(t)[..|path|] == load(t)[..|Extend(path, p, b)|][..|path|];
    }
  }

  /** A key below n continues with the prefix of n, and its next byte names the child it is in. */
  lemma {:induction false} KeysContinue(load: nat -> Key, len: nat, n: Node, path: Key, p: Key, t: nat)
    requires Under(load, len, n, path, p) && Has(n, t)
    ensures t > 0 && |load(t)| == len && load(t)[..|path| + |p|] == path + p
    ensures var b := load(t)[|path| + |p|]; b in n.children && Has(n.children[b], t)
  {
    var b :| b in n.children && Has(n.children[b], t);
    var q := Extend(path, p, b);
    KeysStartWithPath(load, len, n.children[b], q, t);
    assert load(t)[..|q|][..|path| + |p|] == path + p;
    assert load(t)[..|q|][|path| + |p|] == b;
  }

  // ----- any key below a node -----

  /** The smallest byte from b on whose child is a leaf, or 256. */
  function FirstLeaf(children: map<Byte, Node>, b: nat): (r: nat)
    requires b <= 256
    ensures b <= r <= 256 && (r < 256 ==> r in children)
    decreases 256 - b
  {
    if b == 256 || (b in children && children[b].Leaf?) then b else FirstLeaf(children, b + 1)
  }

  function FirstChild(children: map<Byte, Node>, b: nat): (r: nat)
    requires b <= 256
    ensures b <= r <= 256 && (r < 256 ==> r in children)
    ensures forall c :: b <= c < r ==> c !in children
    decreases 256 - b
  {
    if b == 256 || b in children then b else FirstChild(children, b + 1)
  }

  /** One more than the greatest byte below b with a child, or 0. */
  function LastChild(children: map<Byte, Node>, b: nat): (r: nat)
    requires b <= 256
    ensures r <= b && (r > 0 ==> r - 1 in children)
    ensures forall c :: r <= c < b ==> c !in children
  {
    if b == 0 || b - 1 in children then b else LastChild(children, b - 1)
  }

  /** A leaf if there is one; else the last child, and the first in an N16. */
  function AnyChild(n: Node): (b: Byte)
    requires n.Inner? && n.children != map[]
    ensures b in n.children
  {
    var leaf := FirstLeaf(n.children, 0);
    assert exists c :: c in n.children;
    if leaf < 256 then leaf
    else if n.kind == N16 then FirstChild(n.children, 0)
    else LastChild(n.children, 256) - 1
  }

  function AnyTid(n: Node): nat {
    match n
    case Leaf(t) => t
    case Inner(_, _, _, children) => if children == map[] then 0 else AnyTid(children[AnyChild(n)])
  }

  lemma {:induction false} AnyTidIsThere(load: nat -> Key, len: nat, n: Node, path: Key)
    requires Ok(load, len, n, path)
    ensures Has(n, AnyTid(n))
    decreases n
  {
    if n.Inner? {
      var p :| Under(load, len, n, path, p);
      var b := AnyChild(n);
      AnyTidIsThere(load, len, n.children[b], Extend(path, p, b));
    }
  }

  // ----- prefixes -----

  datatype Check = NoMatch | Match(level: nat, optimistic: bool)

  /** Compare the stored bytes only; what is not stored is skipped. */
  function CheckPrefix(n: Node, k: Key, level: nat): Check
    requires n.Inner? && |n.stored| <= n.prefixLength
  {
    if n.prefixLength == 0 then Match(level, false)
    else if |k| <= level + n.prefixLength then NoMatch
    else if n.stored != k[level..level + |n.stored|] then NoMatch
    else Match(level + n.prefixLength, n.prefixLength > MAX_STORED)
  }

  /** Byte i of the prefix: stored, or taken from some key below. */
  function PrefixByte(load: nat -> Key, n: Node, level: nat, i: nat): Byte
    requires n.Inner? && i < n.prefixLength && |n.stored| == Min(n.prefixLength, MAX_STORED)
    requires level + n.prefixLength <= |load(AnyTid(n))|
  {
    if i >= MAX_STORED then load(AnyTid(n))[level + i] else n.stored[i]
  }

  /** How much of the prefix, from i on, the key matches. */
  function Matched(load: nat -> Key, n: Node, k: Key, level: nat, i: nat): (r: nat)
    requires n.Inner? && i <= n.prefixLength && |n.stored| == Min(n.prefixLength, MAX_STORED)
    requires level + n.prefixLength <= |load(AnyTid(n))| && level + n.prefixLength <= |k|
    ensures i <= r <= n.prefixLength
    ensures forall j :: i <= j < r ==> k[level + j] == PrefixByte(load, n, level, j)
    ensures r < n.prefixLength ==> k[level + r] != PrefixByte(load, n, level, r)
    decreases n.prefixLength - i
  {
    if i == n.prefixLength || PrefixByte(load, n, level, i) != k[level + i] then i
    else Matched(load, n, k, level, i + 1)
  }

  /** What is left of the stored bytes when byte i of the prefix becomes a branch. */
  function Remaining(load: nat -> Key, n: Node, level: nat, i: nat): Key
    requires n.Inner? && i < n.prefixLength && |n.stored| == Min(n.prefixLength, MAX_STORED)
    requires level + n.prefixLength <= |load(AnyTid(n))|
  {
    if n.prefixLength > MAX_STORED then
      var from := level + i + 1;
      load(AnyTid(n))[from..from + Min(n.prefixLength - i - 1, MAX_STORED)]
    else
      n.stored[i + 1..]
  }

  /** The bytes of the whole prefix are what the search reads. */
  lemma {:induction false} PrefixIs(load: nat -> Key, len: nat, n: Node, path: Key, p: Key)
    requires Under(load, len, n, path, p) && n.children != map[]
    ensures Has(n, AnyTid(n)) && |load(AnyTid(n))| == len
    ensures |n.stored| == Min(n.prefixLength, MAX_STORED)
    ensures forall i :: 0 <= i < |p| ==> PrefixByte(load, n, |path|, i) == p[i]
    ensures forall i :: 0 <= i < |p| ==> Remaining(load, n, |path|, i) == Stored(p[i + 1..])
  {
    var b := AnyChild(n);
    AnyTidIsThere(load, len, n.children[b], Extend(path, p, b));
    KeysContinue(load, len, n, path, p, AnyTid(n));
    var key := load(AnyTid(n));
    assert forall i :: 0 <= i < |p| ==> key[|path| + i] == key[..|path| + |p|][|path| + i] == p[i];
  }

  // ----- lookup -----

  /** r is the identifier stored for the key, or 0 when there is none. */
  ghost predicate Answers(load: nat -> Key, n: Node, k: Key, r: nat) {
    if r == 0 then forall t :: Has(n, t) ==> load(t) != k else Has(n, r) && load(r) == k
  }

  lemma {:induction false} SliceOfSlice(k: Key, i: nat, j: nat, m: nat)
    requires i <= j <= m <= |k|
    ensures k[i..j] == k[..m][i..j]
  {
  }

  /** A key that differs in a stored byte is not below the node. */
  lemma {:induction false} MismatchMeansAbsent(load: nat -> Key, len: nat, n: Node, path: Key, p: Key, k: Key, t: nat)
    requires Under(load, len, n, path, p) && |k| == len && Has(n, t) && load(t) == k
    ensures CheckPrefix(n, k, |path|) == Match(|path| + |p|, |p| > MAX_STORED)
    ensures k[|path| + |p|] in n.children && Has(n.children[k[|path| + |p|]], t)
  {
    KeysContinue(load, len, n, path, p, t);
    SliceOfSlice(k, |path|, |path| + |n.stored|, |path| + |p|);
  }

  /** Without unread bytes a match is a match of the whole prefix. */
  lemma {:induction false} MatchIsExact(n: Node, k: Key, path: Key, p: Key)
    requires n.Inner? && |p| == n.prefixLength && n.stored == Stored(p) && |path| + |p| < |k| && |p| <= MAX_STORED
    requires CheckPrefix(n, k, |path|).Match? && k[..|path|] == path
    ensures k[..|path| + |p|] == path + p
  {
    assert k[..|path| + |p|] == k[..|path|] + k[|path|..|path| + |p|];
  }

  /** For every key of the common length the lookup gives what the tree holds, whatever was skipped on the way. */
  method Lookup(load: nat -> Key, root: Node, k: Key) returns (r: nat)
    requires InnerOk(load, |k|, root, [], true)
    ensures Answers(load, root, k, r)
  {
    var node := root;
    var level := 0;
    var optimistic := false;
    ghost var path: Key := [];
    ghost var isRoot := true;
    while true
      invariant InnerOk(load, |k|, node, path, isRoot) && |path| == level <= |k|
      invariant !optimistic ==> k[..level] == path
      invariant forall t :: Has(root, t) && load(t) == k ==> Has(node, t)
      invariant forall t :: Has(node, t) ==> Has(root, t)
      decreases node
    {
      ghost var p :| Under(load, |k|, node, path, p);
      forall t | Has(node, t) && load(t) == k
        ensures CheckPrefix(node, k, level) == Match(level + |p|, |p| > MAX_STORED)
        ensures k[level + |p|] in node.children && Has(node.children[k[level + |p|]], t)
      {
        MismatchMeansAbsent(load, |k|, node, path, p, k, t);
      }
      var check := CheckPrefix(node, k, level);
      if check.NoMatch? {
        return 0;
      }
      if !optimistic && !check.optimistic {
        MatchIsExact(node, k, path, p);
      }
      optimistic := optimistic || check.optimistic;
      level := check.level;
      var b := k[level];
      if b !in node.children {
        return 0;
      }
      var child := node.children[b];
      ghost var path' := Extend(path, p, b);
      assert Ok(load, |k|, child, path');
      if child.Leaf? {
        assert Has(node, child.tid);
        if level < |k| - 1 || optimistic {
          if load(child.tid) == k {
            return child.tid;
          }
          return 0;
        }
        assert load(child.tid) == path' == k;
        return child.tid;
      }
      assert k[..level + 1] == k[..level] + [b];
      assert forall t :: Has(child, t) ==> Has(node, t);
      level := level + 1;
      node, path, isRoot := child, path', false;
    }
  }

  // ----- insert -----

  predicate IsFull(kind: Kind, size: nat) {
    match kind
    case N4 => size == 4
    case N16 => size == 16
    case N48 => size == 48
    case N256 => false
  }

  function Bigger(kind: Kind): Kind {
    match kind
    case N4 => N16
    case N16 => N48
    case _ => N256
  }

  /** insertGrow: one more child, in a node of the next kind if this one is full. */
  function AddChild(n: Node, b: Byte, c: Node): Node
    requires n.Inner?
  {
    n.(kind := if IsFull(n.kind, |n.children|) then Bigger(n.kind) else n.kind, children := n.children[b := c])
  }

  /** The first position from i on where two different keys differ. */
  function FirstDifference(k: Key, key: Key, i: nat): (r: nat)
    requires |k| == |key| && i <= |k| && k[i..] != key[i..]
    ensures i <= r < |k| && k[r] != key[r] && k[i..r] == key[i..r]
    decreases |k| - i
  {
    if k[i] != key[i] then i
    else
      assert k[i..] == [k[i]] + k[i + 1..] && key[i..] == [key[i]] + key[i + 1..];
      var r := FirstDifference(k, key, i + 1);
      assert k[i..r] == [k[i]] + k[i + 1..r] && key[i..r] == [key[i]] + key[i + 1..r];
      r
  }

  /** A new N4 with two children, and as much of its prefix as is stored. */
  function Fork(p: Key, prefixLength: nat, b: Byte, m: Node, c: Byte, n: Node): Node
    requires Min(prefixLength, MAX_STORED) <= |p|
  {
    Inner(N4, prefixLength, p[..Min(prefixLength, MAX_STORED)], map[b := m, c := n])
  }

  /** setPrefix */
  function WithPrefix(n: Node, p: Key, prefixLength: nat): Node
    requires n.Inner? && Min(prefixLength, MAX_STORED) <= |p|
  {
    n.(prefixLength := prefixLength, stored := p[..Min(prefixLength, MAX_STORED)])
  }

  lemma {:induction false} Bounds(load: nat -> Key, len: nat, n: Node, path: Key, root: bool)
    requires InnerOk(load, len, n, path, root)
    ensures |path| + n.prefixLength < len && n.Inner?
    ensures |n.stored| == Min(n.prefixLength, MAX_STORED)
    ensures n.prefixLength > 0 ==> n.children != map[]
    ensures n.prefixLength > 0 ==> |load(AnyTid(n))| == len
    ensures n.prefixLength > 0 ==> forall i :: 0 <= i < n.prefixLength ==>
      |Remaining(load, n, |path|, i)| == Min(n.prefixLength - i - 1, MAX_STORED)
  {
    var p :| Under(load, len, n, path, p);
    if n.prefixLength > 0 {
      PrefixIs(load, len, n, path, p);
    }
  }

  function MatchedAll(load: nat -> Key, n: Node, k: Key, level: nat, root: bool): (r: nat)
    requires level <= |k| && InnerOk(load, |k|, n, Upto(k, level), root)
    ensures r <= n.prefixLength
  {
    Bounds(load, |k|, n, Upto(k, level), root);
    if n.prefixLength == 0 then 0 else Matched(load, n, k, level, 0)
  }

  /** The prefix is cut at byte m: a new parent with the bytes before it, and the key beside the node. */
  function InsertCut(load: nat -> Key, n: Node, k: Key, tid: nat, level: nat, m: nat): Node
    requires n.Inner? && m < n.prefixLength && |n.stored| == Min(n.prefixLength, MAX_STORED)
    requires level + n.prefixLength <= |load(AnyTid(n))| && level + m < |k|
    requires |Remaining(load, n, level, m)| == Min(n.prefixLength - m - 1, MAX_STORED)
  {
    Fork(n.stored, m, k[level + m], Leaf(tid), PrefixByte(load, n, level, m),
      WithPrefix(n, Remaining(load, n, level, m), n.prefixLength - m - 1))
  }

  /** The node after the insert; its parent is changed to point to it. */
  function Insert(load: nat -> Key, n: Node, k: Key, tid: nat, level: nat, root: bool): Node
    requires level <= |k| && InnerOk(load, |k|, n, Upto(k, level), root)
    decreases n, 1
  {
    Bounds(load, |k|, n, Upto(k, level), root);
    var m := MatchedAll(load, n, k, level, root);
    if m < n.prefixLength then InsertCut(load, n, k, tid, level, m)
    else
      var l := level + m;
      var b := k[l];
      if b !in n.children then AddChild(n, b, Leaf(tid))
      else
        MatchedChild(load, n, k, level, root, b);
        n.(children := n.children[b := NewChild(load, n.children[b], k, tid, l + 1)])
  }

  /** The child for the key after the insert, when there was one: a leaf is replaced or shares a new node with the key. */
  function NewChild(load: nat -> Key, child: Node, k: Key, tid: nat, l: nat): Node
    requires 0 < l <= |k| && Ok(load, |k|, child, Upto(k, l))
    requires child.Inner? ==> InnerOk(load, |k|, child, Upto(k, l), false)
    decreases child, 2
  {
    if child.Leaf? then
      var key := load(child.tid);
      if key == k then Leaf(tid)
      else
        var d := DifferenceBelow(k, key, l);
        Fork(k[l..], d - l, k[d], Leaf(tid), key[d], child)
    else
      Insert(load, child, k, tid, l, false)
  }

  function DifferenceBelow(k: Key, key: Key, i: nat): (r: nat)
    requires |k| == |key| && i <= |k| && k != key && k[..i] == key[..i]
    ensures i <= r < |k| && k[r] != key[r] && k[..r] == key[..r]
  {
    assert k == k[..i] + k[i..] && key == key[..i] + key[i..];
    var r := FirstDifference(k, key, i);
    assert k[..r] == k[..i] + k[i..r] && key[..r] == key[..i] + key[i..r];
    r
  }

  /** After a full match the path to the child is a prefix of the key. */
  lemma {:induction false} MatchedChild(load: nat -> Key, n: Node, k: Key, level: nat, root: bool, b: Byte)
    requires level <= |k| && InnerOk(load, |k|, n, Upto(k, level), root)
    requires MatchedAll(load, n, k, level, root) == n.prefixLength
    requires level + n.prefixLength < |k| && b == k[level + n.prefixLength] && b in n.children
    ensures Ok(load, |k|, n.children[b], Upto(k, level + n.prefixLength + 1))
    ensures n.children[b].Inner? ==> InnerOk(load, |k|, n.children[b], Upto(k, level + n.prefixLength + 1), false)
  {
    var p := MatchedPath(load, n, k, level, root);
    assert Upto(k, level + |p| + 1) == Extend(Upto(k, level), p, b);
    assert Ok(load, |k|, n.children[b], Upto(k, level + |p| + 1));
    if n.children[b].Inner? {
      OkInner(load, |k|, n.children[b], Upto(k, level + |p| + 1));
    }
  }

  lemma {:induction false} OkInner(load: nat -> Key, len: nat, n: Node, path: Key)
    requires n.Inner?
    ensures Ok(load, len, n, path) <==> InnerOk(load, len, n, path, false)
  {
  }

  lemma {:induction false} MatchedPath(load: nat -> Key, n: Node, k: Key, level: nat, root: bool) returns (p: Key)
    requires level <= |k| && InnerOk(load, |k|, n, Upto(k, level), root)
    requires MatchedAll(load, n, k, level, root) == n.prefixLength
    ensures Under(load, |k|, n, Upto(k, level), p) && Upto(k, level + n.prefixLength) == Upto(k, level) + p
  {
    p :| Under(load, |k|, n, Upto(k, level), p);
    if n.prefixLength > 0 {
      PrefixIs(load, |k|, n, Upto(k, level), p);
      assert forall i :: 0 <= i < |p| ==> k[level + i] == p[i];
    }
  }

  /** The new tree holds the new identifier and all others but those of the same key. */
  ghost predicate Inserted(load: nat -> Key, n: Node, k: Key, tid: nat, n': Node) {
    forall x :: Has(n', x) <==> x == tid || (Has(n, x) && load(x) != k)
  }

  /** Some child other than the one at b holds it. */
  ghost predicate HasElsewhere(n: Node, b: Byte, x: nat)
    requires n.Inner?
  {
    exists a :: a in n.children && a != b && Has(n.children[a], x)
  }

  lemma {:induction false} HasSplit(n: Node, b: Byte, x: nat)
    requires n.Inner?
    ensures Has(n, x) <==> HasElsewhere(n, b, x) || (b in n.children && Has(n.children[b], x))
  {
  }

  lemma {:induction false} HasReplaced(n: Node, b: Byte, c: Node, n': Node, x: nat)
    requires n.Inner? && n'.Inner? && n'.children == n.children[b := c]
    ensures Has(n', x) <==> HasElsewhere(n, b, x) || Has(c, x)
  {
    HasSplit(n', b, x);
    assert HasElsewhere(n', b, x) <==> HasElsewhere(n, b, x) by {
      if HasElsewhere(n, b, x) {
        var a :| a in n.children && a != b && Has(n.children[a], x);
        assert a in n'.children && Has(n'.children[a], x);
      }
      if HasElsewhere(n', b, x) {
        var a :| a in n'.children && a != b && Has(n'.children[a], x);
        assert a in n.children && Has(n.children[a], x);
      }
    }
  }

  /** Children at other bytes hold other keys. */
  lemma {:induction false} ElsewhereDiffers(load: nat -> Key, len: nat, n: Node, path: Key, p: Key, k: Key, x: nat)
    requires Under(load, len, n, path, p) && |k| == len
    requires HasElsewhere(n, k[|path| + |p|], x)
    ensures load(x) != k
  {
    var a :| a in n.children && a != k[|path| + |p|] && Has(n.children[a], x);
    var q := Extend(path, p, a);
    KeysStartWithPath(load, len, n.children[a], q, x);
    assert load(x)[..|q|][|path| + |p|] == a;
  }

  lemma {:induction false} UnderReplaced(load: nat -> Key, len: nat, n: Node, path: Key, p: Key, b: Byte, c: Node, n': Node)
    requires Under(load, len, n, path, p) && Ok(load, len, c, Extend(path, p, b))
    requires n'.Inner? && n'.prefixLength == n.prefixLength && n'.stored == n.stored && n'.children == n.children[b := c]
    ensures Under(load, len, n', path, p)
  {
  }

  /** Replacing the child for the key's next byte by one that has the key inserted. */
  lemma {:induction false} ChildInserted(load: nat -> Key, n: Node, k: Key, tid: nat, path: Key, p: Key, b: Byte, c: Node, n': Node)
    requires Under(load, |k|, n, path, p) && b == k[|path| + |p|] && Ok(load, |k|, c, Extend(path, p, b))
    requires n'.Inner? && n'.prefixLength == n.prefixLength && n'.stored == n.stored && n'.children == n.children[b := c]
    requires if b in n.children then Inserted(load, n.children[b], k, tid, c) else c == Leaf(tid)
    ensures Under(load, |k|, n', path, p) && Inserted(load, n, k, tid, n')
  {
    UnderReplaced(load, |k|, n, path, p, b, c, n');
    forall x
      ensures Has(n', x) <==> x == tid || (Has(n, x) && load(x) != k)
    {
      HasReplaced(n, b, c, n', x);
      HasSplit(n, b, x);
      if HasElsewhere(n, b, x) {
        ElsewhereDiffers(load, |k|, n, path, p, k, x);
      }
    }
  }

  lemma {:induction false} ForkOk(load: nat -> Key, len: nat, path: Key, p: Key, b: Byte, m: Node, c: Byte, n: Node, stored: Key)
    requires b != c && |path| + |p| < len && Min(|p|, MAX_STORED) <= |stored|
    requires stored[..Min(|p|, MAX_STORED)] == Stored(p)
    requires Ok(load, len, m, Extend(path, p, b)) && Ok(load, len, n, Extend(path, p, c))
    ensures Ok(load, len, Fork(stored, |p|, b, m, c, n), path)
    ensures forall x :: Has(Fork(stored, |p|, b, m, c, n), x) <==> Has(m, x) || Has(n, x)
  {
    var f := Fork(stored, |p|, b, m, c, n);
    assert |f.children| == 2 by {
      assert f.children.Keys == {b, c};
      assert |f.children.Keys| == |f.children|;
    }
    assert Under(load, len, f, path, p);
    forall x
      ensures Has(f, x) <==> Has(m, x) || Has(n, x)
    {
      assert b in f.children && f.children[b] == m && c in f.children && f.children[c] == n;
    }
  }

  /** Where the key leaves the prefix. */
  lemma {:induction false} Leaves(load: nat -> Key, n: Node, k: Key, level: nat, p: Key, m: nat)
    requires level <= |k| && InnerOk(load, |k|, n, Upto(k, level), false) && Under(load, |k|, n, Upto(k, level), p)
    requires m == MatchedAll(load, n, k, level, false) < n.prefixLength
    ensures m < |p| && level + |p| < |k| && k[level + m] != p[m]
    ensures Upto(k, level + m + 1) == Extend(Upto(k, level), p[..m], k[level + m])
  {
    Bounds(load, |k|, n, Upto(k, level), false);
    UptoLength(k, level);
    UnderLength(load, |k|, n, Upto(k, level), p);
    SameBytes(load, |k|, n, Upto(k, level), p, level);
    AgreesThenLeaves(load, n, k, level, p, m);
    hide Upto, Extend, Under, InnerOk, PrefixByte, MatchedAll, Agrees;
    PathInside(k, level, p, m);
  }

  /** The key and the prefix have the same bytes for a while. */
  predicate Agrees(k: Key, level: nat, p: Key, m: nat) {
    level + m <= |k| && m <= |p| && forall j :: 0 <= j < m ==> k[level + j] == p[j]
  }

  lemma {:induction false} AgreesThenLeaves(load: nat -> Key, n: Node, k: Key, level: nat, p: Key, m: nat)
    requires n.Inner? && |n.stored| == Min(n.prefixLength, MAX_STORED) && |p| == n.prefixLength && m <= |p|
    requires level + |p| < |k| == |load(AnyTid(n))|
    requires forall i :: 0 <= i < |p| ==> PrefixByte(load, n, level, i) == p[i]
    requires m == Matched(load, n, k, level, 0)
    ensures Agrees(k, level, p, m) && (m < |p| ==> k[level + m] != p[m])
  {
    forall j | 0 <= j < m
      ensures k[level + j] == p[j]
    {
      assert PrefixByte(load, n, level, j) == p[j];
    }
  }

  lemma {:induction false} SameBytes(load: nat -> Key, len: nat, n: Node, path: Key, p: Key, level: nat)
    requires Under(load, len, n, path, p) && n.children != map[] && level == |path|
    ensures |n.stored| == Min(n.prefixLength, MAX_STORED) && |p| == n.prefixLength && level + |p| < len == |load(AnyTid(n))|
    ensures forall i :: 0 <= i < |p| ==> PrefixByte(load, n, level, i) == p[i]
  {
    PrefixIs(load, len, n, path, p);
  }

  lemma {:induction false} PathInside(k: Key, level: nat, p: Key, m: nat)
    requires level + m < |k| && Agrees(k, level, p, m)
    ensures Upto(k, level + m + 1) == Extend(Upto(k, level), p[..m], k[level + m])
  {
  }

  lemma {:induction false} NotBelow(load: nat -> Key, len: nat, n: Node, path: Key, p: Key, m: nat, k: Key, x: nat)
    requires Under(load, len, n, path, p) && Has(n, x) && m < |p| && |path| + m < |k| && k[|path| + m] != p[m]
    ensures load(x) != k
  {
    KeysContinue(load, len, n, path, p, x);
    assert load(x)[..|path| + |p|][|path| + m] == p[m];
  }

  lemma {:induction false} SameHas(n: Node, m: Node, x: nat)
    requires n.Inner? && m.Inner? && m.children == n.children
    ensures Has(n, x) <==> Has(m, x)
  {
  }

  lemma {:induction false} InsertedAbove(load: nat -> Key, n: Node, k: Key, tid: nat, below: Node, f: Node)
    requires forall x :: Has(n, x) ==> load(x) != k
    requires forall x :: Has(below, x) <==> Has(n, x)
    requires forall x :: Has(f, x) <==> Has(Leaf(tid), x) || Has(below, x)
    ensures Inserted(load, n, k, tid, f)
  {
  }

  /** The prefix is cut where the key leaves it. */
  lemma {:induction false} InsertCuts(load: nat -> Key, n: Node, k: Key, tid: nat, level: nat, m: nat)
    requires level <= |k| && InnerOk(load, |k|, n, Upto(k, level), false) && load(tid) == k && tid > 0
    requires m == MatchedAll(load, n, k, level, false) < n.prefixLength
    ensures Ok(load, |k|, Insert(load, n, k, tid, level, false), Upto(k, level))
    ensures Inserted(load, n, k, tid, Insert(load, n, k, tid, level, false))
  {
    var p :| Under(load, |k|, n, Upto(k, level), p);
    hide *;
    var path := Upto(k, level);
    UptoLength(k, level);
    Bounds(load, |k|, n, path, false);
    Leaves(load, n, k, level, p, m);
    CutNodeIsCorrect(load, n, path, p, m, k, tid, level);
    InsertIsCut(load, n, k, tid, level, m);
  }

  lemma {:induction false} CutNodeIsCorrect(load: nat -> Key, n: Node, path: Key, p: Key, m: nat, k: Key, tid: nat, level: nat)
    requires InnerOk(load, |k|, n, path, false) && Under(load, |k|, n, path, p) && m < |p| && level == |path| && level + |p| < |k|
    requires load(tid) == k && tid > 0 && k[level + m] != p[m] && n.Inner? && n.children != map[]
    requires Upto(k, level + m + 1) == Extend(path, p[..m], k[level + m])
    ensures m < n.prefixLength == |p| && |n.stored| == Min(n.prefixLength, MAX_STORED)
    ensures level + n.prefixLength <= |load(AnyTid(n))|
    ensures |Remaining(load, n, level, m)| == Min(n.prefixLength - m - 1, MAX_STORED)
    ensures Ok(load, |k|, InsertCut(load, n, k, tid, level, m), path)
    ensures Inserted(load, n, k, tid, InsertCut(load, n, k, tid, level, m))
  {
    hide *;
    UnderLength(load, |k|, n, path, p);
    CutStored(p, m);
    CutFacts(load, |k|, n, path, p, level, m);
    CutIs(load, n, k, tid, level, p, m);
    CutIsCorrect(load, n, path, p, m, k, tid);
  }

  ghost function Cut(n: Node, p: Key, m: nat): Node
    requires n.Inner? && m < |p|
  {
    n.(prefixLength := |p| - m - 1, stored := Stored(p[m + 1..]))
  }

  lemma {:induction false} CutIsCorrect(load: nat -> Key, n: Node, path: Key, p: Key, m: nat, k: Key, tid: nat)
    requires InnerOk(load, |k|, n, path, false) && Under(load, |k|, n, path, p) && m < |p| && |path| + |p| < |k|
    requires load(tid) == k && tid > 0 && k[|path| + m] != p[m]
    requires Upto(k, |path| + m + 1) == Extend(path, p[..m], k[|path| + m])
    requires Min(m, MAX_STORED) <= |n.stored| && n.stored[..Min(m, MAX_STORED)] == Stored(p[..m])
    ensures var f := Fork(n.stored, m, k[|path| + m], Leaf(tid), p[m], Cut(n, p, m));
      Ok(load, |k|, f, path) && Inserted(load, n, k, tid, f)
  {
    hide Has, Ok, Under, Inserted, Stored, Fork;
    var below := Cut(n, p, m);
    CutBelow(load, |k|, n, path, p, m, below);
    LeafOk(load, k, tid, |path| + m + 1);
    ForkOk(load, |k|, path, p[..m], k[|path| + m], Leaf(tid), p[m], below, n.stored);
    forall x
      ensures (Has(n, x) ==> load(x) != k) && (Has(below, x) <==> Has(n, x))
    {
      SameHas(n, below, x);
      if Has(n, x) {
        NotBelow(load, |k|, n, path, p, m, k, x);
      }
    }
    InsertedAbove(load, n, k, tid, below, Fork(n.stored, m, k[|path| + m], Leaf(tid), p[m], below));
  }

  lemma {:induction false} UptoLength(k: Key, l: nat)
    requires l <= |k|
    ensures |Upto(k, l)| == l
  {
  }

  lemma {:induction false} InsertIsCut(load: nat -> Key, n: Node, k: Key, tid: nat, level: nat, m: nat)
    requires level <= |k| && InnerOk(load, |k|, n, Upto(k, level), false)
    requires m == MatchedAll(load, n, k, level, false) < n.prefixLength
    requires |n.stored| == Min(n.prefixLength, MAX_STORED) && level + n.prefixLength < |k| && |load(AnyTid(n))| == |k|
    requires |Remaining(load, n, level, m)| == Min(n.prefixLength - m - 1, MAX_STORED)
    ensures Insert(load, n, k, tid, level, false) == InsertCut(load, n, k, tid, level, m)
  {
    hide InsertCut, MatchedAll, InnerOk, Remaining, AddChild, NewChild;
  }

  lemma {:induction false} CutFacts(load: nat -> Key, len: nat, n: Node, path: Key, p: Key, level: nat, m: nat)
    requires Under(load, len, n, path, p) && n.children != map[] && level == |path| && m < |p|
    ensures |p| == n.prefixLength && level + |p| < len
    ensures |load(AnyTid(n))| == len && |n.stored| == Min(n.prefixLength, MAX_STORED)
    ensures PrefixByte(load, n, level, m) == p[m] && Remaining(load, n, level, m) == Stored(p[m + 1..])
  {
    PrefixIs(load, len, n, path, p);
  }

  lemma {:induction false} CutIs(load: nat -> Key, n: Node, k: Key, tid: nat, level: nat, p: Key, m: nat)
    requires n.Inner? && |p| == n.prefixLength && m < |p| && level + |p| < |k|
    requires |load(AnyTid(n))| == |k| && |n.stored| == Min(n.prefixLength, MAX_STORED)
    requires Min(m, MAX_STORED) <= |n.stored|
    requires PrefixByte(load, n, level, m) == p[m] && Remaining(load, n, level, m) == Stored(p[m + 1..])
    ensures |Remaining(load, n, level, m)| == Min(n.prefixLength - m - 1, MAX_STORED)
    ensures InsertCut(load, n, k, tid, level, m) == Fork(n.stored, m, k[level + m], Leaf(tid), p[m], Cut(n, p, m))
  {
    CutStored(p, m);
    hide Fork, Remaining, PrefixByte, Stored, Min;
  }

  lemma {:induction false} CutStored(p: Key, m: nat)
    requires m < |p|
    ensures |Stored(p[m + 1..])| == Min(|p| - m - 1, MAX_STORED)
    ensures Stored(p[m + 1..])[..Min(|p| - m - 1, MAX_STORED)] == Stored(p[m + 1..])
    ensures Min(m, MAX_STORED) <= |Stored(p)| && Stored(p)[..Min(m, MAX_STORED)] == Stored(p[..m])
  {
    StoredPart(p, m);
  }

  lemma {:induction false} StoredPart(p: Key, m: nat)
    requires m < |p|
    ensures Min(m, MAX_STORED) <= |Stored(p)| && Stored(p)[..Min(m, MAX_STORED)] == Stored(p[..m])
  {
  }

  /** The node below a cut keeps its children and the rest of its prefix. */
  lemma {:induction false} CutBelow(load: nat -> Key, len: nat, n: Node, path: Key, p: Key, m: nat, below: Node)
    requires InnerOk(load, len, n, path, false) && Under(load, len, n, path, p) && m < |p|
    requires below == n.(prefixLength := |p| - m - 1, stored := Stored(p[m + 1..]))
    ensures Ok(load, len, below, Extend(path, p[..m], p[m]))
  {
    var path' := Extend(path, p[..m], p[m]);
    assert p == p[..m] + [p[m]] + p[m + 1..];
    forall b | b in n.children
      ensures Ok(load, len, below.children[b], Extend(path', p[m + 1..], b))
    {
      assert Extend(path', p[m + 1..], b) == Extend(path, p, b);
    }
    assert Under(load, len, below, path', p[m + 1..]);
  }

  lemma {:induction false} FewBytes(s: set<Byte>)
    ensures |s| <= 256
  {
    BytesBelow(s, 256);
  }

  lemma {:induction false} BytesBelow(s: set<Byte>, n: nat)
    requires n <= 256 && forall b :: b in s ==> b < n
    ensures |s| <= n
  {
    if n > 0 {
      var rest := s - {n - 1};
      BytesBelow(rest, n - 1);
      assert s <= rest + {n - 1};
      SmallerSet(s, rest + {n - 1});
    }
  }

  lemma {:induction false} SmallerSet(a: set<Byte>, b: set<Byte>)
    requires a <= b
    ensures |a| <= |b|
  {
    assert b == a + (b - a);
  }

  lemma {:induction false} AddedSized(n: Node, b: Byte, c: Node)
    requires n.Inner? && b !in n.children && Sized(n.kind, |n.children|)
    ensures Sized(AddChild(n, b, c).kind, |AddChild(n, b, c).children|)
  {
    var cs := n.children[b := c];
    assert cs.Keys == n.children.Keys + {b};
    assert |cs.Keys| == |cs| && |n.children.Keys| == |n.children|;
    FewBytes(cs.Keys);
  }

  lemma {:induction false} ForkPaths(k: Key, key: Key, l: nat, d: nat)
    requires l <= d < |k| == |key| && k[..d] == key[..d]
    ensures Extend(Upto(k, l), k[l..d], k[d]) == Upto(k, d + 1) && Extend(Upto(k, l), k[l..d], key[d]) == Upto(key, d + 1)
    ensures k[l..][..Min(d - l, MAX_STORED)] == Stored(k[l..d])
  {
    assert k[..l] + k[l..d] == k[..d];
    assert key[..d + 1] == key[..d] + [key[d]];
    var m := Min(d - l, MAX_STORED);
    assert k[l..][..m] == k[l..l + m] == k[l..d][..m];
  }

  /** A leaf with another key becomes a fork that both keys reach. */
  lemma {:induction false} InsertForks(load: nat -> Key, k: Key, tid: nat, l: nat, t: nat)
    requires l <= |k| && Ok(load, |k|, Leaf(t), Upto(k, l)) && load(t) != k && load(tid) == k && tid > 0
    ensures var d := DifferenceBelow(k, load(t), l);
      var f := Fork(k[l..], d - l, k[d], Leaf(tid), load(t)[d], Leaf(t));
      Ok(load, |k|, f, Upto(k, l)) && Inserted(load, Leaf(t), k, tid, f)
  {
    var key := load(t);
    assert t > 0 && |key| == |k| && k[..l] == key[..l];
    var d := DifferenceBelow(k, key, l);
    var p := k[l..d];
    ForkPaths(k, key, l, d);
    LeafOk(load, k, tid, d + 1);
    LeafOk(load, key, t, d + 1);
    OneKey(load, t);
    hide Ok, Upto, Extend, Fork, Stored, DifferenceBelow, Has, Inserted;
    ForkOk(load, |k|, Upto(k, l), p, k[d], Leaf(tid), key[d], Leaf(t), k[l..]);
    assert |p| == d - l;
    var f := Fork(k[l..], d - l, k[d], Leaf(tid), key[d], Leaf(t));
    InsertedAbove(load, Leaf(t), k, tid, Leaf(t), f);
  }

  lemma {:induction false} OneKey(load: nat -> Key, t: nat)
    ensures forall x :: Has(Leaf(t), x) ==> load(x) == load(t)
  {
  }

  lemma {:induction false} InsertIsAdd(load: nat -> Key, n: Node, k: Key, tid: nat, level: nat, root: bool, l: nat)
    requires level <= |k| && InnerOk(load, |k|, n, Upto(k, level), root)
    requires MatchedAll(load, n, k, level, root) == n.prefixLength && l == level + n.prefixLength < |k|
    requires n.Inner? && k[l] !in n.children
    ensures Insert(load, n, k, tid, level, root) == AddChild(n, k[l], Leaf(tid))
  {
    hide InsertCut, MatchedAll, InnerOk, Remaining, AddChild, NewChild;
  }

  lemma {:induction false} InsertIsBelow(load: nat -> Key, n: Node, k: Key, tid: nat, level: nat, root: bool, l: nat)
    requires level <= |k| && InnerOk(load, |k|, n, Upto(k, level), root)
    requires MatchedAll(load, n, k, level, root) == n.prefixLength && l == level + n.prefixLength < |k|
    requires n.Inner? && k[l] in n.children && Ok(load, |k|, n.children[k[l]], Upto(k, l + 1))
    requires n.children[k[l]].Inner? ==> InnerOk(load, |k|, n.children[k[l]], Upto(k, l + 1), false)
    ensures Insert(load, n, k, tid, level, root) ==
      n.(children := n.children[k[l] := NewChild(load, n.children[k[l]], k, tid, l + 1)])
  {
    hide InsertCut, MatchedAll, InnerOk, Remaining, AddChild, NewChild;
  }

  lemma {:induction false} SameSize(n: Node, b: Byte, c: Node)
    requires n.Inner? && b in n.children
    ensures |n.children[b := c]| == |n.children|
  {
    assert n.children[b := c].Keys == n.children.Keys;
    assert |n.children[b := c].Keys| == |n.children[b := c]| && |n.children.Keys| == |n.children|;
  }

  lemma {:induction false} NowOk(load: nat -> Key, len: nat, n: Node, path: Key, p: Key, root: bool)
    requires Under(load, len, n, path, p) && RightSize(n, path, root)
    ensures InnerOk(load, len, n, path, root)
  {
  }

  /** The insert below an inner child was right. */
  ghost predicate BelowOk(load: nat -> Key, child: Node, k: Key, tid: nat, l: nat)
    requires l <= |k|
  {
    child.Inner? ==>
      && InnerOk(load, |k|, child, Upto(k, l), false)
      && InnerOk(load, |k|, Insert(load, child, k, tid, l, false), Upto(k, l), false)
      && Inserted(load, child, k, tid, Insert(load, child, k, tid, l, false))
  }

  /**
   * Insert keeps the tree well formed, with at least two children in every node below the root,
   * and the tree then holds the new identifier for the key and everything else as before.
   */
  lemma {:induction false} InsertIsCorrect(load: nat -> Key, n: Node, k: Key, tid: nat, level: nat, root: bool)
    requires level <= |k| && InnerOk(load, |k|, n, Upto(k, level), root) && load(tid) == k && tid > 0
    ensures InnerOk(load, |k|, Insert(load, n, k, tid, level, root), Upto(k, level), root)
    ensures Inserted(load, n, k, tid, Insert(load, n, k, tid, level, root))
    decreases n
  {
    Bounds(load, |k|, n, Upto(k, level), root);
    if MatchedAll(load, n, k, level, root) < n.prefixLength {
      hide Has, Ok, Under, Insert, MatchedAll, Inserted;
      InsertCuts(load, n, k, tid, level, MatchedAll(load, n, k, level, root));
      OkInner(load, |k|, Insert(load, n, k, tid, level, root), Upto(k, level));
    } else {
      var b := k[level + n.prefixLength];
      hide Has, Ok, Under, Insert, MatchedAll, Inserted, InnerOk;
      if b in n.children && n.children[b].Inner? {
        MatchedChild(load, n, k, level, root, b);
        InsertIsCorrect(load, n.children[b], k, tid, level + n.prefixLength + 1, false);
      }
      InsertMatched(load, n, k, tid, level, root);
    }
  }

  lemma {:induction false} SizeIsRight(load: nat -> Key, len: nat, n: Node, path: Key, root: bool)
    requires n.Inner? && InnerOk(load, len, n, path, root)
    ensures RightSize(n, path, root)
  {
  }

  lemma {:induction false} InsertMatched(load: nat -> Key, n: Node, k: Key, tid: nat, level: nat, root: bool)
    requires n.Inner? && level <= |k| && InnerOk(load, |k|, n, Upto(k, level), root) && load(tid) == k && tid > 0
    requires MatchedAll(load, n, k, level, root) == n.prefixLength && level + n.prefixLength < |k|
    requires var l := level + n.prefixLength; k[l] in n.children ==> BelowOk(load, n.children[k[l]], k, tid, l + 1)
    ensures InnerOk(load, |k|, Insert(load, n, k, tid, level, root), Upto(k, level), root)
    ensures Inserted(load, n, k, tid, Insert(load, n, k, tid, level, root))
  {
    hide *;
    var path := Upto(k, level);
    SizeIsRight(load, |k|, n, path, root);
    var p := MatchedPath(load, n, k, level, root);
    UnderLength(load, |k|, n, path, p);
    PathStep(k, level, p);
    var l := level + n.prefixLength;
    var b := k[l];
    if b in n.children {
      MatchedChild(load, n, k, level, root, b);
      PresentChild(load, n, k, tid, path, root, p, b, l);
      InsertIsBelow(load, n, k, tid, level, root, l);
    } else {
      LeafOk(load, k, tid, l + 1);
      InsertNewChild(load, n, k, tid, path, root, p, b);
      NowOk(load, |k|, AddChild(n, b, Leaf(tid)), path, p, root);
      InsertIsAdd(load, n, k, tid, level, root, l);
    }
  }

  lemma {:induction false} PresentChild(load: nat -> Key, n: Node, k: Key, tid: nat, path: Key, root: bool, p: Key, b: Byte, l: nat)
    requires n.Inner? && l == |path| + |p| < |k| && RightSize(n, path, root) && Under(load, |k|, n, path, p)
    requires load(tid) == k && tid > 0 && b == k[l] && Extend(path, p, b) == Upto(k, l + 1)
    requires b in n.children && Ok(load, |k|, n.children[b], Upto(k, l + 1))
    requires n.children[b].Inner? ==> InnerOk(load, |k|, n.children[b], Upto(k, l + 1), false)
    requires BelowOk(load, n.children[b], k, tid, l + 1)
    ensures var n' := n.(children := n.children[b := NewChild(load, n.children[b], k, tid, l + 1)]);
      InnerOk(load, |k|, n', path, root) && Inserted(load, n, k, tid, n')
  {
    hide *;
    NewChildOk(load, n.children[b], k, tid, l + 1);
    var c := NewChild(load, n.children[b], k, tid, l + 1);
    InsertInChild(load, n, k, tid, path, root, p, b, c);
    NowOk(load, |k|, n.(children := n.children[b := c]), path, p, root);
  }

  lemma {:induction false} NewChildOk(load: nat -> Key, child: Node, k: Key, tid: nat, l: nat)
    requires 0 < l <= |k| && Ok(load, |k|, child, Upto(k, l)) && load(tid) == k && tid > 0
    requires BelowOk(load, child, k, tid, l) && (child.Inner? ==> InnerOk(load, |k|, child, Upto(k, l), false))
    ensures Ok(load, |k|, NewChild(load, child, k, tid, l), Upto(k, l))
    ensures Inserted(load, child, k, tid, NewChild(load, child, k, tid, l))
  {
    hide Ok, Inserted, Insert, InnerOk;
    if child.Inner? {
      InnerIsOk(load, |k|, NewChild(load, child, k, tid, l), Upto(k, l));
    } else {
      NewLeafOk(load, child.tid, k, tid, l);
    }
  }

  lemma {:induction false} InnerIsOk(load: nat -> Key, len: nat, n: Node, path: Key)
    requires InnerOk(load, len, n, path, false)
    ensures Ok(load, len, n, path)
  {
  }

  lemma {:induction false} InsertNewChild(load: nat -> Key, n: Node, k: Key, tid: nat, path: Key, root: bool, p: Key, b: Byte)
    requires RightSize(n, path, root) && Under(load, |k|, n, path, p) && |path| + |p| < |k| && b == k[|path| + |p|]
    requires Ok(load, |k|, Leaf(tid), Extend(path, p, b))
    requires b !in n.children
    ensures RightSize(AddChild(n, b, Leaf(tid)), path, root)
    ensures Under(load, |k|, AddChild(n, b, Leaf(tid)), path, p)
    ensures Inserted(load, n, k, tid, AddChild(n, b, Leaf(tid)))
  {
    var n' := AddChild(n, b, Leaf(tid));
    hide Has, Ok, Under, Inserted, InnerOk;
    ChildInserted(load, n, k, tid, path, p, b, Leaf(tid), n');
    if !root {
      AddedSized(n, b, Leaf(tid));
    }
  }

  lemma {:induction false} InsertInChild(load: nat -> Key, n: Node, k: Key, tid: nat, path: Key, root: bool, p: Key, b: Byte, c: Node)
    requires RightSize(n, path, root) && Under(load, |k|, n, path, p) && |path| + |p| < |k| && b == k[|path| + |p|]
    requires b in n.children && Ok(load, |k|, c, Extend(path, p, b)) && Inserted(load, n.children[b], k, tid, c)
    ensures RightSize(n.(children := n.children[b := c]), path, root)
    ensures Under(load, |k|, n.(children := n.children[b := c]), path, p)
    ensures Inserted(load, n, k, tid, n.(children := n.children[b := c]))
  {
    var n' := n.(children := n.children[b := c]);
    hide Has, Ok, Under, Inserted, InnerOk;
    ChildInserted(load, n, k, tid, path, p, b, c, n');
    SameSize(n, b, c);
  }

  lemma {:induction false} PathStep(k: Key, level: nat, p: Key)
    requires level + |p| < |k| && Upto(k, level + |p|) == Upto(k, level) + p
    ensures Extend(Upto(k, level), p, k[level + |p|]) == Upto(k, level + |p| + 1) && |Upto(k, level)| == level
  {
  }

  lemma {:induction false} UnderLength(load: nat -> Key, len: nat, n: Node, path: Key, p: Key)
    requires Under(load, len, n, path, p)
    ensures n.Inner? && |p| == n.prefixLength && |path| + |p| < len && n.stored == Stored(p)
  {
  }

  lemma {:induction false} LeafOk(load: nat -> Key, k: Key, tid: nat, l: nat)
    requires load(tid) == k && tid > 0 && l <= |k|
    ensures Ok(load, |k|, Leaf(tid), Upto(k, l))
  {
  }

  lemma {:induction false} NewLeafOk(load: nat -> Key, t: nat, k: Key, tid: nat, l: nat)
    requires 0 < l <= |k| && Ok(load, |k|, Leaf(t), Upto(k, l)) && load(tid) == k && tid > 0
    ensures var c := NewChild(load, Leaf(t), k, tid, l); Ok(load, |k|, c, Upto(k, l)) && Inserted(load, Leaf(t), k, tid, c)
  {
    if load(t) != k {
      InsertForks(load, k, tid, l, t);
    }
  }
}

/** Writes and splits keep separators, child ranges and leaf contents in agreement. */
module BTreeShape {
  import opened Sequences
  import opened BTreeNodes
  import opened BTreeMachine

  // ----- steps that only touch locks -----

  predicate SameNode(m: Node, n: Node) {
    m.level == n.level && m.lo == n.lo && m.hi == n.hi && m.body == n.body
  }

  ghost predicate SameTree(s: State, s': State) {
    && s'.root == s.root
    && s'.store == s.store
    && s'.nodes.Keys == s.nodes.Keys
    && (forall n :: n in s.nodes ==> SameNode(s'.nodes[n], s.nodes[n]))
  }

  /** Every child of the node is where it was, with the range it had. */
  ghost predicate ChildrenStay(s: State, s': State, n: Node)
    requires n.body.Inner?
  {
    forall c :: c in n.body.children && c in s.nodes ==>
      && c in s'.nodes
      && s'.nodes[c].level == s.nodes[c].level
      && s'.nodes[c].lo == s.nodes[c].lo
      && s'.nodes[c].hi == s.nodes[c].hi
  }

  lemma NodeStays(s: State, s': State, n: Node)
    requires NodeOk(s, n) && (n.body.Inner? ==> ChildrenStay(s, s', n))
    ensures NodeOk(s', n)
  {
    if n.body.Inner? {
      forall i | 0 <= i <= |n.body.keys|
        ensures ChildOk(s', n, i)
      {
        assert ChildOk(s, n, i) && n.body.children[i] in n.body.children;
      }
    }
  }

  lemma SameNodeOk(s: State, m: Node, n: Node)
    requires NodeOk(s, n) && SameNode(m, n)
    ensures NodeOk(s, m)
  {
    if n.body.Inner? {
      forall i | 0 <= i <= |n.body.keys|
        ensures ChildOk(s, m, i)
      {
        assert ChildOk(s, n, i);
      }
    }
  }

  lemma SameTreeOk(s: State, s': State)
    requires SameTree(s, s') && TreeOk(s) && StoreOk(s)
    ensures TreeOk(s') && StoreOk(s')
  {
    hide NodeOk;
    forall n | n in s'.nodes
      ensures NodeOk(s', s'.nodes[n])
    {
      NodeStays(s, s', s.nodes[n]);
      SameNodeOk(s', s'.nodes[n], s.nodes[n]);
    }
    SameStore(s, s');
  }

  lemma SameStore(s: State, s': State)
    requires SameTree(s, s') && StoreOk(s)
    ensures StoreOk(s')
  {
    forall n, k {:trigger LeafAgrees(s', s'.nodes[n], k)} |
      n in s'.nodes && LeafOk(s'.nodes[n].body) && Covers(s'.nodes[n], k)
      ensures LeafAgrees(s', s'.nodes[n], k)
    {
      assert LeafAgrees(s, s.nodes[n], k);
    }
  }

  // ----- writes -----

  lemma UpsertOk(b: Body, k: int, v: int)
    requires LeafOk(b) && !Full(b)
    ensures LeafOk(Upsert(b, k, v))
    ensures forall x :: x in Upsert(b, k, v).keys ==> x == k || x in b.keys
  {
    LowerBoundFinds(b.keys, k);
    if k !in b.keys {
      IncreasingInsert(b.keys, k);
    }
  }

  /** A leaf answers for a key exactly by the pair it holds. */
  lemma LookupIs(b: Body, k: int, i: nat)
    requires LeafOk(b) && i < |b.keys| && b.keys[i] == k
    ensures Lookup(b, k) == (true, b.payloads[i])
  {
    LowerBoundIs(b.keys, k, i);
  }

  lemma LookupNot(b: Body, k: int)
    requires LeafOk(b) && k !in b.keys
    ensures Lookup(b, k) == (false, 0)
  {
  }

  /** Where the pairs of the leaf are after a write. */
  lemma UpsertPair(b: Body, k: int, v: int, i: nat) returns (j: nat)
    requires LeafOk(b) && i < |b.keys| && b.keys[i] != k
    ensures var b' := Upsert(b, k, v);
      j < |b'.keys| == |b'.payloads| && b'.keys[j] == b.keys[i] && b'.payloads[j] == b.payloads[i]
  {
    var pos := LowerBound(b.keys, k);
    hide LowerBound, Increasing;
    j := if (pos < |b.keys| && b.keys[pos] == k) || i < pos then i else i + 1;
  }

  lemma UpsertNew(b: Body, k: int, v: int) returns (j: nat)
    requires LeafOk(b)
    ensures var b' := Upsert(b, k, v); j < |b'.keys| == |b'.payloads| && b'.keys[j] == k && b'.payloads[j] == v
  {
    j := LowerBound(b.keys, k);
  }

  /** After a write the leaf answers with the new value, and as before for every other key. */
  lemma UpsertLookup(b: Body, k: int, v: int, j: int)
    requires LeafOk(b) && !Full(b)
    ensures LeafOk(Upsert(b, k, v))
    ensures Lookup(Upsert(b, k, v), j) == if j == k then (true, v) else Lookup(b, j)
  {
    UpsertOk(b, k, v);
    hide Lookup, Upsert, LowerBound, LeafOk;
    var b' := Upsert(b, k, v);
    if j == k {
      var i := UpsertNew(b, k, v);
      LookupIs(b', k, i);
    } else if j in b.keys {
      var i :| 0 <= i < |b.keys| && b.keys[i] == j;
      LookupIs(b, j, i);
      var i' := UpsertPair(b, k, v, i);
      LookupIs(b', j, i');
    } else {
      LookupNot(b, j);
      LookupNot(b', j);
    }
  }

  ghost predicate Writes(s: State, n: nat, k: int, v: int, s': State) {
    && n in s.nodes
    && LeafOk(s.nodes[n].body)
    && s'.nodes == s.nodes[n := s.nodes[n].(body := Upsert(s.nodes[n].body, k, v))]
    && s'.root == s.root
    && s'.store == s.store[k := v]
  }

  lemma WriteTree(s: State, n: nat, k: int, v: int, s': State)
    requires TreeOk(s) && n in s.nodes && !Full(s.nodes[n].body) && Covers(s.nodes[n], k) && Writes(s, n, k, v, s')
    ensures TreeOk(s')
  {
    hide NodeOk;
    forall m | m in s'.nodes
      ensures NodeOk(s', s'.nodes[m])
    {
      NodeStays(s, s', s.nodes[m]);
      if m == n {
        WrittenOk(s', s.nodes[n], s'.nodes[n], k, v);
      }
    }
  }

  lemma WrittenOk(s: State, n: Node, n': Node, k: int, v: int)
    requires NodeOk(s, n) && LeafOk(n.body) && !Full(n.body) && Covers(n, k) && n' == n.(body := Upsert(n.body, k, v))
    ensures NodeOk(s, n')
  {
    UpsertOk(n.body, k, v);
    hide Upsert, LowerBound, Increasing;
    forall i | 0 <= i < |n'.body.keys|
      ensures n'.lo < n'.body.keys[i] <= n'.hi
    {
      assert n'.body.keys[i] in n'.body.keys;
    }
  }

  /** No other leaf answers for the key, so the leaves still say what the completed writes say. */
  lemma WriteStore(s: State, n: nat, k: int, v: int, s': State)
    requires TreeOk(s) && StoreOk(s)
    requires n in s.nodes && !Full(s.nodes[n].body) && Covers(s.nodes[n], k) && Writes(s, n, k, v, s')
    ensures StoreOk(s')
  {
    hide Lookup, Upsert, LowerBound, Increasing, Full;
    forall m, j {:trigger LeafAgrees(s', s'.nodes[m], j)} |
      m in s'.nodes && LeafOk(s'.nodes[m].body) && Covers(s'.nodes[m], j)
      ensures LeafAgrees(s', s'.nodes[m], j)
    {
      assert NodeOk(s, s.nodes[m]) && NodeOk(s, s.nodes[n]);
      if m == n {
        UpsertLookup(s.nodes[n].body, k, v, j);
      }
      assert LeafAgrees(s, s.nodes[m], j);
    }
  }

  // ----- splits -----

  /** The halves of a node, on either side of its separator. */
  ghost predicate AreHalves(n: Node, kept: Node, moved: Node)
    requires (LeafOk(n.body) || InnerOk(n.body)) && Full(n.body)
  {
    && kept.level == moved.level == n.level
    && kept.lo == n.lo
    && moved.hi == n.hi
    && kept.hi == moved.lo == Separator(n.body)
    && kept.body == LeftHalf(n.body)
    && moved.body == RightHalf(n.body)
  }

  /** The two halves are nodes of the same kind, on either side of a separator strictly inside the range. */
  lemma HalvesOk(s: State, n: Node, kept: Node, moved: Node)
    requires NodeOk(s, n) && Full(n.body) && AreHalves(n, kept, moved)
    ensures n.lo < Separator(n.body) < n.hi
    ensures NodeOk(s, kept) && NodeOk(s, moved)
  {
    hide ChildOk, AreHalves, Increasing, KeysWithin, Full;
    if n.body.Leaf? {
      LeafHalvesOk(s, n, kept, moved);
    } else {
      InnerHalvesOk(s, n, kept, moved);
    }
  }

  lemma LeafHalvesOk(s: State, n: Node, kept: Node, moved: Node)
    requires NodeOk(s, n) && LeafOk(n.body) && Full(n.body) && AreHalves(n, kept, moved)
    ensures n.lo < Separator(n.body) < n.hi
    ensures NodeOk(s, kept) && NodeOk(s, moved)
  {
    var keys, c := n.body.keys, SplitPoint(n.body);
    assert n.lo < keys[c - 1] < keys[c] <= n.hi;
    hide ChildOk;
    KeysSplit(keys, c, n.lo, n.hi, keys[c - 1]);
    assert kept.body.keys == keys[..c] && moved.body.keys == keys[c..];
  }

  lemma InnerHalvesOk(s: State, n: Node, kept: Node, moved: Node)
    requires NodeOk(s, n) && InnerOk(n.body) && Full(n.body) && AreHalves(n, kept, moved)
    ensures n.lo < Separator(n.body) < n.hi
    ensures NodeOk(s, kept) && NodeOk(s, moved)
  {
    var keys, c := n.body.keys, SplitPoint(n.body);
    assert n.lo < keys[c - 1] < keys[c] < keys[c + 1] <= n.hi;
    KeysSplit(keys, c, n.lo, n.hi, keys[c]);
    KeysSplit(keys, c + 1, n.lo, n.hi, keys[c]);
    assert kept.body.keys == keys[..c] && moved.body.keys == keys[c + 1..];
    assert |kept.body.children| == c + 1 && |moved.body.children| == |keys| - c;
    HalvesLead(s, n, kept, moved);
    hide ChildOk, Increasing;
  }

  lemma HalvesLead(s: State, n: Node, kept: Node, moved: Node)
    requires NodeOk(s, n) && InnerOk(n.body) && Full(n.body) && AreHalves(n, kept, moved) && InnerOk(kept.body) && InnerOk(moved.body)
    ensures forall i :: 0 <= i <= |kept.body.keys| ==> ChildOk(s, kept, i)
    ensures forall i :: 0 <= i <= |moved.body.keys| ==> ChildOk(s, moved, i)
  {
    var c := SplitPoint(n.body);
    hide Increasing, KeysWithin;
    forall i | 0 <= i <= |kept.body.keys|
      ensures ChildOk(s, kept, i)
    {
      assert ChildOk(s, n, i);
    }
    forall i | 0 <= i <= |moved.body.keys|
      ensures ChildOk(s, moved, i)
    {
      assert ChildOk(s, n, c + 1 + i);
    }
  }

  /** Increasing keys on either side of a bound between two neighbours. */
  lemma KeysSplit(keys: seq<int>, c: nat, lo: int, hi: int, sep: int)
    requires Increasing(keys) && 0 < c < |keys| && (forall i :: 0 <= i < |keys| ==> lo < keys[i] <= hi)
    requires keys[c - 1] <= sep
    ensures Increasing(keys[..c]) && Increasing(keys[c..])
    ensures forall i :: 0 <= i < c ==> lo < keys[..c][i] <= sep
    ensures sep < keys[c] ==> forall i :: 0 <= i < |keys| - c ==> sep < keys[c..][i] <= hi
  {
  }

  lemma LeafHalves(b: Body)
    requires LeafOk(b) && Full(b)
    ensures var c := SplitPoint(b);
      && 0 < c < |b.keys|
      && LeftHalf(b) == Leaf(b.keys[..c], b.payloads[..c]) && LeafOk(LeftHalf(b))
      && RightHalf(b) == Leaf(b.keys[c..], b.payloads[c..]) && LeafOk(RightHalf(b))
      && Separator(b) == b.keys[c - 1]
  {
  }

  lemma SplitLookup(n: Node, k: int)
    requires LeafOk(n.body) && Full(n.body)
    ensures LeafOk(LeftHalf(n.body)) && LeafOk(RightHalf(n.body))
    ensures Lookup(n.body, k) == Lookup(if k <= Separator(n.body) then LeftHalf(n.body) else RightHalf(n.body), k)
  {
    LeafHalves(n.body);
    hide LeftHalf, RightHalf, Separator, SplitPoint, Full, Lookup, LowerBound;
    if k <= Separator(n.body) {
      LookupLeft(n.body, SplitPoint(n.body), k);
    } else {
      LookupRight(n.body, SplitPoint(n.body), k);
    }
  }

  lemma LookupLeft(b: Body, c: nat, k: int)
    requires LeafOk(b) && 0 < c < |b.keys| && k <= b.keys[c - 1]
    requires LeafOk(Leaf(b.keys[..c], b.payloads[..c]))
    ensures Lookup(b, k) == Lookup(Leaf(b.keys[..c], b.payloads[..c]), k)
  {
    hide Lookup, LowerBound;
    var left := Leaf(b.keys[..c], b.payloads[..c]);
    if k in left.keys {
      var i :| 0 <= i < c && b.keys[i] == k;
      LookupIs(b, k, i);
      LookupIs(left, k, i);
    } else {
      assert k !in b.keys by {
        assert forall i :: 0 <= i < c ==> b.keys[i] == left.keys[i];
      }
      LookupNot(b, k);
      LookupNot(left, k);
    }
  }

  lemma LookupRight(b: Body, c: nat, k: int)
    requires LeafOk(b) && 0 < c < |b.keys| && b.keys[c - 1] < k
    requires LeafOk(Leaf(b.keys[c..], b.payloads[c..]))
    ensures Lookup(b, k) == Lookup(Leaf(b.keys[c..], b.payloads[c..]), k)
  {
    hide Lookup, LowerBound;
    var right := Leaf(b.keys[c..], b.payloads[c..]);
    if k in right.keys {
      var i :| 0 <= i < |right.keys| && right.keys[i] == k;
      LookupIs(b, k, c + i);
      LookupIs(right, k, i);
    } else {
      assert k !in b.keys by {
        assert forall i :: c <= i < |b.keys| ==> b.keys[i] == right.keys[i - c];
      }
      LookupNot(b, k);
      LookupNot(right, k);
    }
  }

  lemma ChildInside(s: State, n: Node, i: nat)
    requires NodeOk(s, n) && InnerOk(n.body) && i <= |n.body.keys|
    ensures var c := n.body.children[i];
      c in s.nodes && n.lo <= s.nodes[c].lo && s.nodes[c].hi <= n.hi && s.nodes[c].level + 1 == n.level
  {
    assert ChildOk(s, n, i);
  }

  lemma OneSlot(s: State, n: Node, i: nat, j: nat)
    requires NodeOk(s, n) && InnerOk(n.body) && i < j <= |n.body.keys|
    ensures n.body.children[i] != n.body.children[j]
  {
    assert ChildOk(s, n, i) && ChildOk(s, n, j);
    assert HighEnd(n, i) <= LowEnd(n, j);
    assert LowEnd(n, i) < HighEnd(n, i);
  }

  /** A node hangs from one parent only. */
  lemma OneParent(s: State, p: nat, q: nat, i: nat, j: nat)
    requires TreeOk(s) && p in s.nodes && q in s.nodes && InnerOk(s.nodes[p].body) && InnerOk(s.nodes[q].body)
    requires i <= |s.nodes[p].body.keys| && j <= |s.nodes[q].body.keys|
    requires s.nodes[p].body.children[i] == s.nodes[q].body.children[j]
    ensures p == q
  {
    ChildInside(s, s.nodes[p], i);
    ChildInside(s, s.nodes[q], j);
    assert NodeOk(s, s.nodes[s.nodes[p].body.children[i]]);
  }

  ghost predicate SameFrame(s: State, s': State, c: nat)
    requires c in s.nodes
  {
    c in s'.nodes && s'.nodes[c].level == s.nodes[c].level && s'.nodes[c].lo == s.nodes[c].lo && s'.nodes[c].hi == s.nodes[c].hi
  }

  /** Node n is cut at sep, and what is above sep goes to left. */
  ghost predicate Cut(s: State, n: nat, sep: int, left: nat, s': State) {
    && n in s.nodes
    && left !in s.nodes
    && (forall c :: c in s.nodes && c != n ==> SameFrame(s, s', c))
    && n in s'.nodes
    && left in s'.nodes
    && s.nodes[n].lo < sep < s.nodes[n].hi
    && s'.nodes[n].level == s'.nodes[left].level == s.nodes[n].level
    && s'.nodes[n].lo == s.nodes[n].lo
    && s'.nodes[n].hi == s'.nodes[left].lo == sep
    && s'.nodes[left].hi == s.nodes[n].hi
  }

  lemma GrowsAt(s: State, n: nat, sep: int, left: nat, s': State, above: Node, i: nat)
    requires Cut(s, n, sep, left, s') && NodeOk(s, above) && InnerOk(above.body) && !Full(above.body)
    requires i <= |above.body.keys| && above.body.children[i] == n
    ensures LowerBound(above.body.keys, sep) == i && sep !in above.body.keys
    ensures InnerOk(Grow(above.body, sep, left))
  {
    var keys := above.body.keys;
    assert ChildOk(s, above, i);
    LowerBoundIs(keys, sep, i);
    LowerBoundFinds(keys, sep);
    IncreasingInsert(keys, sep);
  }

  lemma GrownChild(s: State, n: nat, sep: int, left: nat, s': State, above: Node, i: nat, above': Node, j: nat)
    requires Cut(s, n, sep, left, s') && NodeOk(s, above) && InnerOk(above.body)
    requires i <= |above.body.keys| && above.body.children[i] == n
    requires LowerBound(above.body.keys, sep) == i
    requires above' == above.(body := Grow(above.body, sep, left)) && InnerOk(above'.body) && j <= |above'.body.keys|
    ensures ChildOk(s', above', j)
  {
    hide LowerBound, Increasing, KeysWithin;
    assert ChildOk(s, above, i);
    if j < i {
      OneSlot(s, above, j, i);
      assert ChildOk(s, above, j) && SameFrame(s, s', above.body.children[j]);
    } else if j > i + 1 {
      OneSlot(s, above, i, j - 1);
      assert ChildOk(s, above, j - 1) && SameFrame(s, s', above.body.children[j - 1]);
    }
  }

  /** The separator and the new child enter the parent exactly where the split child is. */
  lemma GrownOk(s: State, n: nat, sep: int, left: nat, s': State, above: Node, i: nat)
    requires Cut(s, n, sep, left, s') && NodeOk(s, above) && InnerOk(above.body) && !Full(above.body)
    requires i <= |above.body.keys| && above.body.children[i] == n
    ensures NodeOk(s', above.(body := Grow(above.body, sep, left)))
  {
    GrowsAt(s, n, sep, left, s', above, i);
    hide LowerBound, Increasing, ChildOk;
    var above' := above.(body := Grow(above.body, sep, left));
    ChildInside(s, above, i);
    forall j | 0 <= j <= |above'.body.keys|
      ensures ChildOk(s', above', j)
    {
      GrownChild(s, n, sep, left, s', above, i, above', j);
    }
  }

  /** A node that does not have n among its children is as good as it was. */
  lemma BystanderOk(s: State, n: nat, sep: int, left: nat, s': State, m: Node)
    requires Cut(s, n, sep, left, s') && NodeOk(s, m)
    requires m.body.Inner? ==> n !in m.body.children
    ensures NodeOk(s', m)
  {
    if m.body.Inner? {
      forall c | c in m.body.children && c in s.nodes
        ensures SameFrame(s, s', c)
      {
      }
    }
    NodeStays(s, s', m);
  }

  lemma NotOwnChild(s: State, n: Node, m: nat)
    requires NodeOk(s, n) && InnerOk(n.body) && m in s.nodes && s.nodes[m].level + 1 != n.level
    ensures m !in n.body.children
  {
    if m in n.body.children {
      var i :| 0 <= i < |n.body.children| && n.body.children[i] == m;
      ChildInside(s, n, i);
    }
  }

  /** The halves of a split node, in the new tree. */
  lemma HalvesFit(s: State, n: nat, left: nat, s': State)
    requires TreeOk(s) && n in s.nodes && NodeShaped(s, n) && Full(s.nodes[n].body)
    requires Cut(s, n, Separator(s.nodes[n].body), left, s')
    requires s'.nodes[n].body == LeftHalf(s.nodes[n].body) && s'.nodes[left].body == RightHalf(s.nodes[n].body)
    ensures NodeOk(s', s'.nodes[n]) && NodeOk(s', s'.nodes[left])
  {
    hide LeftHalf, RightHalf, Separator, LowerBound, Increasing, KeysWithin, ChildOk;
    var node := s.nodes[n];
    assert NodeOk(s, node);
    if node.body.Inner? {
      NotOwnChild(s, node, n);
    }
    BystanderOk(s, n, Separator(node.body), left, s', node);
    HalvesOk(s', node, s'.nodes[n], s'.nodes[left]);
  }

  ghost predicate Apart(s: State, m: nat, n: nat)
    requires m in s.nodes && n in s.nodes
  {
    m != n && s.nodes[m].level == s.nodes[n].level ==> s.nodes[m].hi <= s.nodes[n].lo || s.nodes[n].hi <= s.nodes[m].lo
  }

  /** Cutting one node in two keeps ranges of one level apart. */
  lemma ApartKept(s: State, n: nat, sep: int, left: nat, s': State, a: nat, b: nat)
    requires TreeOk(s) && Cut(s, n, sep, left, s') && a in s.nodes.Keys + {left} && b in s.nodes.Keys + {left}
    ensures a in s'.nodes && b in s'.nodes && Apart(s', a, b)
  {
    hide NodeOk;
    var a0 := if a == left then n else a;
    var b0 := if b == left then n else b;
    assert a0 != b0 ==> Apart(s, a0, b0);
    assert a != n && a != left ==> SameFrame(s, s', a);
    assert b != n && b != left ==> SameFrame(s, s', b);
  }

  lemma SplitCuts(s: State, n: nat, p: Option<Parent>, left: nat, top: nat)
    requires TreeOk(s) && NodeShaped(s, n) && Full(s.nodes[n].body) && left !in s.nodes && top !in s.nodes && left != top
    requires p.Some? ==> NodeShaped(s, p.value.id) && s.nodes[p.value.id].body.Inner? && p.value.id != n
    ensures Cut(s, n, Separator(s.nodes[n].body), left, SplitNode(s, n, p, left, top))
  {
    SeparatorInside(s, s.nodes[n]);
    hide LeftHalf, RightHalf, Separator, NodeOk, TreeOk, Grow, Full, LowerBound, LeafOk, InnerOk;
    var s' := SplitNode(s, n, p, left, top);
    forall c | c in s.nodes && c != n
      ensures SameFrame(s, s', c)
    {
      assert p.None? || c != p.value.id ==> s'.nodes[c] == s.nodes[c];
    }
  }

  lemma SeparatorInside(s: State, n: Node)
    requires NodeOk(s, n) && Full(n.body)
    ensures n.lo < Separator(n.body) < n.hi
  {
    var sep := Separator(n.body);
    HalvesOk(s, n, n.(hi := sep, body := LeftHalf(n.body)), Node(1, false, n.level, sep, n.hi, RightHalf(n.body)));
  }

  /** The tree after a split below a parent. */
  ghost predicate SplitBelow(s: State, n: nat, p: nat, left: nat, s': State)
    requires n in s.nodes && (LeafOk(s.nodes[n].body) || InnerOk(s.nodes[n].body)) && Full(s.nodes[n].body)
    requires p in s.nodes && InnerOk(s.nodes[p].body)
  {
    var sep := Separator(s.nodes[n].body);
    && Cut(s, n, sep, left, s')
    && s'.root == s.root
    && s'.nodes.Keys == s.nodes.Keys + {left}
    && s'.nodes[n].body == LeftHalf(s.nodes[n].body)
    && s'.nodes[left].body == RightHalf(s.nodes[n].body)
    && s'.nodes[p] == s.nodes[p].(body := Grow(s.nodes[p].body, sep, left))
    && (forall m :: m in s.nodes && m != n && m != p ==> s'.nodes[m] == s.nodes[m])
  }

  lemma SplitUnderParent(s: State, n: nat, p: Parent, left: nat, top: nat, s': State, task: Task)
    requires TreeOk(s) && NodeShaped(s, n) && Full(s.nodes[n].body) && left !in s.nodes && top !in s.nodes && left != top
    requires RightChild(s, p.id, n, task) && task.Insert? && p.id != n
    requires s' == SplitNode(s, n, Some(p), left, top)
    ensures TreeOk(s')
  {
    SplitCuts(s, n, Some(p), left, top);
    assert SplitBelow(s, n, p.id, left, s') by {
      hide TreeOk, Cut, Full, LeftHalf, RightHalf, Separator, Grow, LowerBound, LeafOk, InnerOk;
    }
    hide SplitNode, TreeOk, SplitBelow, NodeOk, Full, LowerBound, LeafOk, Increasing;
    var i := LowerBound(s.nodes[p.id].body.keys, task.key);
    SplitNodesOk(s, n, p.id, left, s', i);
    SplitLevelsOk(s, n, p.id, left, s', i);
  }

  lemma SplitNodesOk(s: State, n: nat, p: nat, left: nat, s': State, i: nat)
    requires TreeOk(s) && n in s.nodes && NodeShaped(s, n) && Full(s.nodes[n].body) && n != p
    requires p in s.nodes && InnerOk(s.nodes[p].body) && !Full(s.nodes[p].body)
    requires i <= |s.nodes[p].body.keys| && s.nodes[p].body.children[i] == n
    requires SplitBelow(s, n, p, left, s')
    ensures forall m :: m in s'.nodes ==> NodeOk(s', s'.nodes[m])
  {
    hide LeftHalf, RightHalf, Separator, NodeOk, Grow, Full, LeafOk, InnerOk, Cut;
    var sep := Separator(s.nodes[n].body);
    HalvesFit(s, n, left, s');
    forall m | m in s'.nodes
      ensures NodeOk(s', s'.nodes[m])
    {
      if m == p {
        GrownOk(s, n, sep, left, s', s.nodes[p], i);
      } else if m != n && m != left {
        OtherOk(s, n, sep, left, s', p, i, m);
      }
    }
  }

  lemma SplitLevelsOk(s: State, n: nat, p: nat, left: nat, s': State, i: nat)
    requires TreeOk(s) && n in s.nodes && NodeShaped(s, n) && Full(s.nodes[n].body)
    requires p in s.nodes && InnerOk(s.nodes[p].body)
    requires i <= |s.nodes[p].body.keys| && s.nodes[p].body.children[i] == n
    requires SplitBelow(s, n, p, left, s') && forall m :: m in s'.nodes ==> NodeOk(s', s'.nodes[m])
    ensures TreeOk(s')
  {
    hide LeftHalf, RightHalf, Separator, NodeOk, Grow, Full, LeafOk, Increasing;
    var sep := Separator(s.nodes[n].body);
    ChildInside(s, s.nodes[p], i);
    assert n != s.root;
    assert SameFrame(s, s', s.root);
    forall a, b | a in s'.nodes && b in s'.nodes
      ensures Apart(s', a, b)
    {
      ApartKept(s, n, sep, left, s', a, b);
    }
    AllApart(s');
  }

  lemma AllApart(s: State)
    requires forall a, b :: a in s.nodes && b in s.nodes ==> Apart(s, a, b)
    ensures forall m, n :: m in s.nodes && n in s.nodes && m != n && s.nodes[m].level == s.nodes[n].level ==>
      s.nodes[m].hi <= s.nodes[n].lo || s.nodes[n].hi <= s.nodes[m].lo
  {
    forall m, n | m in s.nodes && n in s.nodes && m != n && s.nodes[m].level == s.nodes[n].level
      ensures s.nodes[m].hi <= s.nodes[n].lo || s.nodes[n].hi <= s.nodes[m].lo
    {
      assert Apart(s, m, n);
    }
  }

  lemma OtherOk(s: State, n: nat, sep: int, left: nat, s': State, p: nat, i: nat, m: nat)
    requires TreeOk(s) && Cut(s, n, sep, left, s') && p in s.nodes && InnerOk(s.nodes[p].body)
    requires i <= |s.nodes[p].body.keys| && s.nodes[p].body.children[i] == n
    requires m in s.nodes && m != p
    ensures NodeOk(s', s.nodes[m])
  {
    hide Cut;
    assert NodeOk(s, s.nodes[m]);
    if s.nodes[m].body.Inner? && n in s.nodes[m].body.children {
      var j :| 0 <= j < |s.nodes[m].body.children| && s.nodes[m].body.children[j] == n;
      OneParent(s, p, m, i, j);
    } else {
      BystanderOk(s, n, sep, left, s', s.nodes[m]);
    }
  }

  lemma TopOk(s: State, n: nat, left: nat, top: Node, sep: int)
    requires n in s.nodes && left in s.nodes && s.nodes[n].level == s.nodes[left].level
    requires s.nodes[n].lo < s.nodes[n].hi == sep == s.nodes[left].lo < s.nodes[left].hi
    requires top.level == s.nodes[n].level + 1 && top.lo == s.nodes[n].lo && top.hi == s.nodes[left].hi
    requires top.body == Inner([sep], [n, left])
    ensures NodeOk(s, top)
  {
    assert ChildOk(s, top, 0) && ChildOk(s, top, 1);
  }

  /** The tree after the root was split. */
  ghost predicate SplitTop(s: State, left: nat, top: nat, s': State)
    requires s.root in s.nodes
    requires (LeafOk(s.nodes[s.root].body) || InnerOk(s.nodes[s.root].body)) && Full(s.nodes[s.root].body)
  {
    var node := s.nodes[s.root];
    var sep := Separator(node.body);
    && Cut(s, s.root, sep, left, s')
    && s'.root == top
    && top !in s.nodes
    && left != top
    && s'.nodes.Keys == s.nodes.Keys + {left, top}
    && s'.nodes[s.root].body == LeftHalf(node.body)
    && s'.nodes[left].body == RightHalf(node.body)
    && s'.nodes[top] == Node(1, false, node.level + 1, node.lo, node.hi, Inner([sep], [s.root, left]))
    && (forall m :: m in s.nodes && m != s.root ==> s'.nodes[m] == s.nodes[m])
  }

  lemma SplitRoot(s: State, left: nat, top: nat, s': State)
    requires TreeOk(s) && NodeShaped(s, s.root) && Full(s.nodes[s.root].body)
    requires left !in s.nodes && top !in s.nodes && left != top
    requires s' == SplitNode(s, s.root, None, left, top)
    ensures TreeOk(s')
  {
    SplitCuts(s, s.root, None, left, top);
    assert SplitTop(s, left, top, s') by {
      hide TreeOk, Cut, Full, LeftHalf, RightHalf, Separator, LowerBound, LeafOk, InnerOk;
    }
    hide SplitNode, TreeOk, SplitTop, NodeOk, Full, LowerBound, LeafOk, Increasing;
    TopNodesOk(s, left, top, s');
    TopLevelsOk(s, left, top, s');
  }

  lemma TopNodesOk(s: State, left: nat, top: nat, s': State)
    requires TreeOk(s) && NodeShaped(s, s.root) && Full(s.nodes[s.root].body) && SplitTop(s, left, top, s')
    ensures forall m :: m in s'.nodes ==> NodeOk(s', s'.nodes[m])
  {
    hide LeftHalf, RightHalf, Separator, NodeOk, Full, LeafOk, InnerOk;
    var n := s.root;
    var sep := Separator(s.nodes[n].body);
    HalvesFit(s, n, left, s');
    TopOk(s', n, left, s'.nodes[top], sep);
    forall m | m in s'.nodes
      ensures NodeOk(s', s'.nodes[m])
    {
      if m != n && m != left && m != top {
        TreeInner(s, m);
        if s.nodes[m].body.Inner? {
          NotOwnChild(s, s.nodes[m], n);
        }
        BystanderOk(s, n, sep, left, s', s.nodes[m]);
      }
    }
  }

  lemma TopLevelsOk(s: State, left: nat, top: nat, s': State)
    requires TreeOk(s) && NodeShaped(s, s.root) && Full(s.nodes[s.root].body) && SplitTop(s, left, top, s')
    requires forall m :: m in s'.nodes ==> NodeOk(s', s'.nodes[m])
    ensures TreeOk(s')
  {
    hide LeftHalf, RightHalf, Separator, NodeOk, Full, LeafOk, InnerOk;
    var sep := Separator(s.nodes[s.root].body);
    forall m | m in s'.nodes && m != top
      ensures s'.nodes[m].level < s'.nodes[top].level
    {
      assert m in s.nodes && m != s.root ==> SameFrame(s, s', m);
    }
    forall a, b | a in s'.nodes && b in s'.nodes
      ensures Apart(s', a, b)
    {
      if a != top && b != top {
        ApartKept(s, s.root, sep, left, s', a, b);
      }
    }
    AllApart(s');
  }

  lemma TreeInner(s: State, m: nat)
    requires TreeOk(s) && m in s.nodes
    ensures s.nodes[m].body.Inner? ==> InnerOk(s.nodes[m].body)
  {
    assert NodeOk(s, s.nodes[m]);
  }

  /** Both halves together answer for the range as the node did. */
  lemma SplitStore(s: State, n: nat, p: Option<Parent>, left: nat, top: nat, s': State)
    requires TreeOk(s) && StoreOk(s) && NodeShaped(s, n) && Full(s.nodes[n].body)
    requires left !in s.nodes && top !in s.nodes && left != top
    requires p.Some? ==> NodeShaped(s, p.value.id) && s.nodes[p.value.id].body.Inner? && p.value.id != n
    requires s' == SplitNode(s, n, p, left, top)
    ensures StoreOk(s')
  {
    hide TreeOk, NodeShaped, Full, Lookup, SplitNode, LeafOk, InnerOk;
    forall m, k {:trigger LeafAgrees(s', s'.nodes[m], k)} |
      m in s'.nodes && LeafOk(s'.nodes[m].body) && Covers(s'.nodes[m], k)
      ensures LeafAgrees(s', s'.nodes[m], k)
    {
      AgreesAfterSplit(s, n, p, left, top, s', m, k);
    }
  }

  lemma AgreesAfterSplit(s: State, n: nat, p: Option<Parent>, left: nat, top: nat, s': State, m: nat, k: int)
    requires TreeOk(s) && StoreOk(s) && NodeShaped(s, n) && Full(s.nodes[n].body)
    requires left !in s.nodes && top !in s.nodes && left != top
    requires p.Some? ==> NodeShaped(s, p.value.id) && s.nodes[p.value.id].body.Inner? && p.value.id != n
    requires s' == SplitNode(s, n, p, left, top)
    requires m in s'.nodes && LeafOk(s'.nodes[m].body) && Covers(s'.nodes[m], k)
    ensures LeafAgrees(s', s'.nodes[m], k)
  {
    SplitCuts(s, n, p, left, top);
    SplitLeaves(s, n, p, left, top, m);
    HalfIsLeaf(s.nodes[n]);
    hide TreeOk, NodeOk, LowerBound, LeftHalf, RightHalf, Separator, Full, Lookup, Grow, Increasing, SplitNode, StoreOk;
    if m == n || m == left {
      SplitLookup(s.nodes[n], k);
      StoreSays(s, n, k);
    } else {
      StoreSays(s, m, k);
    }
  }

  lemma StoreSays(s: State, n: nat, k: int)
    requires StoreOk(s) && n in s.nodes && LeafOk(s.nodes[n].body) && Covers(s.nodes[n], k)
    ensures LeafAgrees(s, s.nodes[n], k)
  {
  }

  /** Which leaves there are after a split. */
  lemma SplitLeaves(s: State, n: nat, p: Option<Parent>, left: nat, top: nat, m: nat)
    requires NodeShaped(s, n) && Full(s.nodes[n].body)
    requires left !in s.nodes && top !in s.nodes && left != top
    requires p.Some? ==> NodeShaped(s, p.value.id) && s.nodes[p.value.id].body.Inner? && p.value.id != n
    ensures var s' := SplitNode(s, n, p, left, top);
      && s'.store == s.store
      && n in s'.nodes
      && left in s'.nodes
      && s'.nodes[n].body == LeftHalf(s.nodes[n].body)
      && s'.nodes[left].body == RightHalf(s.nodes[n].body)
    ensures var s' := SplitNode(s, n, p, left, top);
      m in s'.nodes && LeafOk(s'.nodes[m].body) && m != n && m != left ==> m in s.nodes && s'.nodes[m] == s.nodes[m]
  {
    hide LeftHalf, RightHalf, Separator, LowerBound, Full, Increasing;
  }

  lemma HalfIsLeaf(n: Node)
    requires (LeafOk(n.body) || InnerOk(n.body)) && Full(n.body)
    ensures LeftHalf(n.body).Leaf? == n.body.Leaf? && RightHalf(n.body).Leaf? == n.body.Leaf?
  {
  }
}

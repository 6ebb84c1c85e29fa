/** Collecting the used nodes of a fanout tree in order and filling the child pointers of a model node with them. */
module AlexFanoutFill {
  import opened AlexRouting
  import opened AlexFanout

  // ----- which nodes are in a subtree -----

  /** The position of the ancestor d levels up. */
  function Ancestor(id: nat, d: nat): nat {
    if d == 0 then id else Ancestor(id, d - 1) / 2
  }

  /** x lies below node i of level l, or is that node. */
  predicate Within(l: nat, i: nat, x: FTNode) {
    x.level >= l && Ancestor(x.id, x.level - l) == i
  }

  lemma {:induction false} WithinSplits(l: nat, i: nat, x: FTNode)
    ensures Within(l, i, x) <==> x == FTNode(l, i) || Within(l + 1, 2 * i, x) || Within(l + 1, 2 * i + 1, x)
  {
  }

  lemma {:induction false} AncestorBound(id: nat, d: nat, level: nat)
    requires id < Pow2(level) && d <= level
    ensures Ancestor(id, d) < Pow2(level - d)
  {
    if d > 0 {
      AncestorBound(id, d - 1, level);
    }
  }

  /** Every node of the tree is below the root. */
  lemma {:induction false} WithinRoot(x: FTNode)
    requires x.id < Pow2(x.level)
    ensures Within(0, 0, x)
  {
    AncestorBound(x.id, x.level, x.level);
  }

  ghost predicate Used(use: Flags, depth: nat, x: FTNode)
    requires Shape(use, depth)
  {
    InTree(x.level, x.id, depth) && use[x.level][x.id]
  }

  /** The list from left to right has exactly the used nodes of its part of the tree. */
  lemma {:induction false} InOrderHas(use: Flags, l: nat, i: nat, depth: nat, x: FTNode)
    requires Shape(use, depth) && InTree(l, i, depth)
    ensures x in InOrder(use, l, i, depth) <==> Used(use, depth, x) && Within(l, i, x)
    decreases depth - l
  {
    hide InOrder, Within, Used, Shape, Pow2;
    InOrderSplits(use, l, i, depth, x);
    WithinSplits(l, i, x);
    UsedHere(use, l, i, depth, x);
    if l < depth {
      ChildrenInTree(l, i, depth);
      InOrderHas(use, l + 1, 2 * i, depth, x);
      InOrderHas(use, l + 1, 2 * i + 1, depth, x);
    }
  }

  lemma {:induction false} UsedHere(use: Flags, l: nat, i: nat, depth: nat, x: FTNode)
    requires Shape(use, depth) && InTree(l, i, depth)
    ensures x == FTNode(l, i) ==> (Used(use, depth, x) <==> use[l][i])
    ensures l == depth && Used(use, depth, x) ==> !Within(l + 1, 2 * i, x) && !Within(l + 1, 2 * i + 1, x)
  {
    hide Ancestor, Pow2;
  }

  lemma {:induction false} InOrderSplits(use: Flags, l: nat, i: nat, depth: nat, x: FTNode)
    requires Shape(use, depth) && InTree(l, i, depth)
    ensures x in InOrder(use, l, i, depth) <==>
      || (x == FTNode(l, i) && use[l][i])
      || (l < depth && (x in InOrder(use, l + 1, 2 * i, depth) || x in InOrder(use, l + 1, 2 * i + 1, depth)))
  {
    var here := if use[l][i] then [FTNode(l, i)] else [];
    if l < depth {
      ChildrenInTree(l, i, depth);
      var left, right := InOrder(use, l + 1, 2 * i, depth), InOrder(use, l + 1, 2 * i + 1, depth);
      assert InOrder(use, l, i, depth) == here + (left + right);
      InConcat(here, left + right, x);
      InConcat(left, right, x);
    } else {
      assert InOrder(use, l, i, depth) == here;
    }
  }

  lemma {:induction false} InConcat(a: seq<FTNode>, b: seq<FTNode>, x: FTNode)
    ensures x in a + b <==> x in a || x in b
  {
  }

  /** The list from left to right of the whole tree has exactly the used nodes. */
  lemma {:induction false} UsedListed(use: Flags, depth: nat, x: FTNode)
    requires Shape(use, depth)
    ensures x in InOrder(use, 0, 0, depth) <==> Used(use, depth, x)
  {
    InOrderHas(use, 0, 0, depth, x);
    if x.id < Pow2(x.level) {
      WithinRoot(x);
    }
  }

  // ----- sorted lists -----

  function Key(x: FTNode, depth: nat): nat
    requires x.level <= depth
  {
    First(x.level, x.id, depth)
  }

  ghost predicate AllUpTo(nodes: seq<FTNode>, depth: nat) {
    forall j :: 0 <= j < |nodes| ==> nodes[j].level <= depth
  }

  ghost predicate Sorted(nodes: seq<FTNode>, depth: nat)
    requires AllUpTo(nodes, depth)
  {
    forall j, k :: 0 <= j < k < |nodes| ==> Key(nodes[j], depth) <= Key(nodes[k], depth)
  }

  ghost predicate Strict(nodes: seq<FTNode>, depth: nat)
    requires AllUpTo(nodes, depth)
  {
    forall j, k :: 0 <= j < k < |nodes| ==> Key(nodes[j], depth) < Key(nodes[k], depth)
  }

  /** Tiles come one after the other. */
  lemma {:induction false} TileStrict(nodes: seq<FTNode>, depth: nat, a: nat, b: nat)
    requires Tile(nodes, depth, a, b)
    ensures AllUpTo(nodes, depth) && Strict(nodes, depth)
    ensures forall j :: 0 <= j < |nodes| ==> a <= Key(nodes[j], depth)
  {
    if nodes != [] {
      var w := Width(nodes[0].level, depth);
      TileStrict(nodes[1..], depth, a + w, b);
      hide First, Width, Pow2;
      assert forall j :: 1 <= j < |nodes| ==> nodes[j] == nodes[1..][j - 1];
    }
  }

  /** There is only one way to sort. */
  lemma {:induction false} OneOrder(s: seq<FTNode>, t: seq<FTNode>, depth: nat)
    requires AllUpTo(s, depth) && AllUpTo(t, depth) && Sorted(s, depth) && Strict(t, depth) && multiset(s) == multiset(t)
    ensures s == t
  {
    assert |multiset(s)| == |s| && |multiset(t)| == |t|;
    if t != [] {
      SameFirst(s, t, depth);
      WithoutFirst(s);
      WithoutFirst(t);
      OneOrder(s[1..], t[1..], depth);
      assert s == [s[0]] + s[1..] && t == [t[0]] + t[1..];
    }
  }

  lemma {:induction false} SameFirst(s: seq<FTNode>, t: seq<FTNode>, depth: nat)
    requires AllUpTo(s, depth) && AllUpTo(t, depth) && Sorted(s, depth) && Strict(t, depth) && multiset(s) == multiset(t)
    requires s != [] && t != []
    ensures s[0] == t[0]
  {
    hide Key;
    assert t[0] in multiset(s) && s[0] in multiset(t);
    var j :| 0 <= j < |s| && s[j] == t[0];
    var k :| 0 <= k < |t| && t[k] == s[0];
    assert j > 0 ==> Key(s[0], depth) <= Key(s[j], depth);
  }

  lemma {:induction false} WithoutFirst(s: seq<FTNode>)
    requires s != []
    ensures multiset(s[1..]) == multiset(s) - multiset{s[0]}
  {
    assert s == [s[0]] + s[1..];
  }

  ghost predicate NoRepeats(s: seq<FTNode>) {
    forall j, k :: 0 <= j < k < |s| ==> s[j] != s[k]
  }

  lemma {:induction false} CountOnce(s: seq<FTNode>, x: FTNode)
    requires NoRepeats(s)
    ensures multiset(s)[x] == if x in s then 1 else 0
  {
    if s != [] {
      CountOnce(s[1..], x);
      assert s == [s[0]] + s[1..];
      assert s[0] !in s[1..];
    }
  }

  lemma {:induction false} SameElements(s: seq<FTNode>, t: seq<FTNode>)
    requires NoRepeats(s) && NoRepeats(t) && forall x :: x in s <==> x in t
    ensures multiset(s) == multiset(t)
  {
    forall x
      ensures multiset(s)[x] == multiset(t)[x]
    {
      CountOnce(s, x);
      CountOnce(t, x);
    }
  }

  // ----- the code -----

  /** x comes before position i of level l in the order of the collecting loops. */
  predicate Before(x: FTNode, l: nat, i: nat) {
    x.level < l || (x.level == l && x.id < i)
  }

  /** What has been collected so far: each used node up to here, once. */
  ghost predicate Collected(use: Flags, depth: nat, nodes: seq<FTNode>, l: nat, i: nat)
    requires Shape(use, depth)
  {
    && NoRepeats(nodes)
    && AllUpTo(nodes, depth)
    && forall x :: x in nodes <==> Used(use, depth, x) && Before(x, l, i)
  }

  /** Collect the used nodes level by level, then sort them by the slot they start at. */
  method CollectUsedNodes(use: Flags, depth: nat) returns (nodes: seq<FTNode>)
    requires Shape(use, depth) && Covered(use, 0, 0, depth)
    ensures nodes == InOrder(use, 0, 0, depth)
  {
    nodes := [];
    var l := 0;
    while l <= depth
      invariant 0 <= l <= depth + 1
      invariant Collected(use, depth, nodes, l, 0)
    {
      var i := 0;
      while i < |use[l]|
        invariant 0 <= i <= |use[l]|
        invariant Collected(use, depth, nodes, l, i)
      {
        if use[l][i] {
          CollectOne(use, depth, nodes, l, i);
          nodes := nodes + [FTNode(l, i)];
        } else {
          SkipOne(use, depth, nodes, l, i);
        }
        i := i + 1;
      }
      NextLevel(use, depth, nodes, l);
      l := l + 1;
    }
    ghost var all := nodes;
    nodes := SortByFirst(nodes, depth);
    SortedIsInOrder(use, depth, all, nodes);
  }

  lemma {:induction false} CollectOne(use: Flags, depth: nat, nodes: seq<FTNode>, l: nat, i: nat)
    requires Shape(use, depth) && Collected(use, depth, nodes, l, i) && InTree(l, i, depth) && use[l][i]
    ensures Collected(use, depth, nodes + [FTNode(l, i)], l, i + 1)
  {
    var x := FTNode(l, i);
    assert x !in nodes;
    forall y
      ensures y in nodes + [x] <==> Used(use, depth, y) && Before(y, l, i + 1)
    {
      InConcat(nodes, [x], y);
    }
  }

  lemma {:induction false} SkipOne(use: Flags, depth: nat, nodes: seq<FTNode>, l: nat, i: nat)
    requires Shape(use, depth) && Collected(use, depth, nodes, l, i) && InTree(l, i, depth) && !use[l][i]
    ensures Collected(use, depth, nodes, l, i + 1)
  {
  }

  lemma {:induction false} NextLevel(use: Flags, depth: nat, nodes: seq<FTNode>, l: nat)
    requires Shape(use, depth) && l <= depth && Collected(use, depth, nodes, l, |use[l]|)
    ensures Collected(use, depth, nodes, l + 1, 0)
  {
  }

  /** After the last node that does not start later. */
  method PlaceFor(s: seq<FTNode>, x: FTNode, depth: nat) returns (j: nat)
    requires AllUpTo(s, depth) && x.level <= depth
    ensures j <= |s|
    ensures forall k :: 0 <= k < j ==> Key(s[k], depth) <= Key(x, depth)
    ensures j < |s| ==> Key(x, depth) <= Key(s[j], depth)
  {
    hide Key;
    j := 0;
    while j < |s| && Key(s[j], depth) <= Key(x, depth)
      invariant 0 <= j <= |s|
      invariant forall k :: 0 <= k < j ==> Key(s[k], depth) <= Key(x, depth)
    {
      j := j + 1;
    }
  }

  /** Insertion sort by the first slot. */
  method SortByFirst(nodes: seq<FTNode>, depth: nat) returns (sorted: seq<FTNode>)
    requires AllUpTo(nodes, depth)
    ensures multiset(sorted) == multiset(nodes) && AllUpTo(sorted, depth) && Sorted(sorted, depth)
  {
    sorted := [];
    var i := 0;
    while i < |nodes|
      invariant 0 <= i <= |nodes| && multiset(sorted) == multiset(nodes[..i])
      invariant AllUpTo(sorted, depth) && Sorted(sorted, depth)
    {
      var x := nodes[i];
      assert nodes[..i + 1] == nodes[..i] + [x];
      hide Sorted, Key;
      var j := PlaceFor(sorted, x, depth);
      InsertSorted(sorted, x, j, depth);
      InsertMultiset(sorted, x, j);
      sorted := sorted[..j] + [x] + sorted[j..];
      i := i + 1;
    }
    assert nodes[..|nodes|] == nodes;
  }

  lemma {:induction false} InsertMultiset(s: seq<FTNode>, x: FTNode, j: nat)
    requires j <= |s|
    ensures multiset(s[..j] + [x] + s[j..]) == multiset(s) + multiset{x}
  {
    assert s == s[..j] + s[j..];
  }

  lemma {:induction false} InsertSorted(s: seq<FTNode>, x: FTNode, j: nat, depth: nat)
    requires AllUpTo(s, depth) && Sorted(s, depth) && x.level <= depth && j <= |s|
    requires forall k :: 0 <= k < j ==> Key(s[k], depth) <= Key(x, depth)
    requires j < |s| ==> Key(x, depth) <= Key(s[j], depth)
    ensures AllUpTo(s[..j] + [x] + s[j..], depth) && Sorted(s[..j] + [x] + s[j..], depth)
  {
    hide Key;
    var t := s[..j] + [x] + s[j..];
    assert AllUpTo(t, depth);
    forall a, b | 0 <= a < b < |t|
      ensures Key(t[a], depth) <= Key(t[b], depth)
    {
      var a' := if a < j then a else a - 1;
      var b' := if b < j then b else b - 1;
      assert a == j || t[a] == s[a'];
      assert b == j || t[b] == s[b'];
      assert a == j && j < |s| ==> Key(x, depth) <= Key(s[j], depth) <= Key(s[b'], depth);
    }
  }

  /** Whatever is collected and sorted is the list from left to right. */
  lemma {:induction false} SortedIsInOrder(use: Flags, depth: nat, all: seq<FTNode>, s: seq<FTNode>)
    requires Shape(use, depth) && Covered(use, 0, 0, depth) && Collected(use, depth, all, depth + 1, 0)
    requires multiset(s) == multiset(all) && AllUpTo(s, depth) && Sorted(s, depth)
    ensures s == InOrder(use, 0, 0, depth)
  {
    var t := InOrder(use, 0, 0, depth);
    InOrderTiles(use, 0, 0, depth);
    TileStrict(t, depth, First(0, 0, depth), First(0, 0, depth) + Width(0, depth));
    forall x
      ensures x in all <==> x in t
    {
      UsedListed(use, depth, x);
    }
    assert NoRepeats(t);
    hide InOrder, Covered, Collected, First, Width;
    SameElements(all, t);
    OneOrder(s, t, depth);
  }

  // ----- the child pointers -----

  ghost predicate Filled(children: seq<nat>, nodes: seq<FTNode>, depth: nat, k: nat)
    requires k < |nodes| && nodes[k].level <= depth
  {
    var a := First(nodes[k].level, nodes[k].id, depth);
    a + Width(nodes[k].level, depth) <= |children|
    && forall p :: a <= p < a + Width(nodes[k].level, depth) ==> children[p] == k
  }

  /** The child-filling loop of bulk_load_node: pointer p gets the number of the node whose slots include p, and none is left over. */
  method FillChildren(nodes: seq<FTNode>, depth: nat) returns (children: array<nat>)
    requires Tile(nodes, depth, 0, Pow2(depth)) && AllUpTo(nodes, depth)
    ensures children.Length == Pow2(depth)
    ensures forall k :: 0 <= k < |nodes| ==> Filled(children[..], nodes, depth, k)
  {
    var fanout := Pow2(depth);
    children := new nat[fanout];
    var cur := 0;
    var k := 0;
    while k < |nodes|
      invariant 0 <= k <= |nodes| && 0 <= cur <= fanout && Tile(nodes[k..], depth, cur, fanout)
      invariant forall j :: 0 <= j < k ==> First(nodes[j].level, nodes[j].id, depth) + Width(nodes[j].level, depth) <= cur
      invariant forall j :: 0 <= j < k ==> Filled(children[..], nodes, depth, j)
    {
      assert nodes[k..][0] == nodes[k] && nodes[k..][1..] == nodes[k + 1..];
      var repeats := Width(nodes[k].level, depth);
      assert First(nodes[k].level, nodes[k].id, depth) == cur;
      ghost var before := children[..];
      FillRun(children, cur, repeats, k);
      forall j | 0 <= j < k
        ensures Filled(children[..], nodes, depth, j)
      {
        FilledKept(before, children[..], nodes, depth, j, cur);
      }
      cur := cur + repeats;
      k := k + 1;
    }
  }

  lemma {:induction false} FilledKept(cs: seq<nat>, cs': seq<nat>, nodes: seq<FTNode>, depth: nat, j: nat, cur: nat)
    requires j < |nodes| && nodes[j].level <= depth && Filled(cs, nodes, depth, j) && |cs'| == |cs| && cur <= |cs|
    requires First(nodes[j].level, nodes[j].id, depth) + Width(nodes[j].level, depth) <= cur
    requires forall p :: 0 <= p < cur ==> cs'[p] == cs[p]
    ensures Filled(cs', nodes, depth, j)
  {
  }

  method FillRun(children: array<nat>, cur: nat, repeats: nat, k: nat)
    requires cur + repeats <= children.Length
    modifies children
    ensures forall p :: cur <= p < cur + repeats ==> children[p] == k
    ensures forall p :: 0 <= p < cur ==> children[p] == old(children[p])
  {
    var i := cur;
    while i < cur + repeats
      invariant cur <= i <= cur + repeats
      invariant forall p :: cur <= p < i ==> children[p] == k
      invariant forall p :: 0 <= p < cur ==> children[p] == old(children[p])
    {
      children[i] := k;
      i := i + 1;
    }
  }

  /** Every slot belongs to one of the tiles. */
  lemma {:induction false} TileHas(nodes: seq<FTNode>, depth: nat, a: nat, b: nat, p: nat) returns (k: nat)
    requires Tile(nodes, depth, a, b) && a <= p < b
    ensures k < |nodes| && nodes[k].level <= depth
    ensures Key(nodes[k], depth) <= p < Key(nodes[k], depth) + Width(nodes[k].level, depth)
  {
    var w := Width(nodes[0].level, depth);
    k := 0;
    if p >= a + w {
      var j := TileHas(nodes[1..], depth, a + w, b, p);
      k := j + 1;
    }
  }

  /** The slots of a node include p. */
  predicate Over(x: FTNode, depth: nat, p: nat) {
    x.level <= depth && Key(x, depth) <= p < Key(x, depth) + Width(x.level, depth)
  }

  /** No slot belongs to two tiles. */
  lemma {:induction false} TileOnce(nodes: seq<FTNode>, depth: nat, a: nat, b: nat, j: nat, k: nat, p: nat)
    requires Tile(nodes, depth, a, b) && j < |nodes| && k < |nodes| && Over(nodes[j], depth, p) && Over(nodes[k], depth, p)
    ensures j == k
  {
    TileStrict(nodes, depth, a, b);
    var w := Width(nodes[0].level, depth);
    TileStrict(nodes[1..], depth, a + w, b);
    hide First, Width;
    assert forall m :: 1 <= m < |nodes| ==> nodes[m] == nodes[1..][m - 1];
    if j > 0 && k > 0 {
      TileOnce(nodes[1..], depth, a + w, b, j - 1, k - 1, p);
    }
  }

  /** The one used node over a slot. */
  ghost predicate OnlyOver(use: Flags, depth: nat, x: FTNode, p: nat)
    requires Shape(use, depth)
  {
    Used(use, depth, x) && Over(x, depth, p) && forall y :: Used(use, depth, y) && Over(y, depth, p) ==> y == x
  }

  lemma {:induction false} PointsToUsed(use: Flags, depth: nat, nodes: seq<FTNode>, children: seq<nat>, p: nat)
    requires Shape(use, depth) && nodes == InOrder(use, 0, 0, depth) && Tile(nodes, depth, 0, Pow2(depth)) && AllUpTo(nodes, depth)
    requires |children| == Pow2(depth) && p < Pow2(depth) && forall k :: 0 <= k < |nodes| ==> Filled(children, nodes, depth, k)
    ensures children[p] < |nodes| && OnlyOver(use, depth, nodes[children[p]], p)
  {
    var k := TileHas(nodes, depth, 0, Pow2(depth), p);
    assert Filled(children, nodes, depth, k);
    assert children[p] == k;
    UsedListed(use, depth, nodes[k]);
    hide InOrder, Tile, Shape, Pow2;
    forall y | Used(use, depth, y) && Over(y, depth, p)
      ensures y == nodes[k]
    {
      UsedListed(use, depth, y);
      var j :| 0 <= j < |nodes| && nodes[j] == y;
      TileOnce(nodes, depth, 0, Pow2(depth), j, k, p);
    }
  }

  /**
   * From a fully used level: merge as the costs say, collect the nodes then in use, and fill the
   * child pointers with them. Every pointer gets the one used node over it.
   */
  method DivideChildren(flags: Flags, depth: nat, saves: (nat, nat) -> bool)
    returns (use: Flags, nodes: seq<FTNode>, children: array<nat>)
    requires Shape(flags, depth) && OnlyLevel(flags, depth)
    ensures Shape(use, depth) && AllSettled(use, saves, depth) && Covered(use, 0, 0, depth)
    ensures nodes == InOrder(use, 0, 0, depth) && children.Length == Pow2(depth)
    ensures forall p :: 0 <= p < Pow2(depth) ==> children[p] < |nodes| && OnlyOver(use, depth, nodes[children[p]], p)
    ensures forall p :: 0 <= p < Pow2(depth) ==> UsedAbove(use, 0, 0, depth, p) == 1
  {
    use := MergeNodesUpwards(flags, depth, saves);
    nodes := CollectUsedNodes(use, depth);
    InOrderTiles(use, 0, 0, depth);
    assert First(0, 0, depth) == 0 && Width(0, depth) == Pow2(depth);
    TileStrict(nodes, depth, 0, Pow2(depth));
    children := FillChildren(nodes, depth);
    hide InOrder, Tile, Shape, Covered, AllSettled, OnlyOver, UsedAbove, Filled, AllUpTo, Pow2, First, Width;
    forall p | 0 <= p < Pow2(depth)
      ensures children[p] < |nodes| && OnlyOver(use, depth, nodes[children[p]], p) && UsedAbove(use, 0, 0, depth, p) == 1
    {
      PointsToUsed(use, depth, nodes, children[..], p);
      ExactlyOne(use, 0, 0, depth, p);
    }
  }
}

/**
 * The fanout tree: which nodes of a complete binary tree are used, how pairs of used nodes are
 * merged into their parent, and why the nodes in use always divide the children of a model node.
 */
module AlexFanout {
  import opened AlexRouting

  /** A tree node by its level and its position in the level. */
  datatype FTNode = FTNode(level: nat, id: nat)

  /** The use flags, level by level. */
  type Flags = seq<seq<bool>>

  ghost predicate Shape(use: Flags, depth: nat) {
    |use| > depth && forall l :: 0 <= l <= depth ==> |use[l]| == Pow2(l)
  }

  predicate InTree(l: nat, i: nat, depth: nat) {
    l <= depth && i < Pow2(l)
  }

  lemma {:induction false} ChildrenInTree(l: nat, i: nat, depth: nat)
    requires InTree(l, i, depth) && l < depth
    ensures InTree(l + 1, 2 * i, depth) && InTree(l + 1, 2 * i + 1, depth)
  {
  }

  /** Nothing is used from this node on down. */
  ghost predicate Empty(use: Flags, l: nat, i: nat, depth: nat)
    requires Shape(use, depth) && InTree(l, i, depth)
    decreases depth - l
  {
    !use[l][i] && (l < depth ==> Empty(use, l + 1, 2 * i, depth) && Empty(use, l + 1, 2 * i + 1, depth))
  }

  /** The used nodes from here on down cover every slot below exactly once. */
  ghost predicate Covered(use: Flags, l: nat, i: nat, depth: nat)
    requires Shape(use, depth) && InTree(l, i, depth)
    decreases depth - l
  {
    if use[l][i] then l < depth ==> Empty(use, l + 1, 2 * i, depth) && Empty(use, l + 1, 2 * i + 1, depth)
    else l < depth && Covered(use, l + 1, 2 * i, depth) && Covered(use, l + 1, 2 * i + 1, depth)
  }

  // ----- merging -----

  ghost predicate CanMerge(use: Flags, l: nat, i: nat, depth: nat) {
    Shape(use, depth) && 0 < l <= depth && InTree(l - 1, i, depth) && 2 * i + 1 < |use[l]| && use[l][2 * i] && use[l][2 * i + 1]
  }

  function Merged(use: Flags, l: nat, i: nat): Flags
    requires 0 < l < |use| && 2 * i + 1 < |use[l]| && i < |use[l - 1]|
  {
    use[l := use[l][2 * i := false][2 * i + 1 := false]][l - 1 := use[l - 1][i := true]]
  }

  lemma {:induction false} MergedShape(use: Flags, l: nat, i: nat, depth: nat)
    requires CanMerge(use, l, i, depth)
    ensures Shape(Merged(use, l, i), depth)
  {
  }

  /** A part of the tree that the merge does not touch. */
  predicate Beside(a: nat, x: nat, l: nat, i: nat) {
    a > l || (a == l && x != 2 * i && x != 2 * i + 1)
  }

  lemma {:induction false} BesideSame(use: Flags, l: nat, i: nat, depth: nat, a: nat, x: nat)
    requires CanMerge(use, l, i, depth) && InTree(a, x, depth) && Beside(a, x, l, i) && Shape(Merged(use, l, i), depth)
    ensures Empty(Merged(use, l, i), a, x, depth) <==> Empty(use, a, x, depth)
    ensures Covered(Merged(use, l, i), a, x, depth) <==> Covered(use, a, x, depth)
    decreases depth - a
  {
    assert Merged(use, l, i)[a][x] == use[a][x];
    if a < depth {
      BesideSame(use, l, i, depth, a + 1, 2 * x);
      BesideSame(use, l, i, depth, a + 1, 2 * x + 1);
    }
  }

  lemma {:induction false} MergeEmpty(use: Flags, l: nat, i: nat, depth: nat, a: nat, x: nat)
    requires CanMerge(use, l, i, depth) && InTree(a, x, depth) && a < l && Shape(Merged(use, l, i), depth)
    requires Empty(use, a, x, depth)
    ensures Empty(Merged(use, l, i), a, x, depth)
    decreases depth - a
  {
    if a < l - 1 {
      MergeEmpty(use, l, i, depth, a + 1, 2 * x);
      MergeEmpty(use, l, i, depth, a + 1, 2 * x + 1);
    } else {
      assert Empty(use, l, 2 * x, depth);
      BesideSame(use, l, i, depth, l, 2 * x);
      BesideSame(use, l, i, depth, l, 2 * x + 1);
    }
  }

  /** Merging two used siblings into their parent keeps every slot covered exactly once. */
  lemma {:induction false} MergeCovered(use: Flags, l: nat, i: nat, depth: nat, a: nat, x: nat)
    requires CanMerge(use, l, i, depth) && InTree(a, x, depth) && a < l && Shape(Merged(use, l, i), depth)
    requires Covered(use, a, x, depth)
    ensures Covered(Merged(use, l, i), a, x, depth)
    decreases depth - a
  {
    var use' := Merged(use, l, i);
    if a < l - 1 {
      assert use'[a][x] == use[a][x];
      if use[a][x] {
        MergeEmpty(use, l, i, depth, a + 1, 2 * x);
        MergeEmpty(use, l, i, depth, a + 1, 2 * x + 1);
      } else {
        MergeCovered(use, l, i, depth, a + 1, 2 * x);
        MergeCovered(use, l, i, depth, a + 1, 2 * x + 1);
      }
    } else if x != i {
      BesideSame(use, l, i, depth, l, 2 * x);
      BesideSame(use, l, i, depth, l, 2 * x + 1);
    } else {
      HalvesEmptied(use, l, i, depth, 2 * i);
      HalvesEmptied(use, l, i, depth, 2 * i + 1);
    }
  }

  lemma {:induction false} HalvesEmptied(use: Flags, l: nat, i: nat, depth: nat, x: nat)
    requires CanMerge(use, l, i, depth) && (x == 2 * i || x == 2 * i + 1) && InTree(l, x, depth)
    requires Shape(Merged(use, l, i), depth) && Covered(use, l, x, depth)
    ensures Empty(Merged(use, l, i), l, x, depth)
  {
    if l < depth {
      BesideSame(use, l, i, depth, l + 1, 2 * x);
      BesideSame(use, l, i, depth, l + 1, 2 * x + 1);
    }
  }

  /** One level is fully used and nothing else. */
  ghost predicate OnlyLevel(use: Flags, depth: nat)
    requires Shape(use, depth)
  {
    forall l, i :: 0 <= l <= depth && 0 <= i < Pow2(l) ==> (use[l][i] <==> l == depth)
  }

  lemma {:induction false} LevelCovers(use: Flags, l: nat, i: nat, depth: nat)
    requires Shape(use, depth) && OnlyLevel(use, depth) && InTree(l, i, depth)
    ensures Covered(use, l, i, depth)
    decreases depth - l
  {
    assert use[l][i] <==> l == depth;
    if l < depth {
      LevelCovers(use, l + 1, 2 * i, depth);
      LevelCovers(use, l + 1, 2 * i + 1, depth);
    }
  }

  /** Whether everything below a node is merged into it: it is on the lowest level, or both its halves are and the costs say so. */
  predicate Joins(saves: (nat, nat) -> bool, l: nat, i: nat, depth: nat)
    requires l <= depth
    decreases depth - l
  {
    l == depth || (saves(l + 1, i) && Joins(saves, l + 1, 2 * i, depth) && Joins(saves, l + 1, 2 * i + 1, depth))
  }

  /** A node is in use in the end when everything below is merged into it and it is not itself merged further. */
  predicate Stays(saves: (nat, nat) -> bool, l: nat, i: nat, depth: nat)
    requires l <= depth
  {
    Joins(saves, l, i, depth) && (l == 0 || !Joins(saves, l - 1, i / 2, depth))
  }

  ghost predicate Settled(use: Flags, saves: (nat, nat) -> bool, depth: nat, l: nat)
    requires Shape(use, depth) && l <= depth
  {
    forall i :: 0 <= i < Pow2(l) ==> (use[l][i] <==> Stays(saves, l, i, depth))
  }

  /** The flags before level l is merged into the level above: lower levels are done, and higher ones not in use. */
  ghost predicate Reached(use: Flags, saves: (nat, nat) -> bool, depth: nat, l: nat)
    requires Shape(use, depth) && l <= depth
  {
    && (forall a :: l < a <= depth ==> Settled(use, saves, depth, a))
    && (forall i :: 0 <= i < Pow2(l) ==> (use[l][i] <==> Joins(saves, l, i, depth)))
    && (forall a, i :: 0 <= a < l && 0 <= i < Pow2(a) ==> !use[a][i])
  }

  /** Of one level, the first n nodes are in use if everything below is merged into them, and no others. */
  ghost predicate TakenIn(level: seq<bool>, saves: (nat, nat) -> bool, depth: nat, l: nat, n: nat)
    requires l <= depth
  {
    forall j :: 0 <= j < |level| ==> (level[j] <==> j < n && Joins(saves, l, j, depth))
  }

  ghost predicate NoneOf(level: seq<bool>, n: nat) {
    n <= |level| && forall j :: 0 <= j < n ==> !level[j]
  }

  /** The same in the middle of a level: the pairs before i have been looked at. */
  ghost predicate Halfway(use: Flags, saves: (nat, nat) -> bool, depth: nat, l: nat, i: nat)
    requires Shape(use, depth) && 0 < l <= depth
  {
    && (forall a :: l < a <= depth ==> Settled(use, saves, depth, a))
    && (forall j :: 0 <= j < Pow2(l) ==> (use[l][j] <==> if j / 2 < i then Stays(saves, l, j, depth) else Joins(saves, l, j, depth)))
    && TakenIn(use[l - 1], saves, depth, l - 1, i)
    && (forall a, j :: 0 <= a < l - 1 && 0 <= j < Pow2(a) ==> !use[a][j])
  }

  /** The flags after all merging. */
  ghost predicate AllSettled(use: Flags, saves: (nat, nat) -> bool, depth: nat)
    requires Shape(use, depth)
  {
    forall l :: 0 <= l <= depth ==> Settled(use, saves, depth, l)
  }

  lemma {:induction false} StartReached(use: Flags, saves: (nat, nat) -> bool, depth: nat)
    requires Shape(use, depth) && OnlyLevel(use, depth)
    ensures Reached(use, saves, depth, depth)
  {
  }

  lemma {:induction false} LevelStarts(use: Flags, saves: (nat, nat) -> bool, depth: nat, l: nat)
    requires Shape(use, depth) && 0 < l <= depth && Reached(use, saves, depth, l)
    ensures Halfway(use, saves, depth, l, 0)
  {
    hide Joins, Stays, Settled;
  }

  lemma {:induction false} LevelEnds(use: Flags, saves: (nat, nat) -> bool, depth: nat, l: nat)
    requires Shape(use, depth) && 0 < l <= depth && Halfway(use, saves, depth, l, Pow2(l) / 2)
    ensures Reached(use, saves, depth, l - 1)
  {
    assert Pow2(l) == 2 * Pow2(l - 1);
    hide Joins, Stays, Pow2;
    assert Settled(use, saves, depth, l);
    hide Settled;
  }

  /** A pair that is merged, or left as it is, is as it will stay. */
  lemma {:induction false} PairDone(use: Flags, saves: (nat, nat) -> bool, depth: nat, l: nat, i: nat)
    requires Shape(use, depth) && 0 < l <= depth && i < Pow2(l - 1) && Halfway(use, saves, depth, l, i)
    ensures var both := use[l][2 * i] && use[l][2 * i + 1] && saves(l, i);
      && both == Joins(saves, l - 1, i, depth)
      && (!both ==> Halfway(use, saves, depth, l, i + 1))
      && (both ==> Shape(Merged(use, l, i), depth) && Halfway(Merged(use, l, i), saves, depth, l, i + 1))
  {
    assert Pow2(l) == 2 * Pow2(l - 1);
    assert Joins(saves, l - 1, i, depth) <==> saves(l, i) && Joins(saves, l, 2 * i, depth) && Joins(saves, l, 2 * i + 1, depth);
    assert forall j :: j / 2 == i <==> j == 2 * i || j == 2 * i + 1;
    hide Joins, Pow2, Settled;
    if use[l][2 * i] && use[l][2 * i + 1] && saves(l, i) {
      PairMerged(use, saves, depth, l, i);
    }
  }

  lemma {:induction false} PairMerged(use: Flags, saves: (nat, nat) -> bool, depth: nat, l: nat, i: nat)
    requires CanMerge(use, l, i, depth) && Halfway(use, saves, depth, l, i) && Joins(saves, l - 1, i, depth)
    ensures Shape(Merged(use, l, i), depth) && Halfway(Merged(use, l, i), saves, depth, l, i + 1)
  {
    MergedShape(use, l, i, depth);
    hide Joins, Pow2;
    var use' := Merged(use, l, i);
    assert forall j :: j / 2 == i <==> j == 2 * i || j == 2 * i + 1;
    forall a | l < a <= depth
      ensures Settled(use', saves, depth, a)
    {
      assert use'[a] == use[a] && Settled(use, saves, depth, a);
    }
  }

  /** When no pair of a level is merged, nothing above is in use, now or ever. */
  lemma {:induction false} NoneAbove(saves: (nat, nat) -> bool, depth: nat, l: nat, a: nat, i: nat)
    requires a <= l <= depth && i < Pow2(a) && forall j :: 0 <= j < Pow2(l) ==> !Joins(saves, l, j, depth)
    ensures !Joins(saves, a, i, depth)
    decreases l - a
  {
    if a < l {
      NoneAbove(saves, depth, l, a + 1, 2 * i);
    }
  }

  lemma {:induction false} EndSettled(use: Flags, saves: (nat, nat) -> bool, depth: nat, l: nat)
    requires Shape(use, depth) && l <= depth && Reached(use, saves, depth, l)
    requires l == 0 || NoneOf(use[l], Pow2(l))
    ensures AllSettled(use, saves, depth)
  {
    forall a | 0 <= a <= l
      ensures Settled(use, saves, depth, a)
    {
      forall i | 0 <= i < Pow2(a)
        ensures use[a][i] <==> Stays(saves, a, i, depth)
      {
        if l > 0 {
          NoneAbove(saves, depth, l, a, i);
        }
      }
    }
  }

  /**
   * Merge pairs of used nodes level by level, as long as a level has at least one merge; any costs
   * may decide. In use in the end are exactly the nodes that take in all below them and are not
   * taken in themselves, and they cover every slot once.
   */
  method MergeNodesUpwards(flags: Flags, start: nat, saves: (nat, nat) -> bool) returns (use: Flags)
    requires Shape(flags, start) && OnlyLevel(flags, start)
    ensures Shape(use, start) && Covered(use, 0, 0, start) && AllSettled(use, saves, start)
  {
    use := flags;
    LevelCovers(use, 0, 0, start);
    StartReached(use, saves, start);
    var level := start;
    var merged := true;
    hide Covered, Reached, Halfway, AllSettled, OnlyLevel, Joins, NoneOf;
    while level >= 1 && merged
      invariant 0 <= level <= start && Shape(use, start) && Covered(use, 0, 0, start) && Reached(use, saves, start, level)
      invariant !merged ==> NoneOf(use[level], Pow2(level))
      decreases level
    {
      use, merged := MergeLevel(use, start, level, saves);
      level := level - 1;
    }
    EndSettled(use, saves, start, level);
  }

  /** One level of merging, and whether there was any. */
  method MergeLevel(flags: Flags, start: nat, level: nat, saves: (nat, nat) -> bool) returns (use: Flags, merged: bool)
    requires 0 < level <= start && Shape(flags, start) && Covered(flags, 0, 0, start) && Reached(flags, saves, start, level)
    ensures Shape(use, start) && Covered(use, 0, 0, start) && Reached(use, saves, start, level - 1)
    ensures !merged ==> NoneOf(use[level - 1], Pow2(level - 1))
  {
    use, merged := flags, false;
    LevelStarts(use, saves, start, level);
    assert Pow2(level) == 2 * Pow2(level - 1);
    hide Covered, Reached, Joins, Stays, Settled, Pow2;
    var i := 0;
    while i < Pow2(level) / 2
      invariant 0 <= i <= Pow2(level - 1) && Shape(use, start) && Covered(use, 0, 0, start) && Halfway(use, saves, start, level, i)
      invariant !merged ==> NoneOf(use[level - 1], i)
    {
      PairDone(use, saves, start, level, i);
      if use[level][2 * i] && use[level][2 * i + 1] && saves(level, i) {
        MergeCovered(use, level, i, start, 0, 0);
        use := Merged(use, level, i);
        merged := true;
      }
      i := i + 1;
    }
    LevelEnds(use, saves, start, level);
  }

  // ----- exactly one -----

  /** The first slot of a node and the number of its slots. */
  function Width(l: nat, depth: nat): (w: nat)
    requires l <= depth
    ensures w > 0
  {
    Pow2(depth - l)
  }

  function First(l: nat, i: nat, depth: nat): nat
    requires l <= depth
  {
    i * Width(l, depth)
  }

  lemma {:induction false} Halves(l: nat, i: nat, depth: nat)
    requires l < depth
    ensures Width(l, depth) == 2 * Width(l + 1, depth)
    ensures First(l + 1, 2 * i, depth) == First(l, i, depth)
    ensures First(l + 1, 2 * i + 1, depth) == First(l, i, depth) + Width(l + 1, depth)
  {
    var w := Width(l + 1, depth);
    assert (2 * i) * w == i * (2 * w);
    assert (2 * i + 1) * w == (2 * i) * w + w;
  }

  /** How many of the nodes from here down to the slot are used. */
  ghost function UsedAbove(use: Flags, l: nat, i: nat, depth: nat, slot: nat): nat
    requires Shape(use, depth) && InTree(l, i, depth)
    decreases depth - l
  {
    (if use[l][i] then 1 else 0) +
    if l == depth then 0
    else if slot < First(l + 1, 2 * i + 1, depth) then UsedAbove(use, l + 1, 2 * i, depth, slot)
    else UsedAbove(use, l + 1, 2 * i + 1, depth, slot)
  }

  lemma {:induction false} EmptyMeansNone(use: Flags, l: nat, i: nat, depth: nat, slot: nat)
    requires Shape(use, depth) && InTree(l, i, depth) && Empty(use, l, i, depth)
    ensures UsedAbove(use, l, i, depth, slot) == 0
    decreases depth - l
  {
    if l < depth {
      EmptyMeansNone(use, l + 1, 2 * i, depth, slot);
      EmptyMeansNone(use, l + 1, 2 * i + 1, depth, slot);
    }
  }

  /** Each slot of the level has exactly one used node on its way from the root, itself included. */
  lemma {:induction false} ExactlyOne(use: Flags, l: nat, i: nat, depth: nat, slot: nat)
    requires Shape(use, depth) && InTree(l, i, depth) && Covered(use, l, i, depth)
    ensures UsedAbove(use, l, i, depth, slot) == 1
    decreases depth - l
  {
    if l < depth {
      if use[l][i] {
        EmptyMeansNone(use, l + 1, 2 * i, depth, slot);
        EmptyMeansNone(use, l + 1, 2 * i + 1, depth, slot);
      } else {
        ExactlyOne(use, l + 1, 2 * i, depth, slot);
        ExactlyOne(use, l + 1, 2 * i + 1, depth, slot);
      }
    }
  }

  // ----- in order -----

  /** The used nodes from left to right. */
  ghost function InOrder(use: Flags, l: nat, i: nat, depth: nat): seq<FTNode>
    requires Shape(use, depth) && InTree(l, i, depth)
    decreases depth - l
  {
    (if use[l][i] then [FTNode(l, i)] else []) +
    if l == depth then [] else InOrder(use, l + 1, 2 * i, depth) + InOrder(use, l + 1, 2 * i + 1, depth)
  }

  lemma {:induction false} EmptyList(use: Flags, l: nat, i: nat, depth: nat)
    requires Shape(use, depth) && InTree(l, i, depth) && Empty(use, l, i, depth)
    ensures InOrder(use, l, i, depth) == []
    decreases depth - l
  {
    if l < depth {
      EmptyList(use, l + 1, 2 * i, depth);
      EmptyList(use, l + 1, 2 * i + 1, depth);
    }
  }

  /** Each node starts where the one before it ends, from slot a to slot b. */
  ghost predicate Tile(nodes: seq<FTNode>, depth: nat, a: nat, b: nat) {
    if nodes == [] then a == b
    else
      var x := nodes[0];
      && x.level <= depth
      && First(x.level, x.id, depth) == a
      && a + Width(x.level, depth) <= b
      && Tile(nodes[1..], depth, a + Width(x.level, depth), b)
  }

  lemma {:induction false} TileConcat(x: seq<FTNode>, y: seq<FTNode>, depth: nat, a: nat, b: nat, c: nat)
    requires Tile(x, depth, a, b) && Tile(y, depth, b, c) && b <= c
    ensures Tile(x + y, depth, a, c)
  {
    if x == [] {
      assert x + y == y;
    } else {
      assert (x + y)[1..] == x[1..] + y;
      TileConcat(x[1..], y, depth, a + Width(x[0].level, depth), b, c);
    }
  }

  /** The used nodes of a covered tree, from left to right, tile its slots. */
  lemma {:induction false} InOrderTiles(use: Flags, l: nat, i: nat, depth: nat)
    requires Shape(use, depth) && InTree(l, i, depth) && Covered(use, l, i, depth)
    ensures Tile(InOrder(use, l, i, depth), depth, First(l, i, depth), First(l, i, depth) + Width(l, depth))
    decreases depth - l
  {
    var a := First(l, i, depth);
    if use[l][i] {
      UsedList(use, l, i, depth);
      TileOne(l, i, depth);
    } else {
      Halves(l, i, depth);
      InOrderTiles(use, l + 1, 2 * i, depth);
      InOrderTiles(use, l + 1, 2 * i + 1, depth);
      var w := Width(l + 1, depth);
      assert InOrder(use, l, i, depth) == InOrder(use, l + 1, 2 * i, depth) + InOrder(use, l + 1, 2 * i + 1, depth);
      hide First, Width, InOrder, Covered, Tile;
      TileConcat(InOrder(use, l + 1, 2 * i, depth), InOrder(use, l + 1, 2 * i + 1, depth), depth, a, a + w, a + 2 * w);
    }
  }

  lemma {:induction false} TileOne(l: nat, i: nat, depth: nat)
    requires l <= depth
    ensures Tile([FTNode(l, i)], depth, First(l, i, depth), First(l, i, depth) + Width(l, depth))
  {
    assert [FTNode(l, i)][1..] == [];
  }

  lemma {:induction false} UsedList(use: Flags, l: nat, i: nat, depth: nat)
    requires Shape(use, depth) && InTree(l, i, depth) && Covered(use, l, i, depth) && use[l][i]
    ensures InOrder(use, l, i, depth) == [FTNode(l, i)]
  {
    if l < depth {
      EmptyList(use, l + 1, 2 * i, depth);
      EmptyList(use, l + 1, 2 * i + 1, depth);
    }
  }
}

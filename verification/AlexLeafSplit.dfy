/**
 * Splitting a data node in two, sideways and downwards: the pairs are divided between two new nodes,
 * and every stored key is then routed to the node that holds it. Arithmetic is exact. Children are
 * told apart by their addresses, which are numbers here.
 */
module AlexLeafSplit {
  import opened AlexRouting
  import opened AlexModelNode
  import opened AlexSplit
  import opened AlexSlots
  import opened AlexSearch
  import opened AlexNode

  // ----- where the pairs are divided -----

  /** predict, for a key of a data node. */
  function Predicted(m: Model, key: int): int {
    Truncate(At(m, key as real))
  }

  lemma {:induction false} PredictedBelow(m: Model, key: int, mid: nat)
    requires mid > 0
    ensures Predicted(m, key) < mid <==> At(m, key as real) < mid as real
  {
    var x := At(m, key as real);
    if x >= 0.0 {
      assert x.Floor as real <= x < (x.Floor + 1) as real;
    } else {
      assert (-x).Floor as real <= -x < ((-x).Floor + 1) as real;
    }
  }

  /** The test of the correction loop: the slot at the boundary is predicted left of the middle. */
  predicate Misplaced(s: seq<Slot>, m: Model, mid: nat, i: nat) {
    i < |s| && s[i].key != SENTINEL && Predicted(m, s[i].key) < mid
  }

  /** A gap has the key of the next filled slot. */
  lemma {:induction false} GapRepeats(s: seq<Slot>, i: nat, j: nat)
    requires SlotsOk(s) && i <= j < |s| && forall q :: i <= q < j ==> !s[q].filled
    ensures s[i].key == s[j].key
    decreases j - i
  {
    if i < j {
      assert SlotOk(s, i);
      GapRepeats(s, i + 1, j);
    }
  }

  lemma {:induction false} GapsToTheEnd(s: seq<Slot>, i: nat)
    requires SlotsOk(s) && i < |s| && forall q :: i <= q < |s| ==> !s[q].filled
    ensures s[i].key == SENTINEL
    decreases |s| - i
  {
    assert SlotOk(s, i);
    if i + 1 < |s| {
      GapsToTheEnd(s, i + 1);
    }
  }

  /**
   * The loop that corrects the boundary after rounding. From any start it passes only pairs that
   * belong to the left, and it stops where the rest belongs to the right; it takes no step exactly
   * when the boundary is not misplaced.
   */
  method Correct(leaf: AlexDataNode, m: Model, mid: nat, from: nat) returns (r: nat)
    requires leaf.Layout() && SlotsOk(leaf.Slots()) && from <= leaf.keys.Length == |leaf.Slots()|
    ensures from <= r <= leaf.keys.Length
    ensures r == from <==> !Misplaced(leaf.Slots(), m, mid, from)
    ensures !Misplaced(leaf.Slots(), m, mid, r)
    ensures forall i :: from <= i < r && leaf.Slots()[i].filled ==> Predicted(m, leaf.Slots()[i].key) < mid
  {
    leaf.SlotsAre();
    hide AlexDataNode.Layout, AlexDataNode.Slots, AlexBitmap.Shape, AlexBitmap.Exists, SlotsOk, Predicted;
    ghost var s := leaf.Slots();
    r := from;
    while r < leaf.keys.Length && leaf.keys[r] != SENTINEL && Predicted(m, leaf.keys[r]) < mid
      invariant from <= r <= leaf.keys.Length
      invariant r == from || Misplaced(s, m, mid, from)
      invariant forall i :: from <= i < r && s[i].filled ==> Predicted(m, s[i].key) < mid
    {
      var next := GetNextFilledPosition(leaf.bitmap[..], leaf.keys.Length, r, false);
      ghost var q := next.value;
      if q == leaf.keys.Length {
        GapsToTheEnd(s, r);
      } else {
        GapRepeats(s, r, q);
      }
      r := if next.value + 1 < leaf.keys.Length then next.value + 1 else leaf.keys.Length;
    }
  }

  /** In exact arithmetic the boundary found by lower_bound is not misplaced. */
  lemma {:induction false} NotMisplaced(s: seq<Slot>, m: Model, mid: nat, r: nat)
    requires m.a > 0.0 && mid > 0 && r <= |s|
    requires forall i :: 0 <= i < |s| ==> (i < r <==> s[i].key as real < (mid as real - m.b) / m.a)
    ensures !Misplaced(s, m, mid, r)
    ensures forall i :: 0 <= i < |s| ==> (i < r <==> At(m, s[i].key as real) < mid as real)
  {
    forall i | 0 <= i < |s|
      ensures i < r <==> At(m, s[i].key as real) < mid as real
    {
      Threshold(m, s[i].key as real, mid);
    }
    if r < |s| {
      PredictedBelow(m, s[r].key, mid);
    }
  }

  // ----- the two data nodes -----

  /** All pairs are predicted left of a position, or none. */
  ghost predicate AllLeft(c: seq<Pair>, m: Model, mid: real) {
    forall i :: 0 <= i < |c| ==> At(m, c[i].key as real) < mid
  }

  ghost predicate AllRight(c: seq<Pair>, m: Model, mid: real) {
    forall i :: 0 <= i < |c| ==> mid <= At(m, c[i].key as real)
  }

  lemma {:induction false} PairsDivided(s: seq<Slot>, m: Model, mid: real, r: nat)
    requires r <= |s| && forall i :: 0 <= i < |s| ==> (i < r <==> At(m, s[i].key as real) < mid)
    ensures Pairs(s[0..r]) + Pairs(s[r..|s|]) == Pairs(s)
    ensures AllLeft(Pairs(s[0..r]), m, mid) && AllRight(Pairs(s[r..|s|]), m, mid)
  {
    PairsSplit(s, r);
    assert s[0..r] == s[..r] && s[r..|s|] == s[r..];
    forall x | x in Pairs(s[..r])
      ensures At(m, x.key as real) < mid
    {
      PairsFrom(s[..r], x);
      var i :| 0 <= i < r && s[..r][i].filled && s[..r][i].key == x.key && s[..r][i].payload == x.payload;
      assert s[i].key == x.key;
    }
    forall x | x in Pairs(s[r..])
      ensures mid <= At(m, x.key as real)
    {
      PairsFrom(s[r..], x);
      var i :| 0 <= i < |s| - r && s[r..][i].filled && s[r..][i].key == x.key && s[r..][i].payload == x.payload;
      assert s[r + i].key == x.key;
    }
  }

  /** What the new nodes are built with. */
  datatype Plan = Plan(reuseModel: bool, predictLeft: int -> int, predictRight: int -> int, maxSlots: nat)

  /** The two nodes a leaf was divided into. */
  datatype Leaves = Leaves(left: AlexDataNode, right: AlexDataNode)

  /**
   * Two new nodes take the pairs on either side of position mid of the model, and no pair is lost or
   * doubled. The load of the right one reads past the bitmap exactly when the key in the last slot
   * belongs to the left and the bitmap has no partial word.
   */
  method DivideLeaf(leaf: AlexDataNode, m: Model, mid: nat, plan: Plan) returns (r: Checked<Leaves>)
    requires leaf.Valid() && m.a > 0.0 && mid > 0
    ensures r.PastBitmap? == old(ReadsPast(leaf.keys.Length, leaf.keys[leaf.keys.Length - 1], m, mid as real))
    ensures r.Ok? ==> r.value.left.Valid() && r.value.right.Valid() && r.value.left != r.value.right
    ensures r.Ok? ==> fresh(r.value.left.Repr()) && fresh(r.value.right.Repr())
    ensures r.Ok? ==> r.value.left.Contents() + r.value.right.Contents() == leaf.Contents()
    ensures r.Ok? ==> AllLeft(r.value.left.Contents(), m, mid as real) && AllRight(r.value.right.Contents(), m, mid as real)
    ensures r.Ok? ==> r.value.left.model == plan.predictLeft && r.value.right.model == plan.predictRight
    ensures r.Ok? ==> r.value.left.maxSlots == r.value.right.maxSlots == plan.maxSlots
  {
    leaf.SlotsAre();
    ghost var s := leaf.Slots();
    hide AlexDataNode.Layout, AlexDataNode.Slots, SlotsOk, Pairs, Misplaced, AllLeft, AllRight, At;
    var boundary := leaf.LowerBoundAt((mid as real - m.b) / m.a);
    NotMisplaced(s, m, mid, boundary);
    boundary := Correct(leaf, m, mid, boundary);
    PairsDivided(s, m, mid as real, boundary);
    var left := LeafFromExisting(leaf, 0, boundary, plan.reuseModel, plan.predictLeft, plan.maxSlots);
    var right := LeafFromExisting(leaf, boundary, leaf.keys.Length, plan.reuseModel, plan.predictRight, plan.maxSlots);
    if right.PastBitmap? {
      return PastBitmap;
    }
    return Ok(Leaves(left.value, right.value));
  }

  // ----- the splits -----

  /** The load of the right half reads past the bitmap: the last key is left of the middle, and the last word is not partial. */
  ghost predicate ReadsPast(capacity: nat, last: int, m: Model, middle: real) {
    capacity % 64 == 0 && At(m, last as real) < middle
  }

  /** Two models with their positions put every key on the same side. */
  ghost predicate SameSides(m: Model, x: real, m': Model, x': real) {
    forall key: real :: At(m, key) < x <==> At(m', key) < x'
  }

  lemma {:induction false} SamePast(capacity: nat, last: int, m: Model, x: real, m': Model, x': real)
    requires SameSides(m, x, m', x')
    ensures ReadsPast(capacity, last, m, x) <==> ReadsPast(capacity, last, m', x')
  {
    hide At;
  }

  /** Every key stored in the leaf is routed to child c. */
  ghost predicate Home(parent: ModelNode, c: nat, leaf: AlexDataNode)
    reads parent, parent.children, leaf, leaf.keys, leaf.payloads, leaf.bitmap
    requires parent.children.Length > 0 && leaf.Layout()
  {
    forall i :: 0 <= i < |leaf.Contents()| ==> parent.ChildOf(leaf.Contents()[i].key as real) == c
  }

  /** The leaves stand for the given pairs, and each key is routed to the one that holds it. */
  ghost predicate Divided(parent: ModelNode, left: nat, right: nat, leaves: Leaves, pairs: seq<Pair>)
    reads parent, parent.children, leaves.left, leaves.left.keys, leaves.left.payloads, leaves.left.bitmap
    reads leaves.right, leaves.right.keys, leaves.right.payloads, leaves.right.bitmap
  {
    && parent.children.Length > 0
    && leaves.left.Valid()
    && leaves.right.Valid()
    && leaves.left != leaves.right
    && leaves.left.Contents() + leaves.right.Contents() == pairs
    && Home(parent, left, leaves.left)
    && Home(parent, right, leaves.right)
  }

  /** The position in the middle of the range of run k. */
  ghost function Middle(runs: seq<Run>, k: nat): real
    requires k < |runs|
  {
    Start(runs, k) as real + Pow2(runs[k].factor) as real / 2.0
  }

  /** The first position of the right half of run k. */
  ghost predicate InTheMiddle(runs: seq<Run>, k: nat, mid: nat) {
    k < |runs| && runs[k].factor > 0 && mid == Start(runs, k) + Pow2(runs[k].factor - 1)
  }

  /** The runs of a parent in which every child has at least two pointers, if child k needs them. */
  ghost function Roomy(runs: seq<Run>, k: nat): seq<Run>
    requires k < |runs|
  {
    if runs[k].factor == 0 then Widened(runs, 1) else runs
  }

  /** All these keys are routed to c. */
  ghost predicate AllRouted(cs: seq<nat>, m: Model, pairs: seq<Pair>, c: nat)
    requires |cs| > 0
  {
    forall i :: 0 <= i < |pairs| ==> Route(cs, m, pairs[i].key as real) == c
  }

  lemma HomeIs(parent: ModelNode, c: nat, leaf: AlexDataNode)
    requires parent.Valid() && leaf.Valid()
    ensures Home(parent, c, leaf) <==> AllRouted(parent.children[..], parent.model, leaf.Contents(), c)
  {
    hide AlexDataNode.Layout, AlexDataNode.Contents, Bucket, SlotsOk, Flat;
  }

  /** An insert puts a pair into the node its key is routed to, so what is asked of a node before a split stays true. */
  lemma {:induction false} InsertKeepsRoutes(cs: seq<nat>, m: Model, pairs: seq<Pair>, c: nat, x: Pair)
    requires |cs| > 0 && AllRouted(cs, m, pairs, c) && Route(cs, m, x.key as real) == c
    ensures AllRouted(cs, m, Added(pairs, x), c)
  {
    hide Route;
    var after := Added(pairs, x);
    forall i | 0 <= i < |after|
      ensures Route(cs, m, after[i].key as real) == c
    {
      AddedFrom(pairs, x, after[i]);
    }
  }

  /** The keys left of the middle are routed to the left child, the others to the right one. */
  lemma {:induction false} HalvesRouted(cs: seq<nat>, cs': seq<nat>, m: Model, a: seq<Pair>, b: seq<Pair>,
                                        child: nat, mid: nat, left: nat, right: nat)
    requires RoutedApart(cs, m, cs', m, child, mid, left, right)
    requires AllRouted(cs, m, a + b, child) && AllLeft(a, m, mid as real) && AllRight(b, m, mid as real)
    ensures AllRouted(cs', m, a, left) && AllRouted(cs', m, b, right)
  {
    hide Route, At;
    forall i | 0 <= i < |a|
      ensures Route(cs', m, a[i].key as real) == left
    {
      assert (a + b)[i] == a[i];
    }
    forall i | 0 <= i < |b|
      ensures Route(cs', m, b[i].key as real) == right
    {
      assert (a + b)[|a| + i] == b[i];
    }
  }

  /**
   * create_two_new_data_nodes: the pairs of the old node go to two new ones, and the pointers to it
   * are divided between them at their middle.
   */
  method CreateTwoNewDataNodes(parent: ModelNode, ghost k: nat, start: nat, factor: nat, leaf: AlexDataNode,
                               left: nat, right: nat, plan: Plan)
    returns (r: Checked<Leaves>, mid: nat)
    requires parent.Valid() && parent.model.a > 0.0
    requires k < |parent.runs| && parent.runs[k].factor == factor > 0 && start == Start(parent.runs, k)
    requires NewChild(parent.runs, left) && NewChild(parent.runs, right) && left != right
    requires leaf.Valid() && Home(parent, parent.runs[k].child, leaf)
    modifies parent`factors, parent`runs, parent.children
    ensures mid == start + Pow2(factor - 1) && InTheMiddle(old(parent.runs), k, mid) && parent.Valid()
    ensures r.PastBitmap? ==
      old(ReadsPast(leaf.keys.Length, leaf.keys[leaf.keys.Length - 1], parent.model, (start + Pow2(factor - 1)) as real))
    ensures r.PastBitmap? ==> unchanged(parent) && unchanged(parent.children)
    ensures r.Ok? ==> parent.runs == Halved(old(parent.runs), k, left, right)
    ensures r.Ok? ==> RoutedApart(
      old(parent.children[..]), parent.model, parent.children[..], parent.model, old(parent.runs)[k].child, mid, left, right)
    ensures r.Ok? ==> fresh(r.value.left.Repr()) && fresh(r.value.right.Repr())
    ensures r.Ok? ==> Divided(parent, left, right, r.value, old(leaf.Contents()))
  {
    hide AlexDataNode.Valid, AlexDataNode.Contents, AlexDataNode.Layout, ModelNode.Valid, AllLeft, AllRight, AllRouted;
    hide Home, NewChild, Divided, Flat, Halved, RoutedApart, SlotsOk;
    mid := start + Half(factor);
    HomeIs(parent, parent.runs[k].child, leaf);
    r := DivideLeaf(leaf, parent.model, mid, plan);
    if r.Ok? {
      PointToLeaves(parent, k, start, factor, r.value, left, right);
    }
  }

  /** The pointers to the old node are divided between the two new ones. */
  method PointToLeaves(parent: ModelNode, ghost k: nat, start: nat, factor: nat, leaves: Leaves, left: nat, right: nat)
    requires parent.Valid() && parent.model.a > 0.0
    requires k < |parent.runs| && parent.runs[k].factor == factor > 0 && start == Start(parent.runs, k)
    requires NewChild(parent.runs, left) && NewChild(parent.runs, right) && left != right
    requires leaves.left.Valid() && leaves.right.Valid() && leaves.left != leaves.right
    requires parent.children !in leaves.left.Repr() && parent.children !in leaves.right.Repr()
    requires AllRouted(parent.children[..], parent.model, leaves.left.Contents() + leaves.right.Contents(), parent.runs[k].child)
    requires AllLeft(leaves.left.Contents(), parent.model, (start + Pow2(factor - 1)) as real)
    requires AllRight(leaves.right.Contents(), parent.model, (start + Pow2(factor - 1)) as real)
    modifies parent`factors, parent`runs, parent.children
    ensures parent.Valid() && parent.runs == Halved(old(parent.runs), k, left, right)
    ensures RoutedApart(old(parent.children[..]), parent.model, parent.children[..], parent.model,
      old(parent.runs)[k].child, start + Pow2(factor - 1), left, right)
    ensures Divided(parent, left, right, leaves, old(leaves.left.Contents() + leaves.right.Contents()))
  {
    ghost var cs, child := parent.children[..], parent.runs[k].child;
    ghost var a, b := leaves.left.Contents(), leaves.right.Contents();
    hide *;
    DividePointers(parent, k, start, factor, left, right);
    assert leaves.left.Valid() && leaves.left.Contents() == a && leaves.right.Valid() && leaves.right.Contents() == b;
    HalvesRouted(cs, parent.children[..], parent.model, a, b, child, start + Pow2(factor - 1), left, right);
    HomeIs(parent, left, leaves.left);
    HomeIs(parent, right, leaves.right);
  }

  // ----- sideways -----

  /** The middle of a run, before and after its pointers are doubled. */
  lemma {:induction false} MiddleIs(runs: seq<Run>, k: nat, m: Model, key: real)
    requires k < |runs|
    ensures runs[k].factor > 0 ==>
      Middle(runs, k) == (Start(runs, k) + Pow2(runs[k].factor - 1)) as real
    ensures runs[k].factor == 0 ==>
      (At(Expanded(m, 2), key) < (Start(runs, k) * 2 + 1) as real <==> At(m, key) < Middle(runs, k))
  {
    ExpandedAt(m, key, 2);
  }

  /** The first bucket with the same child. */
  function FirstBucket(bucket: nat, factor: nat): nat {
    RemainderSmall(bucket, Pow2(factor));
    bucket - bucket % Pow2(factor)
  }

  lemma {:induction false} RemainderSmall(n: nat, d: nat)
    requires d > 0
    ensures 0 <= n % d <= n
  {
    var q := n / d;
    assert n == q * d + n % d;
    TimesNat(0, q, d);
  }

  lemma {:induction false} FindRunOf(parent: ModelNode, bucket: nat) returns (k: nat)
    requires parent.Valid() && bucket < parent.children.Length
    ensures k < |parent.runs| && parent.children[bucket] in parent.factors
    ensures var factor := parent.factors[parent.children[bucket]];
      parent.runs[k] == Run(parent.children[bucket], factor) && FirstBucket(bucket, factor) == Start(parent.runs, k)
  {
    k := RunOf(parent, bucket);
  }

  /** Every key has the same child before and after. */
  ghost predicate SameRoutes(cs: seq<nat>, m: Model, cs': seq<nat>, m': Model) {
    |cs| > 0 && |cs'| > 0 && forall key: real :: Route(cs', m', key) == Route(cs, m, key)
  }

  lemma {:induction false} StillRouted(cs: seq<nat>, m: Model, cs': seq<nat>, m': Model, pairs: seq<Pair>, c: nat)
    requires SameRoutes(cs, m, cs', m') && AllRouted(cs, m, pairs, c)
    ensures AllRouted(cs', m', pairs, c)
  {
    hide Route;
  }

  /** A split after the pointers were doubled, seen from before. */
  lemma {:induction false} Rerouting(cs: seq<nat>, m: Model, cs': seq<nat>, m': Model, cs'': seq<nat>,
                                     child: nat, mid: nat, left: nat, right: nat)
    requires SameRoutes(cs, m, cs', m') && RoutedApart(cs', m', cs'', m', child, mid, left, right)
    ensures RoutedApart(cs, m, cs'', m', child, mid, left, right)
  {
    hide Route, HalfFor, Rerouted;
  }

  /** The parent's pointers are doubled if the child has only one; this changes no route. */
  method MakeRoom(parent: ModelNode, bucket: nat) returns (start: nat, factor: nat, ghost k: nat)
    requires parent.Valid() && bucket < parent.children.Length && parent.model.a > 0.0
    modifies parent
    ensures k < |old(parent.runs)| && old(parent.runs)[k].child == old(parent.children[bucket])
    ensures parent.Valid() && parent.model.a > 0.0 && parent.runs == Roomy(old(parent.runs), k)
    ensures k < |parent.runs| && parent.runs[k] == Run(old(parent.children[bucket]), factor) && factor > 0
    ensures start == Start(parent.runs, k)
    ensures parent.children == old(parent.children) || fresh(parent.children)
    ensures SameRoutes(old(parent.children[..]), old(parent.model), parent.children[..], parent.model)
    ensures SameSides(parent.model, (start + Pow2(factor - 1)) as real, old(parent.model), Middle(old(parent.runs), k))
    ensures forall c :: NewChild(old(parent.runs), c) ==> NewChild(parent.runs, c)
  {
    k := FindRunOf(parent, bucket);
    hide FirstBucket;
    ghost var runs, m := parent.runs, parent.model;
    var child := parent.children[bucket];
    factor := parent.factors[child];
    var at := bucket;
    if factor == 0 {
      at := DoublePointers(parent, bucket, k);
      factor := 1;
    } else {
      SameMiddle(runs, k, m);
    }
    start := FirstBucket(at, factor);
  }

  lemma {:induction false} SameMiddle(runs: seq<Run>, k: nat, m: Model)
    requires k < |runs| && runs[k].factor > 0
    ensures SameSides(m, (Start(runs, k) + Pow2(runs[k].factor - 1)) as real, m, Middle(runs, k))
  {
    MiddleIs(runs, k, m, 0.0);
    hide At, Middle, Start;
  }

  lemma {:induction false} EvenBucket(bucket: nat)
    ensures Pow2(1) == 2 && FirstBucket(bucket * 2, 1) == bucket * 2
  {
    assert Pow2(1) == 2;
  }

  method DoublePointers(parent: ModelNode, bucket: nat, ghost k: nat) returns (at: nat)
    requires parent.Valid() && bucket < parent.children.Length && parent.model.a > 0.0
    requires k < |parent.runs| && parent.runs[k] == Run(parent.children[bucket], 0) && Start(parent.runs, k) == bucket
    modifies parent
    ensures parent.Valid() && parent.model.a > 0.0 && parent.runs == Widened(old(parent.runs), 1) && fresh(parent.children)
    ensures k < |parent.runs| && parent.runs[k] == Run(old(parent.children[bucket]), 1)
    ensures FirstBucket(at, 1) == Start(parent.runs, k)
    ensures SameRoutes(old(parent.children[..]), old(parent.model), parent.children[..], parent.model)
    ensures SameSides(parent.model, (Start(parent.runs, k) + Pow2(0)) as real, old(parent.model), Middle(old(parent.runs), k))
    ensures forall c :: NewChild(old(parent.runs), c) ==> NewChild(parent.runs, c)
  {
    ghost var runs, cs, m := parent.runs, parent.children[..], parent.model;
    var f := parent.Expand(1);
    hide Expanded, At;
    DoubledAt(parent, runs, cs, bucket, k);
    at := bucket * f;
    StartWidened(runs, k, 1);
    EvenBucket(bucket);
    DoubledSides(runs, k, m);
    ExpandedRises(m, f);
    hide FirstBucket, Flat, Widened, Start, Bucket, NewChild, Middle;
    forall key: real
      ensures Route(parent.children[..], parent.model, key) == Route(cs, m, key)
    {
      assert parent.ChildOf(key) == old(parent.ChildOf(key));
    }
  }

  lemma {:induction false} ExpandedRises(m: Model, f: nat)
    requires m.a > 0.0 && f > 0
    ensures Expanded(m, f).a > 0.0
  {
    Product(m.a, 0.0, f as real);
  }

  lemma {:induction false} DoubledSides(runs: seq<Run>, k: nat, m: Model)
    requires k < |runs| && runs[k].factor == 0
    ensures SameSides(Expanded(m, 2), (Start(runs, k) * 2 + 1) as real, m, Middle(runs, k))
  {
    forall key: real
      ensures At(Expanded(m, 2), key) < (Start(runs, k) * 2 + 1) as real <==> At(m, key) < Middle(runs, k)
    {
      MiddleIs(runs, k, m, key);
    }
  }

  /** Making room leaves the data node and its keys where they are. */
  method PrepareSideways(parent: ModelNode, bucket: nat, ghost leaf: AlexDataNode)
    returns (start: nat, factor: nat, ghost k: nat, ghost past: bool)
    requires parent.Valid() && bucket < parent.children.Length && parent.model.a > 0.0
    requires leaf.Valid() && Home(parent, parent.children[bucket], leaf)
    modifies parent
    ensures k < |old(parent.runs)| && old(parent.runs)[k].child == old(parent.children[bucket])
    ensures parent.Valid() && parent.model.a > 0.0 && parent.runs == Roomy(old(parent.runs), k)
    ensures k < |parent.runs| && parent.runs[k] == Run(old(parent.children[bucket]), factor) && factor > 0
    ensures start == Start(parent.runs, k)
    ensures parent.children == old(parent.children) || fresh(parent.children)
    ensures SameRoutes(old(parent.children[..]), old(parent.model), parent.children[..], parent.model)
    ensures forall c :: NewChild(old(parent.runs), c) ==> NewChild(parent.runs, c)
    ensures leaf.Valid() && leaf.Contents() == old(leaf.Contents()) && Home(parent, parent.runs[k].child, leaf)
    ensures past == ReadsPast(leaf.keys.Length, leaf.keys[leaf.keys.Length - 1], parent.model, (start + Pow2(factor - 1)) as real)
    ensures past == old(ReadsPast(leaf.keys.Length, leaf.keys[leaf.keys.Length - 1], parent.model, Middle(parent.runs, k)))
  {
    ghost var cs, m, child, runs := parent.children[..], parent.model, parent.children[bucket], parent.runs;
    ghost var pairs, cap, last := leaf.Contents(), leaf.keys.Length, leaf.keys[leaf.keys.Length - 1];
    HomeIs(parent, child, leaf);
    hide *;
    start, factor, k := MakeRoom(parent, bucket);
    assert leaf.keys[leaf.keys.Length - 1] == last && leaf.keys.Length == cap;
    assert leaf.Valid() && leaf.Contents() == pairs;
    SamePast(cap, last, parent.model, (start + Pow2(factor - 1)) as real, m, Middle(runs, k));
    past := ReadsPast(cap, last, m, Middle(runs, k));
    StillRouted(cs, m, parent.children[..], parent.model, pairs, child);
    HomeIs(parent, child, leaf);
  }

  /**
   * split_sideways in two: afterwards the pairs of the old node are in the two new ones, in order and
   * complete, and every one of their keys is routed to the node that holds it.
   */
  method SplitSideways(parent: ModelNode, bucket: nat, leaf: AlexDataNode, left: nat, right: nat, plan: Plan)
    returns (r: Checked<Leaves>, mid: nat, ghost k: nat)
    requires parent.Valid() && bucket < parent.children.Length && parent.model.a > 0.0
    requires NewChild(parent.runs, left) && NewChild(parent.runs, right) && left != right
    requires leaf.Valid() && Home(parent, parent.children[bucket], leaf)
    modifies parent, parent.children
    ensures parent.Valid() && parent.model.a > 0.0
    ensures k < |old(parent.runs)| && old(parent.runs)[k].child == old(parent.children[bucket])
    ensures r.PastBitmap? ==
      old(ReadsPast(leaf.keys.Length, leaf.keys[leaf.keys.Length - 1], parent.model, Middle(parent.runs, k)))
    ensures r.PastBitmap? ==> SameRoutes(old(parent.children[..]), old(parent.model), parent.children[..], parent.model)
    ensures InTheMiddle(Roomy(old(parent.runs), k), k, mid)
    ensures r.Ok? ==> parent.runs == Halved(Roomy(old(parent.runs), k), k, left, right)
    ensures r.Ok? ==> RoutedApart(old(parent.children[..]), old(parent.model), parent.children[..], parent.model,
      old(parent.children[bucket]), mid, left, right)
    ensures r.Ok? ==> fresh(r.value.left.Repr()) && fresh(r.value.right.Repr())
    ensures r.Ok? ==> Divided(parent, left, right, r.value, old(leaf.Contents()))
  {
    ghost var cs, m, child := parent.children[..], parent.model, parent.children[bucket];
    var start, factor;
    ghost var past;
    start, factor, k, past := PrepareSideways(parent, bucket, leaf);
    hide *;
    ghost var cs', m' := parent.children[..], parent.model;
    r, mid := CreateTwoNewDataNodes(parent, k, start, factor, leaf, left, right, plan);
    assert r.PastBitmap? == past;
    if r.Ok? {
      Rerouting(cs, m, cs', m', parent.children[..], child, mid, left, right);
    }
  }

  // ----- downwards -----

  /** The middle of the range is the boundary of the new node's two children. */
  lemma {:induction false} BelowSides(m: Model, runs: seq<Run>, k: nat)
    requires m.a > 0.0 && k < |runs|
    ensures var s := Start(runs, k); var e := s + Pow2(runs[k].factor);
      s < e && Below(m, s as real, e as real).a > 0.0
      && SameSides(Below(m, s as real, e as real), 1.0, m, Middle(runs, k))
  {
    var s, e := Start(runs, k) as real, (Start(runs, k) + Pow2(runs[k].factor)) as real;
    assert s < e;
    BelowIs(m, s, e, 0.0);
    forall key: real
      ensures At(Below(m, s, e), key) < 1.0 <==> At(m, key) < Middle(runs, k)
    {
      HalvesAgree(m, s, e, key);
    }
  }

  lemma {:induction false} TwoRouted(m: Model, a: seq<Pair>, b: seq<Pair>, left: nat, right: nat)
    requires AllLeft(a, m, 1.0) && AllRight(b, m, 1.0)
    ensures AllRouted([left, right], m, a, left) && AllRouted([left, right], m, b, right)
  {
    forall i | 0 <= i < |a|
      ensures Route([left, right], m, a[i].key as real) == left
    {
      TwoRoutes(m, a[i].key as real, left, right);
    }
    forall i | 0 <= i < |b|
      ensures Route([left, right], m, b[i].key as real) == right
    {
      TwoRoutes(m, b[i].key as real, left, right);
    }
  }

  /** Every key goes to the child for its side of the middle. */
  ghost predicate RoutedByHalf(cs: seq<nat>, m: Model, m': Model, middle: real, left: nat, right: nat) {
    |cs| > 0 && forall key: real :: Route(cs, m, key) == if At(m', key) < middle then left else right
  }

  /** A model node with two children, which divide a range of positions of its parent's model at the middle. */
  ghost predicate DividesRange(node: ModelNode, m: Model, middle: real, left: nat, right: nat)
    reads node, node.children
  {
    && node.Valid()
    && node.children[..] == [left, right]
    && RoutedByHalf(node.children[..], node.model, m, middle, left, right)
  }

  lemma {:induction false} TwoByHalf(m: Model, m': Model, middle: real, left: nat, right: nat)
    requires SameSides(m, 1.0, m', middle)
    ensures RoutedByHalf([left, right], m, m', middle, left, right)
  {
    forall key: real
      ensures Route([left, right], m, key) == if At(m', key) < middle then left else right
    {
      TwoRoutes(m, key, left, right);
    }
  }

  /** Every key that had the old child has the new one, and every other key its old child. */
  ghost predicate RoutedOn(cs: seq<nat>, cs': seq<nat>, m: Model, child: nat, inner: nat) {
    |cs| > 0 && |cs'| > 0 && forall key: real :: Route(cs', m, key) == Rerouted(Route(cs, m, key), child, inner)
  }

  lemma {:induction false} RenamedOn(runs: seq<Run>, k: nat, c: nat, m: Model)
    requires DistinctChildren(runs) && k < |runs|
    ensures RoutedOn(Flat(runs), Flat(Renamed(runs, k, c)), m, runs[k].child, c)
  {
    RenamedRoutes(runs, k, c, m, 0.0);
    forall key: real
      ensures Route(Flat(Renamed(runs, k, c)), m, key) == Rerouted(Route(Flat(runs), m, key), runs[k].child, c)
    {
      RenamedRoutes(runs, k, c, m, key);
    }
  }

  lemma {:induction false} RoutedOnToo(cs: seq<nat>, cs': seq<nat>, m: Model, pairs: seq<Pair>, child: nat, inner: nat)
    requires RoutedOn(cs, cs', m, child, inner) && AllRouted(cs, m, pairs, child)
    ensures AllRouted(cs', m, pairs, inner)
  {
    hide Route;
  }

  /** The pointers of one run are given to the new model node. */
  method PointDown(parent: ModelNode, ghost k: nat, start: nat, factor: nat, inner: nat, ghost pairs: seq<Pair>)
    requires parent.Valid() && k < |parent.runs| && parent.runs[k].factor == factor && start == Start(parent.runs, k)
    requires NewChild(parent.runs, inner) && AllRouted(parent.children[..], parent.model, pairs, parent.runs[k].child)
    modifies parent`factors, parent`runs, parent.children
    ensures parent.Valid() && parent.runs == Renamed(old(parent.runs), k, inner)
    ensures RoutedOn(old(parent.children[..]), parent.children[..], parent.model, old(parent.runs)[k].child, inner)
    ensures AllRouted(parent.children[..], parent.model, pairs, inner)
  {
    ghost var runs, cs := parent.runs, parent.children[..];
    ReplaceRun(parent, k, start, factor, inner);
    assert cs == Flat(runs) && parent.children[..] == Flat(parent.runs);
    RenamedOn(runs, k, inner, parent.model);
    RoutedOnToo(cs, parent.children[..], parent.model, pairs, runs[k].child, inner);
  }

  method NewTwo(below: Model, ghost m: Model, ghost middle: real, left: nat, right: nat) returns (node: ModelNode)
    requires left != right && RoutedByHalf([left, right], below, m, middle, left, right)
    ensures fresh(node) && fresh(node.children) && DividesRange(node, m, middle, left, right) && node.Valid()
    ensures node.model == below && node.children[..] == [left, right]
  {
    node := new ModelNode.Two(below, left, right);
  }

  /** The new model node over the range of run k, with its two data nodes. */
  method NewInner(m: Model, ghost runs: seq<Run>, ghost k: nat, start: nat, factor: nat, leaf: AlexDataNode,
                  left: nat, right: nat, plan: Plan, ghost past: bool)
    returns (r: Checked<Leaves>, node: ModelNode)
    requires m.a > 0.0 && k < |runs| && start == Start(runs, k) && factor == runs[k].factor && left != right
    requires leaf.Valid() && past == ReadsPast(leaf.keys.Length, leaf.keys[leaf.keys.Length - 1], m, Middle(runs, k))
    ensures r.PastBitmap? == past
    ensures fresh(node) && fresh(node.children) && DividesRange(node, m, Middle(runs, k), left, right)
    ensures r.Ok? ==> fresh(r.value.left.Repr()) && fresh(r.value.right.Repr())
    ensures r.Ok? ==> Divided(node, left, right, r.value, leaf.Contents())
  {
    BelowSides(m, runs, k);
    var below := Below(m, start as real, (start + Pow2(factor)) as real);
    ghost var cap, last := leaf.keys.Length, leaf.keys[leaf.keys.Length - 1];
    SamePast(cap, last, below, 1.0, m, Middle(runs, k));
    TwoByHalf(below, m, Middle(runs, k), left, right);
    hide *;
    r := DivideLeaf(leaf, below, 1, plan);
    assert r.PastBitmap? == past;
    node := NewTwo(below, m, Middle(runs, k), left, right);
    if r.Ok? {
      TwoRouted(below, r.value.left.Contents(), r.value.right.Contents(), left, right);
      HomeIs(node, left, r.value.left);
      HomeIs(node, right, r.value.right);
    }
  }

  /** Everything that is built before the parent's pointers are changed. */
  method BuildBelow(parent: ModelNode, bucket: nat, leaf: AlexDataNode, left: nat, right: nat, plan: Plan)
    returns (r: Checked<Leaves>, node: ModelNode, start: nat, factor: nat, ghost k: nat)
    requires parent.Valid() && bucket < parent.children.Length && parent.model.a > 0.0 && left != right
    requires leaf.Valid() && Home(parent, parent.children[bucket], leaf)
    ensures k < |parent.runs| && parent.runs[k] == Run(parent.children[bucket], factor) && start == Start(parent.runs, k)
    ensures r.PastBitmap? == old(ReadsPast(leaf.keys.Length, leaf.keys[leaf.keys.Length - 1], parent.model, Middle(parent.runs, k)))
    ensures fresh(node) && fresh(node.children) && DividesRange(node, parent.model, Middle(parent.runs, k), left, right)
    ensures r.Ok? ==> fresh(r.value.left.Repr()) && fresh(r.value.right.Repr())
    ensures r.Ok? ==> Divided(node, left, right, r.value, leaf.Contents())
    ensures AllRouted(parent.children[..], parent.model, leaf.Contents(), parent.children[bucket])
  {
    k := FindRunOf(parent, bucket);
    factor := parent.factors[parent.children[bucket]];
    start := FirstBucket(bucket, factor);
    ghost var past := ReadsPast(leaf.keys.Length, leaf.keys[leaf.keys.Length - 1], parent.model, Middle(parent.runs, k));
    HomeIs(parent, parent.children[bucket], leaf);
    hide *;
    r, node := NewInner(parent.model, parent.runs, k, start, factor, leaf, left, right, plan, past);
  }

  /** Pointing the parent to the new model node leaves that node and its data nodes alone. */
  method PointDownTo(parent: ModelNode, ghost k: nat, start: nat, factor: nat, inner: nat, node: ModelNode, leaves: Leaves,
                     ghost middle: real, ghost left: nat, ghost right: nat, ghost pairs: seq<Pair>)
    requires parent.Valid() && k < |parent.runs| && parent.runs[k].factor == factor && start == Start(parent.runs, k)
    requires NewChild(parent.runs, inner) && AllRouted(parent.children[..], parent.model, pairs, parent.runs[k].child)
    requires node != parent && node.children != parent.children
    requires parent.children !in leaves.left.Repr() && parent.children !in leaves.right.Repr()
    requires DividesRange(node, parent.model, middle, left, right) && Divided(node, left, right, leaves, pairs)
    modifies parent`factors, parent`runs, parent.children
    ensures parent.Valid() && parent.runs == Renamed(old(parent.runs), k, inner)
    ensures RoutedOn(old(parent.children[..]), parent.children[..], parent.model, old(parent.runs)[k].child, inner)
    ensures AllRouted(parent.children[..], parent.model, pairs, inner)
    ensures DividesRange(node, parent.model, middle, left, right) && Divided(node, left, right, leaves, pairs)
    ensures leaves.left.Repr() == old(leaves.left.Repr()) && leaves.right.Repr() == old(leaves.right.Repr())
  {
    hide NewChild, AllRouted, RoutedOn, Renamed, Start, DividesRange, Divided, ModelNode.Valid;
    PointDown(parent, k, start, factor, inner, pairs);
  }

  /**
   * split_downwards in two: a new model node takes the place of the data node and divides its range
   * at the middle between two new data nodes. Every key stored in the old node is routed to the new
   * model node and by it to the data node that holds the key.
   */
  method SplitDownwards(parent: ModelNode, bucket: nat, leaf: AlexDataNode, inner: nat, left: nat, right: nat, plan: Plan)
    returns (r: Checked<Leaves>, node: ModelNode, ghost k: nat)
    requires parent.Valid() && bucket < parent.children.Length && parent.model.a > 0.0
    requires NewChild(parent.runs, inner) && left != right
    requires leaf.Valid() && Home(parent, parent.children[bucket], leaf)
    modifies parent`factors, parent`runs, parent.children
    ensures parent.Valid() && k < |old(parent.runs)| && old(parent.runs)[k].child == old(parent.children[bucket])
    ensures r.PastBitmap? ==
      old(ReadsPast(leaf.keys.Length, leaf.keys[leaf.keys.Length - 1], parent.model, Middle(parent.runs, k)))
    ensures r.PastBitmap? ==> unchanged(parent) && unchanged(parent.children)
    ensures fresh(node) && fresh(node.children) && DividesRange(node, parent.model, Middle(old(parent.runs), k), left, right)
    ensures r.Ok? ==> parent.runs == Renamed(old(parent.runs), k, inner)
    ensures r.Ok? ==> RoutedOn(old(parent.children[..]), parent.children[..], parent.model, old(parent.children[bucket]), inner)
    ensures r.Ok? ==> AllRouted(parent.children[..], parent.model, old(leaf.Contents()), inner)
    ensures r.Ok? ==> fresh(r.value.left.Repr()) && fresh(r.value.right.Repr())
    ensures r.Ok? ==> Divided(node, left, right, r.value, old(leaf.Contents()))
  {
    ghost var pairs := leaf.Contents();
    hide *;
    var start, factor;
    r, node, start, factor, k := BuildBelow(parent, bucket, leaf, left, right, plan);
    if r.Ok? {
      PointDownTo(parent, k, start, factor, inner, node, r.value, Middle(parent.runs, k), left, right, pairs);
    }
  }

  /**
   * The read past the bitmap happens in a split of a freshly loaded node: 45 pairs get 64 slots, the
   * last one is filled when the node's model sends the greatest key there or beyond, and when the
   * parent's model has every key left of mid the right half starts at the end of the bitmap.
   */
  method SplitPastBitmap(values: seq<Pair>, predict: int -> int, m: Model, mid: nat, plan: Plan)
    returns (leaf: AlexDataNode, r: Checked<Leaves>)
    requires |values| == 45 && InOrder(values) && forall i :: 0 <= i < |values| ==> values[i].key < SENTINEL
    requires predict(values[44].key) >= 63 && m.a > 0.0 && mid > 0 && AllLeft(values, m, mid as real)
    ensures leaf.Valid() && leaf.Contents() == values && leaf.keys.Length == 64 && leaf.keys[63] == values[44].key
    ensures r.PastBitmap? && ReadsPast(leaf.keys.Length, leaf.keys[63], m, mid as real)
  {
    leaf := new AlexDataNode.BulkLoad(values, predict, plan.maxSlots);
    assert Capacity(45, 0.7) == 64;
    assert leaf.keys[63] == values[44].key;
    r := DivideLeaf(leaf, m, mid, plan);
  }
}

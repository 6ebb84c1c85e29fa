/** The pointers of a model node when one of its children is split in two, sideways or downwards. */
module AlexSplit {
  import opened AlexRouting
  import opened AlexModelNode

  lemma {:induction false} FindRun(runs: seq<Run>, p: nat, m: nat) returns (k: nat)
    requires m <= |runs| && p < Start(runs, m)
    ensures k < m && Start(runs, k) <= p < Start(runs, k + 1)
  {
    StartEnds(runs, 0);
    if Start(runs, m - 1) <= p {
      k := m - 1;
    } else {
      k := FindRun(runs, p, m - 1);
    }
  }

  /** A position in an aligned run leads back to the start of the run. */
  lemma {:induction false} AlignedStart(p: nat, s: nat, r: nat)
    requires r > 0 && Divides(r, s) && s <= p < s + r
    ensures p - p % r == s
  {
    var q := s / r;
    assert s == q * r;
    assert (q + 1) * r == q * r + r;
    QuotientIs(p, r, q);
  }

  lemma {:induction false} HalfDivides(s: nat, h: nat)
    requires h > 0 && Divides(2 * h, s)
    ensures Divides(h, s) && Divides(h, s + h)
  {
    var q := s / (2 * h);
    assert s == q * (2 * h) == (2 * q) * h;
    MultipleDivides(2 * q, h);
    assert s + h == (2 * q + 1) * h;
    MultipleDivides(2 * q + 1, h);
  }

  /** Run k becomes two runs of half its length. */
  ghost function Halved(runs: seq<Run>, k: nat, left: nat, right: nat): seq<Run>
    requires k < |runs| && runs[k].factor > 0
  {
    runs[..k] + [Run(left, runs[k].factor - 1), Run(right, runs[k].factor - 1)] + runs[k + 1..]
  }

  lemma {:induction false} FlatPair(a: Run, b: Run)
    ensures Flat([a, b]) == Repeat(a.child, Pow2(a.factor)) + Repeat(b.child, Pow2(b.factor))
  {
    assert [a, b][..1] == [a] && [a][..0] == [];
    assert Flat([a]) == Flat([]) + Repeat(a.child, Pow2(a.factor));
  }

  lemma {:induction false} FlatParts(runs: seq<Run>, k: nat)
    requires k < |runs|
    ensures Flat(runs) == Flat(runs[..k]) + Repeat(runs[k].child, Pow2(runs[k].factor)) + Flat(runs[k + 1..])
  {
    var a, b := runs[..k + 1], runs[k + 1..];
    assert Flat(runs) == Flat(a) + Flat(b) by {
      assert a + b == runs;
      FlatConcat(a, b);
    }
    assert Flat(a) == Flat(runs[..k]) + Repeat(runs[k].child, Pow2(runs[k].factor)) by {
      FlatStep(runs, k);
    }
  }

  lemma {:induction false} HalvedParts(runs: seq<Run>, k: nat, left: nat, right: nat)
    requires k < |runs| && runs[k].factor > 0
    ensures var h := Pow2(runs[k].factor - 1);
      Flat(Halved(runs, k, left, right)) == Flat(runs[..k]) + (Repeat(left, h) + Repeat(right, h)) + Flat(runs[k + 1..])
  {
    var pair := [Run(left, runs[k].factor - 1), Run(right, runs[k].factor - 1)];
    FlatPair(pair[0], pair[1]);
    hide Flat;
    FlatConcat(runs[..k] + pair, runs[k + 1..]);
    FlatConcat(runs[..k], pair);
  }

  /** The first h pointers of the run lead to the left node, the other h to the right one. */
  ghost predicate SplitAt(before: seq<nat>, s: nat, h: nat, left: nat, right: nat, after: seq<nat>) {
    && s + 2 * h <= |before| == |after|
    && (forall p :: 0 <= p < s ==> after[p] == before[p])
    && (forall p :: s <= p < s + h ==> after[p] == left)
    && (forall p :: s + h <= p < s + 2 * h ==> after[p] == right)
    && (forall p :: s + 2 * h <= p < |before| ==> after[p] == before[p])
  }

  lemma {:induction false} PartsSplit(a: seq<nat>, b: seq<nat>, c: nat, h: nat, left: nat, right: nat)
    ensures SplitAt(a + Repeat(c, 2 * h) + b, |a|, h, left, right, a + (Repeat(left, h) + Repeat(right, h)) + b)
  {
  }

  lemma {:induction false} HalvedFlat(runs: seq<Run>, k: nat, left: nat, right: nat)
    requires k < |runs| && runs[k].factor > 0
    ensures SplitAt(Flat(runs), Start(runs, k), Pow2(runs[k].factor - 1), left, right, Flat(Halved(runs, k, left, right)))
  {
    assert Pow2(runs[k].factor) == 2 * Pow2(runs[k].factor - 1);
    hide Flat, SplitAt, Halved, Pow2;
    FlatParts(runs, k);
    HalvedParts(runs, k, left, right);
    PartsSplit(Flat(runs[..k]), Flat(runs[k + 1..]), runs[k].child, Pow2(runs[k].factor - 1), left, right);
  }

  // ----- the halves are aligned -----

  lemma {:induction false} HalvedStart(runs: seq<Run>, k: nat, left: nat, right: nat, j: nat)
    requires k < |runs| && runs[k].factor > 0 && j <= |runs| + 1
    ensures |Halved(runs, k, left, right)| == |runs| + 1
    ensures Start(Halved(runs, k, left, right), j) ==
      if j <= k then Start(runs, j)
      else if j == k + 1 then Start(runs, k) + Pow2(runs[k].factor - 1)
      else Start(runs, j - 1)
  {
    var after := Halved(runs, k, left, right);
    if j <= k {
      assert after[..j] == runs[..j];
    } else if j == k + 1 {
      assert after[..k] == runs[..k] && after[k] == Run(left, runs[k].factor - 1);
      FlatStep(after, k);
    } else {
      assert after[..j] == Halved(runs[..j - 1], k, left, right) && runs[..j - 1][..k] == runs[..k];
      HalvedFlat(runs[..j - 1], k, left, right);
    }
  }

  lemma {:induction false} HalvedAligned(runs: seq<Run>, k: nat, left: nat, right: nat)
    requires k < |runs| && runs[k].factor > 0 && Aligned(runs)
    ensures Aligned(Halved(runs, k, left, right))
  {
    var after := Halved(runs, k, left, right);
    var h := Pow2(runs[k].factor - 1);
    assert Divides(2 * h, Start(runs, k));
    HalfDivides(Start(runs, k), h);
    forall j | 0 <= j < |after|
      ensures Divides(Pow2(after[j].factor), Start(after, j))
    {
      HalvedStart(runs, k, left, right, j);
      if j < k {
        assert Divides(Pow2(runs[j].factor), Start(runs, j));
      } else if j > k + 1 {
        assert Divides(Pow2(runs[j - 1].factor), Start(runs, j - 1));
      }
    }
  }

  // ----- routing after a split -----

  /** Which half of a run a key is routed to. */
  lemma {:induction false} HalfOf(m: Model, key: real, n: nat, mid: nat)
    requires 0 < mid < n
    ensures Bucket(m, key, n) < mid <==> At(m, key) < mid as real
  {
    if At(m, key) < mid as real {
      BucketBelow(m, key, n, mid);
    } else {
      BucketAtLeast(m, key, n, mid);
    }
  }

  /** The boundary key in a node with a rising model. */
  lemma {:induction false} Threshold(m: Model, key: real, mid: nat)
    requires m.a > 0.0
    ensures key < (mid as real - m.b) / m.a <==> At(m, key) < mid as real
  {
    var t := (mid as real - m.b) / m.a;
    assert m.a * t == mid as real - m.b;
    if key < t {
      Product(m.a, key, t);
    } else {
      Product(m.a, t, key);
    }
  }

  lemma {:induction false} Product(a: real, x: real, y: real)
    requires a > 0.0
    ensures x < y ==> a * x < a * y
    ensures x <= y ==> a * x <= a * y
  {
  }

  lemma {:induction false} SameRun(runs: seq<Run>, p: nat, k: nat)
    requires DistinctChildren(runs) && k < |runs| && p < |Flat(runs)|
    ensures Flat(runs)[p] == runs[k].child <==> Start(runs, k) <= p < Start(runs, k + 1)
  {
    StartEnds(runs, k);
    var j := FindRun(runs, p, |runs|);
    FlatAt(runs, j, p);
    if j < k {
      StartGrows(runs, j + 1, k);
    } else if k < j {
      StartGrows(runs, k + 1, j);
    }
  }

  /** After a split every key that had the old child has the half its prediction lies in, and every other key its old child. */
  lemma {:induction false} SplitRoutes(runs: seq<Run>, k: nat, left: nat, right: nat, m: Model, key: real)
    requires DistinctChildren(runs) && k < |runs| && runs[k].factor > 0
    ensures var cs, cs' := Flat(runs), Flat(Halved(runs, k, left, right));
      var mid := Start(runs, k) + Pow2(runs[k].factor - 1);
      && |cs| == |cs'| > 0
      && var p := Bucket(m, key, |cs|);
        if cs[p] == runs[k].child then cs'[p] == (if At(m, key) < mid as real then left else right) else cs'[p] == cs[p]
  {
    HalvedFlat(runs, k, left, right);
    FlatStep(runs, k);
    StartEnds(runs, k);
    var h := Pow2(runs[k].factor - 1);
    assert Pow2(runs[k].factor) == 2 * h;
    var cs := Flat(runs);
    var p := Bucket(m, key, |cs|);
    SameRun(runs, p, k);
    HalfOf(m, key, |cs|, Start(runs, k) + h);
  }

  // ----- the code -----

  ghost predicate NewChild(runs: seq<Run>, c: nat) {
    forall k :: 0 <= k < |runs| ==> runs[k].child != c
  }

  lemma {:induction false} HalvedRuns(runs: seq<Run>, k: nat, left: nat, right: nat, factors: map<nat, nat>)
    requires k < |runs| && runs[k].factor > 0 && DistinctChildren(runs) && FactorsAre(factors, runs)
    requires NewChild(runs, left) && NewChild(runs, right) && left != right
    ensures DistinctChildren(Halved(runs, k, left, right))
    ensures FactorsAre(factors[left := runs[k].factor - 1][right := runs[k].factor - 1], Halved(runs, k, left, right))
  {
    var after := Halved(runs, k, left, right);
    assert forall j :: 0 <= j < k ==> after[j] == runs[j];
    assert forall j :: k + 1 < j < |after| ==> after[j] == runs[j - 1];
  }

  lemma {:induction false} SplitFits(before: seq<nat>, s: nat, h: nat, left: nat, right: nat, after: seq<nat>)
    requires SplitAt(before, s, h, left, right, after)
    ensures s + 2 * h <= |before|
  {
  }

  lemma {:induction false} SplitOneWay(before: seq<nat>, s: nat, h: nat, left: nat, right: nat, a: seq<nat>, b: seq<nat>)
    requires SplitAt(before, s, h, left, right, a) && SplitAt(before, s, h, left, right, b)
    ensures a == b
  {
    forall p | 0 <= p < |before|
      ensures a[p] == b[p]
    {
    }
  }

  method FillTwo(a: array<nat>, s: nat, h: nat, left: nat, right: nat)
    requires s + 2 * h <= a.Length
    modifies a
    ensures SplitAt(old(a[..]), s, h, left, right, a[..])
  {
    var i := s;
    while i < s + h
      invariant s <= i <= s + h
      invariant forall j :: s <= j < i ==> a[j] == left
      invariant forall j :: 0 <= j < a.Length && !(s <= j < i) ==> a[j] == old(a[j])
    {
      a[i] := left;
      i := i + 1;
    }
    while i < s + 2 * h
      invariant s + h <= i <= s + 2 * h
      invariant forall j :: s <= j < s + h ==> a[j] == left
      invariant forall j :: s + h <= j < i ==> a[j] == right
      invariant forall j :: 0 <= j < a.Length && !(s <= j < i) ==> a[j] == old(a[j])
    {
      a[i] := right;
      i := i + 1;
    }
  }

  method FillHalves(node: ModelNode, ghost k: nat, start: nat, factor: nat, left: nat, right: nat)
    requires node.Valid() && k < |node.runs| && node.runs[k].factor == factor > 0 && start == Start(node.runs, k)
    requires NewChild(node.runs, left) && NewChild(node.runs, right) && left != right
    modifies node`factors, node`runs, node.children
    ensures node.Valid() && node.runs == Halved(old(node.runs), k, left, right)
  {
    ghost var runs, cs, after := node.runs, node.children[..], Halved(node.runs, k, left, right);
    var h := Half(factor);
    HalvedFlat(runs, k, left, right);
    HalvedAligned(runs, k, left, right);
    HalvedRuns(runs, k, left, right, node.factors);
    SplitFits(cs, start, h, left, right, Flat(after));
    hide *;
    FillTwo(node.children, start, h, left, right);
    SplitOneWay(cs, start, h, left, right, node.children[..], Flat(after));
    node.factors := node.factors[left := factor - 1][right := factor - 1];
    node.runs := after;
    NowValid(node);
  }

  /** The pointers of one run are divided between two new children, and every key follows. */
  method DividePointers(node: ModelNode, ghost k: nat, start: nat, factor: nat, left: nat, right: nat)
    requires node.Valid() && k < |node.runs| && node.runs[k].factor == factor > 0 && start == Start(node.runs, k)
    requires NewChild(node.runs, left) && NewChild(node.runs, right) && left != right
    modifies node`factors, node`runs, node.children
    ensures node.Valid() && node.runs == Halved(old(node.runs), k, left, right)
    ensures RoutedApart(
      old(node.children[..]), node.model, node.children[..], node.model, old(node.runs)[k].child, start + Pow2(factor - 1), left, right)
  {
    ghost var runs, cs := node.runs, node.children[..];
    FillHalves(node, k, start, factor, left, right);
    assert cs == Flat(runs) && node.children[..] == Flat(node.runs);
    HalvedRoutes(runs, k, left, right, node.model);
  }

  /**
   * Pointers and model before and after a split: every key that had the old child has the half it
   * belongs to, and every other key its old child.
   */
  ghost predicate RoutedApart(cs: seq<nat>, m: Model, cs': seq<nat>, m': Model, child: nat, mid: nat, left: nat, right: nat) {
    && |cs| > 0
    && |cs'| > 0
    && forall key: real :: Route(cs', m', key) == Rerouted(Route(cs, m, key), child, HalfFor(m', key, mid, left, right))
  }

  lemma {:induction false} HalvedRoutes(runs: seq<Run>, k: nat, left: nat, right: nat, m: Model)
    requires DistinctChildren(runs) && k < |runs| && runs[k].factor > 0
    ensures RoutedApart(Flat(runs), m, Flat(Halved(runs, k, left, right)), m,
      runs[k].child, Start(runs, k) + Pow2(runs[k].factor - 1), left, right)
  {
    SplitRoutes(runs, k, left, right, m, 0.0);
    var cs, cs' := Flat(runs), Flat(Halved(runs, k, left, right));
    var mid := Start(runs, k) + Pow2(runs[k].factor - 1);
    forall key: real
      ensures Route(cs', m, key) == Rerouted(Route(cs, m, key), runs[k].child, HalfFor(m, key, mid, left, right))
    {
      SplitRoutes(runs, k, left, right, m, key);
    }
  }

  /** num_buckets / 2 */
  function Half(factor: nat): (h: nat)
    requires factor > 0
    ensures h == Pow2(factor - 1)
  {
    Pow2(factor) / 2
  }

  lemma {:induction false} NowValid(node: ModelNode)
    requires node.children.Length > 0 && node.children[..] == Flat(node.runs) && Aligned(node.runs)
    requires DistinctChildren(node.runs) && FactorsAre(node.factors, node.runs)
    ensures node.Valid()
  {
  }

  /** Where a key goes after its child was split at mid. */
  function HalfFor(m: Model, key: real, mid: nat, left: nat, right: nat): nat {
    if At(m, key) < mid as real then left else right
  }

  /** A key that was routed to the old child goes to its replacement, any other key stays. */
  function Rerouted(child: nat, before: nat, after: nat): nat {
    if child == before then after else child
  }

  lemma {:induction false} RunOf(node: ModelNode, bucket: nat) returns (k: nat)
    requires node.Valid() && bucket < node.children.Length
    ensures k < |node.runs| && Start(node.runs, k) <= bucket < Start(node.runs, k) + Pow2(node.runs[k].factor)
    ensures node.runs[k].child == node.children[bucket] && Divides(Pow2(node.runs[k].factor), Start(node.runs, k))
    ensures node.runs[k].child in node.factors && node.factors[node.runs[k].child] == node.runs[k].factor
    ensures bucket - bucket % Pow2(node.runs[k].factor) == Start(node.runs, k)
  {
    StartEnds(node.runs, |node.runs|);
    k := FindRun(node.runs, bucket, |node.runs|);
    FlatStep(node.runs, k);
    FlatAt(node.runs, k, bucket);
    AlignedStart(bucket, Start(node.runs, k), Pow2(node.runs[k].factor));
  }

  lemma {:induction false} DoubledAt(node: ModelNode, runs: seq<Run>, cs: seq<nat>, bucket: nat, k: nat)
    requires node.Valid() && node.runs == Widened(runs, 1) && cs == Flat(runs) && bucket < |cs|
    requires k < |runs| && runs[k].child == cs[bucket] && runs[k].factor == 0
    ensures Pow2(1) == 2 && bucket * 2 < node.children.Length && node.children[bucket * 2] == cs[bucket]
    ensures cs[bucket] in node.factors && node.factors[cs[bucket]] == 1
    ensures forall c :: NewChild(runs, c) ==> NewChild(node.runs, c)
  {
    FlatDoubled(runs, bucket);
    assert node.children[bucket * 2] == Flat(node.runs)[bucket * 2];
    assert node.runs[k] == Run(runs[k].child, 1);
    hide Flat, Aligned, DistinctChildren;
  }

  lemma {:induction false} FlatDoubled(runs: seq<Run>, bucket: nat)
    requires bucket < |Flat(runs)|
    ensures Pow2(1) == 2 && bucket * 2 < |Flat(Widened(runs, 1))| && Flat(Widened(runs, 1))[bucket * 2] == Flat(runs)[bucket]
  {
    FlatWidened(runs, 1);
    assert Pow2(1) == 2;
    assert Part(bucket * 2, 2) == bucket;
  }

  // ----- downwards -----

  /** The model of a node that divides the range from position s to position e of its parent in two. */
  function Below(m: Model, s: real, e: real): Model
    requires m.a > 0.0 && s < e
  {
    var left := (s - m.b) / m.a;
    var right := (e - m.b) / m.a;
    Ends(m, s, e);
    var a := 1.0 / (right - left) * 2.0;
    Model(a, -a * left)
  }

  lemma {:induction false} Ends(m: Model, s: real, e: real)
    requires m.a > 0.0 && s < e
    ensures (s - m.b) / m.a < (e - m.b) / m.a
    ensures m.a * ((s - m.b) / m.a) == s - m.b && m.a * ((e - m.b) / m.a) == e - m.b
  {
    var left, right := (s - m.b) / m.a, (e - m.b) / m.a;
    assert m.a * left == s - m.b && m.a * right == e - m.b;
    if right <= left {
      Product(m.a, right, left);
    }
  }

  /** The model below counts half-ranges from the start of the range. */
  lemma {:induction false} BelowIs(m: Model, s: real, e: real, key: real)
    requires m.a > 0.0 && s < e
    ensures Below(m, s, e).a > 0.0
    ensures (e - s) * At(Below(m, s, e), key) == 2.0 * (At(m, key) - s)
  {
    Ends(m, s, e);
    var left, right := (s - m.b) / m.a, (e - m.b) / m.a;
    var d := right - left;
    var a := 1.0 / d * 2.0;
    Inverse(d);
    assert a * d == 2.0;
    assert m.a * d == e - s by { Distribute(m.a, right, left); }
    Combine(a, d, m.a, e - s);
    assert At(Below(m, s, e), key) == a * (key - left) by { Distribute(a, key, left); }
    Regroup(e - s, a, key - left, 2.0 * m.a);
    assert m.a * (key - left) == m.a * key - (s - m.b) by { Distribute(m.a, key, left); }
  }

  lemma {:induction false} Inverse(d: real)
    requires d > 0.0
    ensures 1.0 / d > 0.0 && 1.0 / d * d == 1.0 && (1.0 / d * 2.0) * d == 2.0
  {
  }

  lemma {:induction false} Distribute(a: real, x: real, y: real)
    ensures a * (x - y) == a * x - a * y
  {
  }

  lemma {:induction false} Combine(a: real, d: real, b: real, r: real)
    requires a * d == 2.0 && b * d == r
    ensures r * a == 2.0 * b
  {
    assert r * a == (b * d) * a == b * (a * d);
  }

  lemma {:induction false} Regroup(r: real, a: real, x: real, c: real)
    requires r * a == c
    ensures r * (a * x) == c * x
  {
    assert r * (a * x) == (r * a) * x;
  }

  /** So the halves below are the halves of the range. */
  lemma {:induction false} HalvesAgree(m: Model, s: real, e: real, key: real)
    requires m.a > 0.0 && s < e
    ensures At(Below(m, s, e), key) < 1.0 <==> At(m, key) < (s + e) / 2.0
  {
    var y := At(Below(m, s, e), key);
    BelowIs(m, s, e, key);
    hide Below, At;
    Product(e - s, y, 1.0);
    Product(e - s, 1.0, y);
  }

  ghost function Renamed(runs: seq<Run>, k: nat, c: nat): seq<Run>
    requires k < |runs|
  {
    runs[k := Run(c, runs[k].factor)]
  }

  /** The pointers of one run are replaced. */
  ghost predicate Replaced(before: seq<nat>, s: nat, r: nat, c: nat, after: seq<nat>) {
    && s + r <= |before| == |after|
    && (forall p :: 0 <= p < s ==> after[p] == before[p])
    && (forall p :: s <= p < s + r ==> after[p] == c)
    && (forall p :: s + r <= p < |before| ==> after[p] == before[p])
  }

  lemma {:induction false} RenamedFlat(runs: seq<Run>, k: nat, c: nat)
    requires k < |runs|
    ensures Replaced(Flat(runs), Start(runs, k), Pow2(runs[k].factor), c, Flat(Renamed(runs, k, c)))
  {
    var after := Renamed(runs, k, c);
    assert after[..k] == runs[..k] && after[k + 1..] == runs[k + 1..];
    FlatParts(runs, k);
    FlatParts(after, k);
    hide Flat, Pow2;
  }

  lemma {:induction false} RenamedRuns(runs: seq<Run>, k: nat, c: nat, factors: map<nat, nat>)
    requires k < |runs| && DistinctChildren(runs) && FactorsAre(factors, runs) && NewChild(runs, c) && Aligned(runs)
    ensures DistinctChildren(Renamed(runs, k, c)) && FactorsAre(factors[c := runs[k].factor], Renamed(runs, k, c))
    ensures Aligned(Renamed(runs, k, c))
  {
    var after := Renamed(runs, k, c);
    forall j | 0 <= j < |after|
      ensures Divides(Pow2(after[j].factor), Start(after, j))
    {
      assert Divides(Pow2(runs[j].factor), Start(runs, j));
      if j <= k {
        assert after[..j] == runs[..j];
      } else {
        assert after[..j] == Renamed(runs[..j], k, c);
        RenamedFlat(runs[..j], k, c);
      }
    }
  }

  /** After the replacement every key that had the old child has the new one. */
  lemma {:induction false} RenamedRoutes(runs: seq<Run>, k: nat, c: nat, m: Model, key: real)
    requires DistinctChildren(runs) && k < |runs|
    ensures |Flat(runs)| == |Flat(Renamed(runs, k, c))| > 0
    ensures var p := Bucket(m, key, |Flat(runs)|); Flat(Renamed(runs, k, c))[p] == Rerouted(Flat(runs)[p], runs[k].child, c)
  {
    RenamedFlat(runs, k, c);
    FlatStep(runs, k);
    StartEnds(runs, k);
    SameRun(runs, Bucket(m, key, |Flat(runs)|), k);
  }

  lemma {:induction false} TwoRoutes(m: Model, key: real, left: nat, right: nat)
    ensures [left, right][Bucket(m, key, 2)] == if At(m, key) < 1.0 then left else right
  {
    HalfOf(m, key, 2, 1);
  }

  method ReplaceRun(node: ModelNode, ghost k: nat, start: nat, factor: nat, c: nat)
    requires node.Valid() && k < |node.runs| && node.runs[k].factor == factor && start == Start(node.runs, k)
    requires NewChild(node.runs, c)
    modifies node`factors, node`runs, node.children
    ensures node.Valid() && node.runs == Renamed(old(node.runs), k, c)
  {
    ghost var runs, cs, after := node.runs, node.children[..], Renamed(node.runs, k, c);
    RenamedFlat(runs, k, c);
    RenamedRuns(runs, k, c, node.factors);
    var r := Pow2(factor);
    hide *;
    ReplacedFits(cs, start, r, c, Flat(after));
    FillOne(node.children, start, r, c);
    ReplacedOneWay(cs, start, r, c, node.children[..], Flat(after));
    node.factors := node.factors[c := factor];
    node.runs := after;
    NowValid(node);
  }

  lemma {:induction false} ReplacedFits(before: seq<nat>, s: nat, r: nat, c: nat, after: seq<nat>)
    requires Replaced(before, s, r, c, after)
    ensures s + r <= |before|
  {
  }

  lemma {:induction false} ReplacedOneWay(before: seq<nat>, s: nat, r: nat, c: nat, a: seq<nat>, b: seq<nat>)
    requires Replaced(before, s, r, c, a) && Replaced(before, s, r, c, b)
    ensures a == b
  {
    forall p | 0 <= p < |before|
      ensures a[p] == b[p]
    {
    }
  }

  method FillOne(a: array<nat>, s: nat, r: nat, c: nat)
    requires s + r <= a.Length
    modifies a
    ensures Replaced(old(a[..]), s, r, c, a[..])
  {
    var i := s;
    while i < s + r
      invariant s <= i <= s + r
      invariant forall j :: s <= j < i ==> a[j] == c
      invariant forall j :: 0 <= j < a.Length && !(s <= j < i) ==> a[j] == old(a[j])
    {
      a[i] := c;
      i := i + 1;
    }
  }
}

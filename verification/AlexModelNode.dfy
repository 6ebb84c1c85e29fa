/** The child pointers of a model node: runs of equal pointers, each a power of two long and aligned to its length. */
module AlexModelNode {
  import opened AlexRouting

  /** A child and the base-two logarithm of the number of its pointers. */
  datatype Run = Run(child: nat, factor: nat)

  ghost function Repeat(c: nat, n: nat): (s: seq<nat>)
    ensures |s| == n && forall i :: 0 <= i < n ==> s[i] == c
  {
    seq(n, i => c)
  }

  /** The pointers that runs stand for. */
  ghost function Flat(runs: seq<Run>): seq<nat> {
    if runs == [] then [] else Flat(runs[..|runs| - 1]) + Repeat(runs[|runs| - 1].child, Pow2(runs[|runs| - 1].factor))
  }

  ghost function Start(runs: seq<Run>, k: nat): nat
    requires k <= |runs|
  {
    |Flat(runs[..k])|
  }

  predicate Divides(r: nat, p: nat)
    requires r > 0
  {
    p % r == 0
  }

  ghost predicate Aligned(runs: seq<Run>) {
    forall k :: 0 <= k < |runs| ==> Divides(Pow2(runs[k].factor), Start(runs, k))
  }

  ghost predicate DistinctChildren(runs: seq<Run>) {
    forall j, k :: 0 <= j < k < |runs| ==> runs[j].child != runs[k].child
  }

  lemma {:induction false} FlatStep(runs: seq<Run>, k: nat)
    requires k < |runs|
    ensures Flat(runs[..k + 1]) == Flat(runs[..k]) + Repeat(runs[k].child, Pow2(runs[k].factor))
    ensures Start(runs, k + 1) == Start(runs, k) + Pow2(runs[k].factor)
  {
    assert runs[..k + 1][..k] == runs[..k];
  }

  lemma {:induction false} FlatConcat(a: seq<Run>, b: seq<Run>)
    ensures Flat(a + b) == Flat(a) + Flat(b)
  {
    if b == [] {
      assert a + b == a;
    } else {
      var n := |b| - 1;
      assert (a + b)[..|a + b| - 1] == a + b[..n];
      FlatConcat(a, b[..n]);
    }
  }

  /** The pointers of run k are where they should be. */
  lemma {:induction false} FlatAt(runs: seq<Run>, k: nat, p: nat)
    requires k < |runs| && Start(runs, k) <= p < Start(runs, k + 1)
    ensures p < |Flat(runs)| && Flat(runs)[p] == runs[k].child
  {
    FlatConcat(runs[..k + 1], runs[k + 1..]);
    assert runs == runs[..k + 1] + runs[k + 1..];
    FlatStep(runs, k);
  }

  // ----- expanding -----

  ghost function Widened(runs: seq<Run>, e: nat): (r: seq<Run>)
    ensures |r| == |runs|
  {
    seq(|runs|, k requires 0 <= k < |runs| => Run(runs[k].child, runs[k].factor + e))
  }

  function Part(i: nat, f: nat): nat
    requires f > 0
  {
    i / f
  }

  /** Every element of s is repeated f times. */
  ghost predicate Stretched(s: seq<nat>, f: nat, s': seq<nat>)
    requires f > 0
  {
    && |s'| == |s| * f
    && forall i :: 0 <= i < |s'| ==> Part(i, f) < |s| && s'[i] == s[Part(i, f)]
  }

  lemma {:induction false} StretchMore(s: seq<nat>, f: nat, s': seq<nat>, c: nat, r: nat)
    requires f > 0 && Stretched(s, f, s')
    ensures Stretched(s + Repeat(c, r), f, s' + Repeat(c, r * f))
  {
    var t, t' := s + Repeat(c, r), s' + Repeat(c, r * f);
    assert (|s| + r) * f == |s| * f + r * f;
    forall i | 0 <= i < |t'|
      ensures Part(i, f) < |t| && t'[i] == t[Part(i, f)]
    {
      InPart(i, f, |s|, r);
      hide Part;
    }
  }

  /** Every pointer becomes Pow2(e) pointers. */
  lemma {:induction false} FlatWidened(runs: seq<Run>, e: nat)
    ensures Stretched(Flat(runs), Pow2(e), Flat(Widened(runs, e)))
  {
    if runs != [] {
      var n := |runs| - 1;
      assert Widened(runs, e)[..n] == Widened(runs[..n], e);
      FlatWidened(runs[..n], e);
      Pow2Sum(runs[n].factor, e);
      StretchMore(Flat(runs[..n]), Pow2(e), Flat(Widened(runs[..n], e)), runs[n].child, Pow2(runs[n].factor));
      hide Stretched, Pow2;
    }
  }

  lemma {:induction false} InPart(i: nat, f: nat, before: nat, r: nat)
    requires f > 0 && i < (before + r) * f
    ensures i < before * f ==> Part(i, f) < before
    ensures i >= before * f ==> before <= Part(i, f) < before + r
    ensures Part(i, f) < before + r
  {
    var q := i / f;
    assert i == q * f + i % f;
    assert (q + 1) * f == q * f + f;
    TimesNat(before, q, f);
    TimesNat(q + 1, before, f);
    TimesNat(before + r, q, f);
  }

  lemma {:induction false} WidenedAligned(runs: seq<Run>, e: nat)
    requires Aligned(runs)
    ensures Aligned(Widened(runs, e))
  {
    var w := Widened(runs, e);
    forall k | 0 <= k < |w|
      ensures Divides(Pow2(w[k].factor), Start(w, k))
    {
      assert w[..k] == Widened(runs[..k], e);
      FlatWidened(runs[..k], e);
      Pow2Sum(runs[k].factor, e);
      assert Divides(Pow2(runs[k].factor), Start(runs, k));
      DividesScaled(Pow2(runs[k].factor), Start(runs, k), Pow2(e));
    }
  }

  lemma {:induction false} DividesScaled(r: nat, p: nat, f: nat)
    requires r > 0 && f > 0 && Divides(r, p) && r * f > 0
    ensures Divides(r * f, p * f)
  {
    var q := p / r;
    assert p == q * r;
    assert p * f == q * (r * f);
    MultipleDivides(q, r * f);
  }

  lemma {:induction false} MultipleDivides(q: nat, r: nat)
    requires r > 0
    ensures Divides(r, q * r)
  {
    assert (q * r) % r == 0 by {
      QuotientIs(q * r, r, q);
    }
  }

  /** Repeating every pointer and scaling the model leaves every key with its child. */
  lemma {:induction false} StretchedRoute(s: seq<nat>, f: nat, s': seq<nat>, m: Model, key: real)
    requires f > 0 && |s| > 0 && |s| * f > 0 && Stretched(s, f, s')
    ensures s'[Bucket(Expanded(m, f), key, |s'|)] == s[Bucket(m, key, |s|)]
  {
    BucketExpands(m, key, |s|, f);
    var i := Bucket(Expanded(m, f), key, |s'|);
    assert s'[i] == s[Part(i, f)];
  }

  lemma {:induction false} StartGrows(runs: seq<Run>, j: nat, k: nat)
    requires j <= k <= |runs|
    ensures Start(runs, j) + (k - j) <= Start(runs, k)
  {
    if j < k {
      StartGrows(runs, j, k - 1);
      FlatStep(runs, k - 1);
    }
  }

  lemma {:induction false} StartEnds(runs: seq<Run>, k: nat)
    requires k <= |runs|
    ensures Start(runs, 0) == 0 && Start(runs, |runs|) == |Flat(runs)| && Start(runs, k) <= |Flat(runs)|
    ensures k < |runs| <==> Start(runs, k) < |Flat(runs)|
  {
    assert runs[..|runs|] == runs && runs[..0] == [];
    StartGrows(runs, k, |runs|);
  }

  ghost predicate FactorsAre(factors: map<nat, nat>, runs: seq<Run>) {
    forall k :: 0 <= k < |runs| ==> runs[k].child in factors && factors[runs[k].child] == runs[k].factor
  }

  /** Some children have their new factor, the others the old one. */
  ghost predicate PartlyWidened(factors: map<nat, nat>, runs: seq<Run>, k: nat, e: nat) {
    && k <= |runs|
    && (forall j :: 0 <= j < |runs| ==> runs[j].child in factors)
    && (forall j :: 0 <= j < k ==> factors[runs[j].child] == runs[j].factor + e)
    && (forall j :: k <= j < |runs| ==> factors[runs[j].child] == runs[j].factor)
  }

  method FillRange(a: array<nat>, from: nat, to: nat, c: nat)
    requires from <= to <= a.Length
    modifies a
    ensures a[..to] == old(a[..from]) + Repeat(c, to - from)
    ensures a[to..] == old(a[to..])
  {
    var i := from;
    while i < to
      invariant from <= i <= to
      invariant a[..from] == old(a[..from]) && a[to..] == old(a[to..])
      invariant forall j :: from <= j < i ==> a[j] == c
    {
      a[i] := c;
      i := i + 1;
    }
  }

  class ModelNode {
    var children: array<nat>
    var model: Model
    var factors: map<nat, nat>
    ghost var runs: seq<Run>

    ghost predicate Valid()
      reads this, children
    {
      && children.Length > 0
      && children[..] == Flat(runs)
      && Aligned(runs)
      && DistinctChildren(runs)
      && FactorsAre(factors, runs)
    }

    /** A node with two children. */
    constructor Two(m: Model, left: nat, right: nat)
      requires left != right
      ensures Valid() && model == m && children[..] == [left, right] && fresh(children)
    {
      children := new nat[2];
      model := m;
      factors := map[left := 0, right := 0];
      runs := [Run(left, 0), Run(right, 0)];
      new;
      children[0], children[1] := left, right;
      TwoRuns(left, right);
    }

    /** get_child_node */
    ghost function ChildOf(key: real): nat
      reads this, children
      requires children.Length > 0
    {
      Route(children[..], model, key)
    }

    /** Every pointer is repeated, and every key is still routed to the child it had. */
    method Expand(e: nat) returns (f: nat)
      requires Valid()
      modifies this
      ensures Valid() && fresh(children) && runs == Widened(old(runs), e) && f == Pow2(e) && model == Expanded(old(model), f)
      ensures forall key: real :: ChildOf(key) == old(ChildOf(key))
    {
      f := Pow2(e);
      ghost var rs := runs;
      var n := children.Length;
      TimesNat(1, n, f);
      var newChildren := new nat[Scaled(n, f)];
      WidenInto(newChildren, e, f);
      FlatWidened(rs, e);
      WidenedAligned(rs, e);
      assert newChildren[..] == Flat(Widened(rs, e));
      forall key: real
        ensures newChildren[Bucket(Expanded(model, f), key, n * f)] == children[Bucket(model, key, n)]
      {
        StretchedRoute(children[..], f, newChildren[..], model, key);
      }
      children := newChildren;
      model := Expanded(model, f);
      runs := Widened(rs, e);
    }

    /** The loop over the runs: each child's pointers are repeated and its factor is raised. */
    method WidenInto(target: array<nat>, e: nat, f: nat)
      requires Valid() && f == Pow2(e) && target != children && target.Length == Scaled(children.Length, f)
      modifies this`factors, target
      ensures target[..] == Flat(Widened(runs, e)) && FactorsAre(factors, Widened(runs, e))
    {
      ghost var w := Widened(runs, e);
      var n := children.Length;
      var cur := 0;
      ghost var k := 0;
      StartEnds(runs, 0);
      assert w[..0] == [] && Scaled(0, f) == 0 && Flat(w[..0]) == [] && |children[..]| == n && |w| == |runs|;
      assert PartlyWidened(factors, runs, 0, e) && target[..0] == [];
      hide *;
      while cur < n
        invariant 0 <= k <= |runs| && cur == Start(runs, k) <= n && k <= |w|
        invariant children[..] == Flat(runs) && PartlyWidened(factors, runs, k, e)
        invariant Scaled(cur, f) <= target.Length && target[..Scaled(cur, f)] == Flat(w[..k])
        decreases n - cur
      {
        StartEnds(runs, k);
        cur := WidenRun(target, e, f, w, k, cur);
        k := k + 1;
      }
      StartEnds(runs, k);
      WidenedDone(factors, runs, e, w);
      assert target[..target.Length] == target[..];
    }

    method WidenRun(target: array<nat>, e: nat, f: nat, ghost w: seq<Run>, ghost k: nat, cur: nat) returns (next: nat)
      requires children[..] == Flat(runs) && DistinctChildren(runs)
      requires f == Pow2(e) && target != children && target.Length == Scaled(children.Length, f)
      requires w == Widened(runs, e) && k < |runs| == |w| && cur == Start(runs, k) && PartlyWidened(factors, runs, k, e)
      requires Scaled(cur, f) <= target.Length && target[..Scaled(cur, f)] == Flat(w[..k])
      modifies this`factors, target
      ensures next == Start(runs, k + 1) <= children.Length && next > cur && PartlyWidened(factors, runs, k + 1, e)
      ensures Scaled(next, f) <= target.Length && target[..Scaled(next, f)] == Flat(w[..k + 1])
    {
      RunAt(runs, k, factors, e);
      var child := children[cur];
      var repeats := Pow2(factors[child]);
      next := cur + repeats;
      hide Flat, Widened, Pow2, Start, DistinctChildren, Scaled;
      ScaledMore(cur, repeats, children.Length, f);
      WidenedStep(runs, k, e);
      RaiseFactor(factors, runs, k, e);
      hide PartlyWidened;
      FillRange(target, Scaled(cur, f), Scaled(next, f), child);
      factors := factors[child := factors[child] + e];
    }
  }

  /** expansion_factor * position */
  function Scaled(p: nat, f: nat): nat {
    p * f
  }

  lemma {:induction false} ScaledMore(p: nat, r: nat, n: nat, f: nat)
    requires p + r <= n
    ensures Scaled(p + r, f) == Scaled(p, f) + Scaled(r, f)
    ensures Scaled(p, f) <= Scaled(p + r, f) <= Scaled(n, f)
  {
    TimesNat(p + r, n, f);
  }

  lemma {:induction false} TwoRuns(left: nat, right: nat)
    ensures Flat([Run(left, 0), Run(right, 0)]) == [left, right] && Aligned([Run(left, 0), Run(right, 0)])
  {
    var runs := [Run(left, 0), Run(right, 0)];
    assert runs[..1] == [Run(left, 0)] && [Run(left, 0)][..0] == [];
    assert Flat([Run(left, 0)]) == Flat([]) + Repeat(left, 1);
    assert Flat(runs) == Flat([Run(left, 0)]) + Repeat(right, 1);
    assert Pow2(0) == 1;
  }

  /** The pointer at the start of a run, and the length of the run. */
  lemma {:induction false} RunAt(runs: seq<Run>, k: nat, factors: map<nat, nat>, e: nat)
    requires k < |runs| && PartlyWidened(factors, runs, k, e)
    ensures Start(runs, k) < Start(runs, k + 1) <= |Flat(runs)| && Flat(runs)[Start(runs, k)] == runs[k].child
    ensures runs[k].child in factors && factors[runs[k].child] == runs[k].factor
    ensures Start(runs, k + 1) == Start(runs, k) + Pow2(runs[k].factor)
  {
    FlatStep(runs, k);
    FlatAt(runs, k, Start(runs, k));
    StartEnds(runs, k + 1);
  }

  lemma {:induction false} RaiseFactor(factors: map<nat, nat>, runs: seq<Run>, k: nat, e: nat)
    requires k < |runs| && PartlyWidened(factors, runs, k, e) && DistinctChildren(runs)
    ensures var child := runs[k].child; PartlyWidened(factors[child := factors[child] + e], runs, k + 1, e)
  {
  }

  lemma {:induction false} WidenedDone(factors: map<nat, nat>, runs: seq<Run>, e: nat, w: seq<Run>)
    requires w == Widened(runs, e) && PartlyWidened(factors, runs, |runs|, e)
    ensures FactorsAre(factors, w) && |w| == |runs| && w[..|w|] == w
  {
  }

  lemma {:induction false} StartWidened(runs: seq<Run>, k: nat, e: nat)
    requires k <= |runs|
    ensures Start(Widened(runs, e), k) == Start(runs, k) * Pow2(e)
  {
    assert Widened(runs, e)[..k] == Widened(runs[..k], e);
    FlatWidened(runs[..k], e);
  }

  lemma {:induction false} WidenedStep(runs: seq<Run>, k: nat, e: nat)
    requires k < |runs|
    ensures var w := Widened(runs, e);
      Flat(w[..k + 1]) == Flat(w[..k]) + Repeat(runs[k].child, Scaled(Pow2(runs[k].factor), Pow2(e)))
  {
    Pow2Sum(runs[k].factor, e);
    var w := Widened(runs, e);
    assert w[k] == Run(runs[k].child, runs[k].factor + e);
    hide Flat, Pow2, Widened;
    FlatStep(w, k);
  }
}

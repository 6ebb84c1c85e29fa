/** The model node of ALEX: how a key is routed to a child, and what expanding and splitting do to that. Arithmetic is exact. */
module AlexRouting {

  datatype Model = Model(a: real, b: real)

  function At(m: Model, key: real): real {
    m.a * key + m.b
  }

  /** Conversion to an integer, towards zero. */
  function Truncate(x: real): int {
    if x >= 0.0 then x.Floor else -((-x).Floor)
  }

  /** The predicted child position brought into range. */
  function Bucket(m: Model, key: real, n: nat): (r: nat)
    requires n > 0
    ensures r < n
  {
    var p := Truncate(At(m, key));
    if p < 0 then 0 else if p < n then p else n - 1
  }

  /** get_child_node on a sequence of pointers. */
  function Route(cs: seq<nat>, m: Model, key: real): nat
    requires |cs| > 0
  {
    cs[Bucket(m, key, |cs|)]
  }

  /** Which keys a bucket gets: those between its ends, and the first and last bucket also what lies outside. */
  lemma BucketIs(m: Model, key: real, n: nat, r: nat)
    requires 0 < n && r < n
    ensures Bucket(m, key, n) == r <==>
      (r == 0 || r as real <= At(m, key)) && (r == n - 1 || At(m, key) < (r + 1) as real)
  {
    var x := At(m, key);
    if x >= 0.0 {
      assert x.Floor as real <= x < (x.Floor + 1) as real;
    }
  }

  function Pow2(e: nat): (r: nat)
    ensures r > 0
  {
    if e == 0 then 1 else 2 * Pow2(e - 1)
  }

  lemma {:induction false} Pow2Sum(d: nat, e: nat)
    ensures Pow2(d + e) == Pow2(d) * Pow2(e)
  {
    if e > 0 {
      Pow2Sum(d, e - 1);
    }
  }

  /** Multiplying both parameters of the model multiplies what it predicts. */
  function Expanded(m: Model, f: nat): Model {
    Model(m.a * f as real, m.b * f as real)
  }

  lemma ExpandedAt(m: Model, key: real, f: nat)
    ensures At(Expanded(m, f), key) == f as real * At(m, key)
  {
  }

  lemma BucketAtLeast(m: Model, key: real, n: nat, k: nat)
    requires k < n && k as real <= At(m, key)
    ensures k <= Bucket(m, key, n)
  {
    var x := At(m, key);
    assert x.Floor as real <= x < (x.Floor + 1) as real;
  }

  lemma BucketBelow(m: Model, key: real, n: nat, k: nat)
    requires 0 < k && 0 < n && At(m, key) < k as real
    ensures Bucket(m, key, n) < k
  {
    var x := At(m, key);
    if x >= 0.0 {
      assert x.Floor as real <= x;
    }
  }

  lemma Times(x: real, y: real, f: nat)
    requires f > 0
    ensures x <= y ==> f as real * x <= f as real * y
    ensures x < y ==> f as real * x < f as real * y
  {
  }

  lemma TimesNat(a: nat, b: nat, f: nat)
    ensures a <= b ==> a * f <= b * f
    ensures f as real * a as real == (a * f) as real
  {
  }

  lemma QuotientIs(r: nat, f: nat, q: nat)
    requires f > 0 && q * f <= r < (q + 1) * f
    ensures r / f == q
  {
    var p := r / f;
    assert r == p * f + r % f;
    assert (p + 1) * f == p * f + f;
    TimesNat(p + 1, q, f);
    TimesNat(q + 1, p, f);
  }

  lemma ExpandedBelow(m: Model, key: real, f: nat, k: nat)
    requires f > 0
    ensures At(m, key) < k as real ==> At(Expanded(m, f), key) < (k * f) as real
    ensures k as real <= At(m, key) ==> (k * f) as real <= At(Expanded(m, f), key)
  {
    ExpandedAt(m, key, f);
    TimesNat(k, k, f);
    hide At, Expanded;
    Times(At(m, key), k as real, f);
    Times(k as real, At(m, key), f);
  }

  /** A bucket becomes f buckets, and a key stays in its part. */
  lemma BucketExpands(m: Model, key: real, n: nat, f: nat)
    requires n > 0 && f > 0 && n * f > 0
    ensures Bucket(Expanded(m, f), key, n * f) / f == Bucket(m, key, n)
  {
    var m', q := Expanded(m, f), Bucket(m, key, n);
    BucketIs(m, key, n, q);
    hide Bucket, At, Expanded;
    BucketBounds(m, key, n, f, q);
    QuotientIs(Bucket(m', key, n * f), f, q);
  }

  lemma BucketBounds(m: Model, key: real, n: nat, f: nat, q: nat)
    requires f > 0 && n * f > 0 && q < n
    requires (q == 0 || q as real <= At(m, key)) && (q == n - 1 || At(m, key) < (q + 1) as real)
    ensures q * f <= Bucket(Expanded(m, f), key, n * f) < (q + 1) * f
  {
    var m' := Expanded(m, f);
    TimesNat(q + 1, n, f);
    assert (q + 1) * f == q * f + f;
    hide At, Expanded;
    if q > 0 {
      ExpandedBelow(m, key, f, q);
      BucketAtLeast(m', key, n * f, q * f);
    }
    if q < n - 1 {
      ExpandedBelow(m, key, f, q + 1);
      BucketBelow(m', key, n * f, (q + 1) * f);
    }
  }
}

/** PGM_metric: the greedy segmentation is the shortest one. */
module PgmMetric {
  import opened Sequences
  import opened PgmGeometry
  import opened PgmSegment
  import opened PgmModel

  // ----- sorting the keys -----

  predicate Distinct(s: seq<int>) {
    forall i, j :: 0 <= i < j < |s| ==> s[i] != s[j]
  }

  function Insert(s: seq<int>, x: int): seq<int> {
    if s == [] || x <= s[0] then [x] + s else [s[0]] + Insert(s[1..], x)
  }

  function Sort(s: seq<int>): seq<int> {
    if s == [] then [] else Insert(Sort(s[1..]), s[0])
  }

  lemma {:induction false} InsertMembers(s: seq<int>, x: int)
    ensures multiset(Insert(s, x)) == multiset(s) + multiset{x}
  {
    if s != [] && x > s[0] {
      InsertMembers(s[1..], x);
      assert s == [s[0]] + s[1..];
    }
  }

  lemma SortedCons(a: int, s: seq<int>)
    requires Ascending(s) && (s != [] ==> a <= s[0])
    ensures Ascending([a] + s)
  {
  }

  lemma {:induction false} InsertSorted(s: seq<int>, x: int)
    requires Ascending(s)
    ensures Ascending(Insert(s, x)) && Insert(s, x)[0] == (if s == [] || x <= s[0] then x else s[0])
  {
    if s == [] || x <= s[0] {
      SortedCons(x, s);
    } else {
      InsertSorted(s[1..], x);
      SortedCons(s[0], Insert(s[1..], x));
    }
  }

  lemma {:induction false} SortSorts(s: seq<int>)
    ensures Ascending(Sort(s)) && multiset(Sort(s)) == multiset(s)
  {
    if s != [] {
      SortSorts(s[1..]);
      InsertMembers(Sort(s[1..]), s[0]);
      InsertSorted(Sort(s[1..]), s[0]);
      assert s == [s[0]] + s[1..];
    }
  }

  // ----- segmentations -----

  /** The interval each key demands, its rank being its position among all keys. */
  function Bounds(keys: seq<int>, epsilon: int): (b: seq<Bound>)
    requires 0 <= epsilon <= MAX_Y && |keys| <= MAX_Y
    ensures |b| == |keys|
    ensures forall i :: 0 <= i < |keys| ==> b[i] == Widen(keys[i], i, epsilon)
  {
    seq(|keys|, i requires 0 <= i < |keys| => Widen(keys[i], i, epsilon))
  }

  predicate Cuts(b: seq<Bound>, cuts: seq<nat>) {
    && |cuts| >= 1
    && cuts[0] == 0
    && (forall i :: 0 <= i < |cuts| ==> cuts[i] <= |b|)
    && (forall i, j :: 0 <= i < j < |cuts| ==> cuts[i] < cuts[j])
  }

  /** The stretch between two cuts admits a line. */
  ghost predicate Fitted(b: seq<Bound>, from: nat, to: nat) {
    from <= to <= |b| && Feasible(b[from..to])
  }

  ghost predicate FittedAt(b: seq<Bound>, cuts: seq<nat>, i: nat) {
    i + 1 < |cuts| && Fitted(b, cuts[i], cuts[i + 1])
  }

  /** Cut positions 0 = c[0] < c[1] < ... = n, each stretch between two cuts admitting a line. */
  ghost predicate Segmentation(b: seq<Bound>, cuts: seq<nat>) {
    && Cuts(b, cuts)
    && cuts[|cuts| - 1] == |b|
    && (forall i :: 0 <= i < |cuts| - 1 ==> FittedAt(b, cuts, i))
  }

  /** A stretch that stops where one more point would leave no line. */
  ghost predicate Maximal(b: seq<Bound>, from: nat, to: nat) {
    from <= to < |b| && Fitted(b, from, to) && !Fitted(b, from, to + 1)
  }

  ghost predicate MaximalAt(b: seq<Bound>, cuts: seq<nat>, i: nat) {
    i + 1 < |cuts| && Maximal(b, cuts[i], cuts[i + 1])
  }

  /** Greedy: every stretch before the last cut is maximal. */
  ghost predicate Greedy(b: seq<Bound>, cuts: seq<nat>) {
    && Cuts(b, cuts)
    && (forall i :: 0 <= i < |cuts| - 1 ==> MaximalAt(b, cuts, i))
  }

  /** Part of a feasible stretch is feasible. */
  lemma FeasiblePart(b: seq<Bound>, i: nat, j: nat, k: nat, l: nat)
    requires i <= j <= k <= l && Fitted(b, i, l)
    ensures Fitted(b, j, k)
  {
    var f: Line :| Fits(f, b[i..l]);
    var whole, part := b[i..l], b[j..k];
    assert forall m :: 0 <= m < |part| ==> part[m] == whole[j - i + m];
    assert Fits(f, part);
  }

  /** Every other segmentation is behind the greedy one at each cut. */
  lemma {:induction false} GreedyStaysAhead(b: seq<Bound>, cuts: seq<nat>, other: seq<nat>, i: nat)
    requires Greedy(b, cuts) && Segmentation(b, other)
    requires i < |cuts| && i < |other|
    ensures other[i] <= cuts[i]
  {
    hide Fitted;
    if i == 0 {
    } else {
      GreedyStaysAhead(b, cuts, other, i - 1);
      assert MaximalAt(b, cuts, i - 1) && FittedAt(b, other, i - 1);
      if other[i] > cuts[i] {
        FeasiblePart(b, other[i - 1], cuts[i - 1], cuts[i] + 1, other[i]);
      }
    }
  }

  /** No segmentation has fewer stretches than the greedy one. */
  lemma GreedyIsShortest(b: seq<Bound>, cuts: seq<nat>, other: seq<nat>)
    requires Greedy(b, cuts) && Segmentation(b, other)
    requires cuts[|cuts| - 1] < |b|
    ensures |other| - 1 >= |cuts|
  {
    if |other| - 1 < |cuts| {
      GreedyStaysAhead(b, cuts, other, |other| - 1);
    }
  }

  /** Closing the last greedy stretch at the end gives a segmentation. */
  lemma CloseLast(b: seq<Bound>, cuts: seq<nat>)
    requires Greedy(b, cuts) && cuts[|cuts| - 1] < |b|
    requires Fitted(b, cuts[|cuts| - 1], |b|)
    ensures Segmentation(b, cuts + [|b|])
  {
    hide Fitted;
    var all := cuts + [|b|];
    forall i | 0 <= i < |all| - 1
      ensures FittedAt(b, all, i)
    {
      assert i < |cuts| - 1 ==> MaximalAt(b, cuts, i);
    }
  }

  lemma GreedyCut(b: seq<Bound>, cuts: seq<nat>, i: nat)
    requires Greedy(b, cuts) && cuts[|cuts| - 1] < i && Maximal(b, cuts[|cuts| - 1], i)
    ensures Greedy(b, cuts + [i])
  {
    hide Fitted;
    var all := cuts + [i];
    forall j | 0 <= j < |all| - 1
      ensures MaximalAt(b, all, j)
    {
      assert j < |cuts| - 1 ==> MaximalAt(b, cuts, j);
    }
  }

  /** How error_bound becomes the unsigned 64-bit epsilon of the segment: the number of that range that is equal to it modulo 2^64. */
  function Unsigned(errorBound: int): (e: int)
    requires -0x8000_0000 <= errorBound < 0x8000_0000
    ensures 0 <= e <= MAX_Y && (e - errorBound) % 0x1_0000_0000_0000_0000 == 0
    ensures 0 <= errorBound ==> e == errorBound
  {
    if errorBound >= 0 then errorBound else errorBound + MAX_Y + 1
  }

  /** The metric, or the logic_error that a repeated key raises. */
  datatype Metric = Segments(count: nat) | Repeated

  /** m stretches are enough, and no segmentation has fewer. */
  ghost predicate Shortest(b: seq<Bound>, m: nat) {
    && (exists cuts :: Segmentation(b, cuts) && |cuts| - 1 == m)
    && (forall cuts :: Segmentation(b, cuts) ==> |cuts| - 1 >= m)
  }

  method ComputePgmMetric(keys: array<int>, errorBound: int) returns (r: Metric)
    requires keys.Length < 0x8000_0000
    requires -0x8000_0000 <= errorBound < 0x8000_0000
    modifies keys
    ensures Ascending(keys[..]) && multiset(keys[..]) == multiset(old(keys[..]))
    ensures r == Repeated <==> !Distinct(keys[..])
    ensures keys.Length == 0 ==> r == Segments(1)
    ensures keys.Length > 0 && Distinct(keys[..]) ==>
              r.Segments? && Shortest(Bounds(keys[..], if 0 <= errorBound then errorBound else errorBound + 0x1_0000_0000_0000_0000), r.count)
  {
    var sorted := Sort(keys[..]);
    SortSorts(keys[..]);
    assert |sorted| == keys.Length by {
      assert |multiset(sorted)| == |multiset(keys[..])|;
    }
    forall i | 0 <= i < keys.Length {
      keys[i] := sorted[i];
    }
    assert keys[..] == sorted;
    r := CountSegments(sorted, Unsigned(errorBound));
  }

  /** Adds a key to the current segment; when no line fits any more, counts a new segment and starts it there. */
  method Place(segment: OptimalPiecewiseLinearModel, key: int, rank: int) returns (r: Outcome)
    requires segment.Valid() && 0 <= rank <= MAX_Y
    modifies segment
    ensures segment.Valid()
    ensures r == Threw <==> old(|segment.segment|) > 0 && key <= old(segment.segment)[old(|segment.segment|) - 1].x
    ensures r != Threw ==>
              var b := Widen(key, rank, segment.epsilon);
              && (r == Accepted <==> Feasible(old(segment.segment) + [b]))
              && segment.segment == (if r == Accepted then old(segment.segment) else []) + [b]
              && Feasible(segment.segment)
  {
    hide Feasible, Exact, Recorded, Wellformed;
    r := segment.AddPoint(key, rank);
    if r == Rejected {
      segment.Reset();
      ghost var b := Widen(key, rank, segment.epsilon);
      OnePoint(b);
      assert [] + [b] == [b];
      var again := segment.AddPoint(key, rank);
    }
  }

  method CountSegments(keys: seq<int>, epsilon: int) returns (r: Metric)
    requires |keys| <= MAX_Y && Ascending(keys) && 0 <= epsilon <= MAX_Y
    ensures r == Repeated <==> !Distinct(keys)
    ensures keys == [] ==> r == Segments(1)
    ensures keys != [] && Distinct(keys) ==> r.Segments? && Shortest(Bounds(keys, epsilon), r.count)
  {
    hide Feasible, MaximalAt, Shortest, Widen, OptimalPiecewiseLinearModel.Valid, Greedy;
    var segment := new OptimalPiecewiseLinearModel(epsilon);
    var metric := 1;
    ghost var b := Bounds(keys, epsilon);
    ghost var cuts: seq<nat> := [0];
    GreedyStart(b);
    var i := 0;
    while i < |keys|
      invariant 0 <= i <= |keys|
      invariant fresh(segment) && segment.Valid() && segment.epsilon == epsilon
      invariant Distinct(keys[..i])
      invariant Greedy(b, cuts) && metric == |cuts| >= 1
      invariant if i == 0 then cuts == [0] else cuts[|cuts| - 1] < i
      invariant segment.segment == b[cuts[|cuts| - 1]..i]
      invariant Fitted(b, cuts[|cuts| - 1], i)
    {
      ghost var c := cuts[|cuts| - 1];
      assert b[c..i] + [b[i]] == b[c..i + 1];
      assert i > 0 ==> b[c..i][i - c - 1] == b[i - 1];
      var placed := Place(segment, keys[i], i);
      if placed == Threw {
        assert keys[i - 1] == keys[i];
        return Repeated;
      }
      StillDistinct(keys, i);
      if placed == Rejected {
        metric := metric + 1;
        assert i > 0;
        GreedyCut(b, cuts, i);
        cuts := cuts + [i];
        assert [] + [b[i]] == b[i..i + 1];
      }
      i := i + 1;
    }
    assert keys[..i] == keys;
    if keys != [] {
      GreedyCount(b, cuts);
    }
    r := Segments(metric);
  }

  /** The greedy cuts, once the last stretch is closed, are a shortest segmentation. */
  lemma GreedyCount(b: seq<Bound>, cuts: seq<nat>)
    requires Greedy(b, cuts) && cuts[|cuts| - 1] < |b| && Fitted(b, cuts[|cuts| - 1], |b|)
    ensures Shortest(b, |cuts|)
  {
    CloseLast(b, cuts);
    assert Segmentation(b, cuts + [|b|]);
    forall other | Segmentation(b, other)
      ensures |other| - 1 >= |cuts|
    {
      GreedyIsShortest(b, cuts, other);
    }
  }

  lemma GreedyStart(b: seq<Bound>)
    ensures Greedy(b, [0]) && Feasible([])
  {
    FewPointsFeasible([]);
  }

  lemma OnePoint(b: Bound)
    requires b.lo <= b.hi
    ensures Feasible([b])
  {
    FewPointsFeasible([b]);
  }

  lemma StillDistinct(keys: seq<int>, i: nat)
    requires i < |keys| && Ascending(keys) && Distinct(keys[..i]) && (i > 0 ==> keys[i - 1] < keys[i])
    ensures Distinct(keys[..i + 1])
  {
    var longer := keys[..i + 1];
    forall j, k | 0 <= j < k < |longer|
      ensures longer[j] != longer[k]
    {
      if k < i {
        assert keys[..i][j] == longer[j] && keys[..i][k] == longer[k];
      } else if j < i - 1 {
        assert keys[j] <= keys[i - 1];
      }
    }
  }
}

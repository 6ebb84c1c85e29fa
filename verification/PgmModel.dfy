/** OptimalPiecewiseLinearModel: one segment, grown a point at a time. */
module PgmModel {
  import opened PgmGeometry
  import opened PgmSegment

  const MAX_Y: int := 0xFFFF_FFFF_FFFF_FFFF

  /** The interval around y, saturated at the ends of the unsigned 64-bit range. */
  function Widen(x: int, y: int, epsilon: int): (b: Bound)
    requires 0 <= y <= MAX_Y && 0 <= epsilon <= MAX_Y
    ensures b.x == x
    ensures 0 <= b.lo <= y <= b.hi <= MAX_Y
    ensures y - epsilon <= b.lo && (b.lo == y - epsilon || b.lo == 0)
    ensures b.hi <= y + epsilon && (b.hi == y + epsilon || b.hi == MAX_Y)
    ensures if epsilon == 0 then b.lo == b.hi else b.lo < b.hi
  {
    Bound(x,
          if y <= epsilon then 0 else y - epsilon,
          if y >= MAX_Y - epsilon then MAX_Y else y + epsilon)
  }

  /** Accepted and Rejected are the two results of add_point; Threw is its logic_error. */
  datatype Outcome = Accepted | Rejected | Threw

  lemma SlopeTests(a: Point, b: Point, p: Point)
    ensures p.Minus(b).Less(b.Minus(a)) <==> Cross(a, b, p) < 0
    ensures p.Minus(a).Less(b.Minus(a)) <==> Cross(a, b, p) < 0
    ensures p.Minus(b).Greater(b.Minus(a)) <==> Cross(a, b, p) > 0
    ensures p.Minus(a).Greater(b.Minus(a)) <==> Cross(a, b, p) > 0
    ensures b.Minus(p).Less(a.Minus(p)) <==> Cross(a, b, p) < 0
    ensures b.Minus(p).Greater(a.Minus(p)) <==> Cross(a, b, p) > 0
  {
  }

  /** With zero-width intervals the two extreme lines coincide, so no point is strictly between them. */
  lemma WidthBetween(s: seq<Bound>, f1: Line, f2: Line, b: Bound)
    requires |s| >= 2 && Wellformed(s + [b]) && Uniform(s + [b])
    requires Fits(f1, s) && Fits(f2, s)
    requires f1.At(b.x) < b.lo as real && b.hi as real < f2.At(b.x)
    ensures b.lo < b.hi
  {
    var s' := s + [b];
    assert s'[|s|] == b && s'[0] == s[0] && s'[1] == s[1];
    if b.lo == b.hi {
      assert s[0].lo == s[0].hi && s[1].lo == s[1].hi;
      Between(f2, f1, s[0].x, s[0].x, s[1].x);
      FurtherRight(f2, f1, s[0].x, s[1].x, b.x);
    }
  }

  lemma Appended(s: seq<Bound>, b: Bound)
    requires Wellformed(s) && b.lo <= b.hi
    requires |s| > 0 ==> s[|s| - 1].x < b.x
    ensures Wellformed(s + [b])
  {
    var s' := s + [b];
    forall i, j | 0 <= i < j < |s'|
      ensures s'[i].x < s'[j].x
    {
      if j == |s| && i < |s| - 1 {
        assert s[i].x < s[|s| - 1].x;
      }
    }
  }

  lemma FewPointsFeasible(s: seq<Bound>)
    requires Wellformed(s) && |s| <= 2
    ensures Feasible(s)
  {
    if |s| == 0 {
      assert Fits(Line(0.0, 0.0), s);
    } else if |s| == 1 {
      assert Fits(Line(0.0, s[0].lo as real), s) by {
        assert Line(0.0, s[0].lo as real).At(s[0].x) == s[0].lo as real;
      }
    } else {
      TwoPoints(s[0], s[1]);
      assert s == [s[0], s[1]];
      assert Fits(Through(Top(s[0]), Bottom(s[1])), s);
    }
  }

  /** A point straight below the end of the last edge is below that edge. */
  lemma BelowEnd(a: Point, p: Point, q: Point)
    requires a.x < p.x == q.x && q.y < p.y
    ensures Cross(a, p, q) < 0
  {
    var d := p.x - a.x;
    assert Cross(a, p, q) == d * (q.y - p.y);
    assert d * (p.y - q.y) > 0;
  }

  // The scan and trim loops, and what they leave, in terms of a whole vector and its start index.

  predicate Scanned(v: seq<Point>, start: nat, q: Point, i: nat) {
    && start <= i < |v|
    && (forall j :: start <= j < i ==> Cross(v[j], v[j + 1], q) >= 0)
    && (i + 1 < |v| ==> Cross(v[i], v[i + 1], q) < 0)
  }

  predicate ScannedDown(v: seq<Point>, start: nat, q: Point, i: nat) {
    && start <= i < |v|
    && (forall j :: start <= j < i ==> Cross(v[j], v[j + 1], q) <= 0)
    && (i + 1 < |v| ==> Cross(v[i], v[i + 1], q) > 0)
  }

  predicate Trimmed(v: seq<Point>, start: nat, p: Point, end: nat) {
    && start < end <= |v|
    && (forall j :: end <= j < |v| ==> Cross(v[j - 1], v[j], p) <= 0)
    && (end >= start + 2 ==> Cross(v[end - 2], v[end - 1], p) > 0)
  }

  predicate TrimmedDown(v: seq<Point>, start: nat, p: Point, end: nat) {
    && start < end <= |v|
    && (forall j :: end <= j < |v| ==> Cross(v[j - 1], v[j], p) >= 0)
    && (end >= start + 2 ==> Cross(v[end - 2], v[end - 1], p) < 0)
  }

  /** Finds the extreme slope to q, stopping at the first upper point that does not raise it. */
  method ScanUpper(upper: seq<Point>, start: nat, q: Point) returns (maxI: nat)
    requires start < |upper|
    ensures Scanned(upper, start, q, maxI)
  {
    var max := upper[start].Minus(q);
    maxI := start;
    var i := start + 1;
    while i < |upper|
      invariant start < i <= |upper| && maxI == i - 1 && max == upper[maxI].Minus(q)
      invariant forall j :: start <= j < maxI ==> Cross(upper[j], upper[j + 1], q) >= 0
    {
      var val := upper[i].Minus(q);
      SlopeTests(upper[i - 1], upper[i], q);
      if val.Less(max) {
        break;
      }
      max := val;
      maxI := i;
      i := i + 1;
    }
  }

  /** Finds the extreme slope to q, stopping at the first lower point that does not lower it. */
  method ScanLower(lower: seq<Point>, start: nat, q: Point) returns (minI: nat)
    requires start < |lower|
    ensures ScannedDown(lower, start, q, minI)
  {
    var min := lower[start].Minus(q);
    minI := start;
    var i := start + 1;
    while i < |lower|
      invariant start < i <= |lower| && minI == i - 1 && min == lower[minI].Minus(q)
      invariant forall j :: start <= j < minI ==> Cross(lower[j], lower[j + 1], q) <= 0
    {
      var val := lower[i].Minus(q);
      SlopeTests(lower[i - 1], lower[i], q);
      if val.Greater(min) {
        break;
      }
      min := val;
      minI := i;
      i := i + 1;
    }
  }

  /** How many upper points survive the arrival of p. */
  method TrimUpper(upper: seq<Point>, start: nat, p: Point) returns (end: nat)
    requires start < |upper|
    ensures Trimmed(upper, start, p, end)
  {
    end := |upper|;
    while end >= start + 2 && Cross(upper[end - 2], upper[end - 1], p) <= 0
      invariant start < end <= |upper|
      invariant forall j :: end <= j < |upper| ==> Cross(upper[j - 1], upper[j], p) <= 0
    {
      end := end - 1;
    }
  }

  /** How many lower points survive the arrival of p. */
  method TrimLower(lower: seq<Point>, start: nat, p: Point) returns (end: nat)
    requires start < |lower|
    ensures TrimmedDown(lower, start, p, end)
  {
    end := |lower|;
    while end >= start + 2 && Cross(lower[end - 2], lower[end - 1], p) >= 0
      invariant start < end <= |lower|
      invariant forall j :: end <= j < |lower| ==> Cross(lower[j - 1], lower[j], p) >= 0
    {
      end := end - 1;
    }
  }

  // The same facts about the chains that start at the start indices.

  lemma ScannedChain(v: seq<Point>, start: nat, q: Point, i: nat)
    requires Scanned(v, start, q, i)
    ensures Stopped(v[start..], q, i - start)
  {
    var c := v[start..];
    forall j | 0 <= j < i - start
      ensures Cross(c[j], c[j + 1], q) >= 0
    {
      assert Cross(v[start + j], v[start + j + 1], q) >= 0;
    }
  }

  lemma ScannedDownChain(v: seq<Point>, start: nat, q: Point, i: nat)
    requires ScannedDown(v, start, q, i)
    ensures Stopped(FlipAll(v[start..]), Flip(q), i - start)
  {
    var c := FlipAll(v[start..]);
    forall j | 0 <= j < |c| - 1
      ensures Cross(c[j], c[j + 1], Flip(q)) == -Cross(v[start + j], v[start + j + 1], q)
    {
      FlipCross(v[start + j], v[start + j + 1], q);
    }
    forall j | 0 <= j < i - start
      ensures Cross(c[j], c[j + 1], Flip(q)) >= 0
    {
      assert Cross(v[start + j], v[start + j + 1], q) <= 0;
    }
  }

  lemma TrimmedChain(v: seq<Point>, start: nat, p: Point, end: nat)
    requires Trimmed(v, start, p, end)
    ensures Popped(v[start..], p, end - start)
    ensures end - start >= 2 ==> Cross(v[start..][end - start - 2], v[start..][end - start - 1], p) > 0
  {
    var c := v[start..];
    forall j | end - start <= j < |c|
      ensures Cross(c[j - 1], c[j], p) <= 0
    {
      assert Cross(v[start + j - 1], v[start + j], p) <= 0;
    }
  }

  /** The lower vector was trimmed from a later start than the chain's: still no kept point is wrongly removed. */
  lemma TrimmedDownChain(v: seq<Point>, start: nat, later: nat, p: Point, end: nat)
    requires start <= later && TrimmedDown(v, later, p, end)
    ensures Popped(FlipAll(v[start..]), Flip(p), end - start)
    ensures end - later >= 2 ==>
              Cross(FlipAll(v[start..])[end - start - 2], FlipAll(v[start..])[end - start - 1], Flip(p)) > 0
  {
    var c := FlipAll(v[start..]);
    forall j | 1 <= j < |c|
      ensures Cross(c[j - 1], c[j], Flip(p)) == -Cross(v[start + j - 1], v[start + j], p)
    {
      FlipCross(v[start + j - 1], v[start + j], p);
    }
    forall j | end - start <= j < |c|
      ensures Cross(c[j - 1], c[j], Flip(p)) <= 0
    {
      assert Cross(v[start + j - 1], v[start + j], p) >= 0;
    }
  }

  lemma TrimSlice(v: seq<Point>, start: nat, end: nat, p: Point, t: nat)
    requires start < end <= |v| && start + t <= end
    ensures (v[..end] + [p])[start + t..] == (v[start..][..end - start] + [p])[t..]
    ensures FlipAll((v[..end] + [p])[start + t..]) == (FlipAll(v[start..])[..end - start] + [Flip(p)])[t..]
  {
    var kept := v[start..][..end - start] + [p];
    assert v[..end][start..] == v[start..][..end - start];
    assert (v[..end] + [p])[start..] == kept;
    assert (v[..end] + [p])[start..][t..] == (v[..end] + [p])[start + t..];
    assert FlipAll(kept) == FlipAll(v[start..])[..end - start] + [Flip(p)];
    assert FlipAll(kept[t..]) == FlipAll(kept)[t..];
  }

  /** The upper scan never ends at the point just pushed, which is straight above q. */
  lemma ScanBeforePush(v: seq<Point>, start: nat, end: nat, p: Point, q: Point, i: nat)
    requires start < end <= |v| && v[end - 1].x < p.x == q.x && q.y < p.y
    requires Scanned(v[..end] + [p], start, q, i)
    ensures i < end && Scanned(v[..end], start, q, i)
  {
    var w := v[..end] + [p];
    BelowEnd(v[end - 1], p, q);
    assert w[end - 1] == v[end - 1] && w[end] == p;
    assert !(forall j :: start <= j < end ==> Cross(w[j], w[j + 1], q) >= 0);
    forall j | start <= j < i
      ensures Cross(v[..end][j], v[..end][j + 1], q) >= 0
    {
      assert Cross(w[j], w[j + 1], q) >= 0;
    }
  }

  /** The upper vector after a push, and after the scan that may follow it. */
  lemma PushNext(v: seq<Point>, start: nat, end: nat, p: Point, q: Point, raise: bool, maxI: nat)
    requires Trimmed(v, start, p, end) && v[end - 1].x < p.x == q.x
    requires if raise then q.y < p.y && Scanned(v[..end] + [p], start, q, maxI) else maxI == start
    ensures start <= maxI < end && (v[..end] + [p])[maxI] == v[maxI] == v[start..][maxI - start]
    ensures NextChain(v[start..], true, p, end - start, maxI - start, (v[..end] + [p])[maxI..])
    ensures raise ==> Stopped(v[start..][..end - start], q, maxI - start)
  {
    hide Cross;
    TrimmedChain(v, start, p, end);
    if raise {
      ScanBeforePush(v, start, end, p, q, maxI);
      ScannedChain(v[..end], start, q, maxI);
      assert v[..end][start..] == v[start..][..end - start];
    }
    TrimSlice(v, start, end, p, maxI - start);
  }

  /** The upper vector when nothing is pushed. */
  lemma KeepNext(v: seq<Point>, start: nat, p: Point, q: Point, raise: bool, maxI: nat)
    requires start < |v|
    requires if raise then Scanned(v, start, q, maxI) else maxI == start
    ensures start <= maxI < |v| && v[maxI] == v[start..][maxI - start]
    ensures NextChain(v[start..], false, p, |v| - start, maxI - start, v[maxI..])
    ensures Popped(v[start..], p, |v| - start)
    ensures raise ==> Stopped(v[start..][..|v| - start], q, maxI - start)
  {
    hide Cross;
    if raise {
      ScannedChain(v, start, q, maxI);
    }
    assert v[start..][..|v| - start] == v[start..];
    assert v[maxI..] == v[start..][maxI - start..];
  }

  /** The first update of add_point: the greatest slope drops. */
  function Narrow(h: Hulls, p1: Point, minI: nat, end: nat): Hulls
    requires |h.rect| == 4 && minI < |h.lower| && end <= |h.upper|
  {
    h.(rect := h.rect[1 := h.lower[minI]][3 := p1], lowerStart := minI, upper := h.upper[..end] + [p1])
  }

  /** The second update of add_point: the least slope rises. */
  function Raise(h: Hulls, p2: Point, maxI: nat, end: nat): Hulls
    requires |h.rect| == 4 && maxI < |h.upper| && end <= |h.lower|
  {
    h.(rect := h.rect[0 := h.upper[maxI]][2 := p2], upperStart := maxI, lower := h.lower[..end] + [p2])
  }

  ghost predicate Narrows(h: Hulls, p1: Point, narrow: bool, minI: nat, end: nat, h1: Hulls)
    requires |h.rect| == 4
  {
    if narrow then
      && ScannedDown(h.lower, h.lowerStart, p1, minI)
      && Trimmed(h.upper, h.upperStart, p1, end)
      && h1 == Narrow(h, p1, minI, end)
    else
      h1 == h && minI == h.lowerStart && end == |h.upper|
  }

  ghost predicate Raises(h1: Hulls, p2: Point, raise: bool, maxI: nat, end: nat, h2: Hulls)
    requires |h1.rect| == 4
  {
    if raise then
      && Scanned(h1.upper, h1.upperStart, p2, maxI)
      && TrimmedDown(h1.lower, h1.lowerStart, p2, end)
      && h2 == Raise(h1, p2, maxI, end)
    else
      h2 == h1 && maxI == h1.upperStart && end == |h1.lower|
  }

  /** What both updates do to the upper hull, in terms of its kept part. */
  ghost predicate UpperMoved(h: Hulls, b: Bound, narrow: bool, raise: bool, endU: nat, maxI: nat, h2: Hulls)
    requires Cornered(h)
  {
    && h.upperStart < endU <= |h.upper|
    && h.upperStart <= maxI < endU
    && h2.upperStart < |h2.upper|
    && |h2.rect| == 4
    && NextChain(UpperChain(h), narrow, Top(b), endU - h.upperStart, maxI - h.upperStart, UpperChain(h2))
    && (raise ==>
          && Popped(UpperChain(h), Top(b), endU - h.upperStart)
          && Stopped(UpperChain(h)[..endU - h.upperStart], Bottom(b), maxI - h.upperStart)
          && h2.rect[0] == UpperChain(h)[maxI - h.upperStart])
  }

  lemma UpperNext(h: Hulls, b: Bound, narrow: bool, raise: bool, minI: nat, endU: nat, h1: Hulls,
                  maxI: nat, endL: nat, h2: Hulls)
    requires Cornered(h)
    requires forall i :: 0 <= i < |UpperChain(h)| ==> UpperChain(h)[i].x < b.x
    requires Narrows(h, Top(b), narrow, minI, endU, h1)
    requires narrow && raise ==> b.lo < b.hi
    requires Raises(h1, Bottom(b), raise, maxI, endL, h2)
    ensures UpperMoved(h, b, narrow, raise, endU, maxI, h2)
  {
    hide Cross, Popped, Stopped, Scanned, ScannedDown, Trimmed, TrimmedDown, NextChain;
    var up, start := UpperChain(h), h.upperStart;
    if narrow {
      assert start < endU <= |h.upper| by {
        TrimRange(h.upper, start, Top(b), endU);
      }
      assert h.upper[endU - 1] == up[endU - 1 - start];
      PushNext(h.upper, start, endU, Top(b), Bottom(b), raise, maxI);
      NextPopped(up, Top(b), endU - start, maxI - start, UpperChain(h2));
    } else {
      KeepNext(h.upper, start, Top(b), Bottom(b), raise, maxI);
    }
  }

  lemma TrimRange(v: seq<Point>, start: nat, p: Point, end: nat)
    requires Trimmed(v, start, p, end)
    ensures start < end <= |v|
  {
  }

  lemma NextPopped(c: seq<Point>, p: Point, e: nat, t: nat, d: seq<Point>)
    requires NextChain(c, true, p, e, t, d)
    ensures Popped(c, p, e)
  {
  }

  lemma LowerNext(h: Hulls, b: Bound, narrow: bool, raise: bool, minI: nat, endU: nat, h1: Hulls,
                  maxI: nat, endL: nat, h2: Hulls)
    requires Cornered(h)
    requires Narrows(h, Top(b), narrow, minI, endU, h1)
    requires Raises(h1, Bottom(b), raise, maxI, endL, h2)
    ensures h.lowerStart <= minI < endL <= |h.lower|
    ensures h2.lowerStart < |h2.lower|
    ensures NextChain(LowerChain(h), raise, Flip(Bottom(b)), endL - h.lowerStart, minI - h.lowerStart, LowerChain(h2))
    ensures narrow ==> Stopped(LowerChain(h), Flip(Top(b)), minI - h.lowerStart)
  {
    hide Cross, Popped, Stopped, Scanned, NextChain;
    var low, start := LowerChain(h), h.lowerStart;
    if narrow {
      ScannedDownChain(h.lower, start, Top(b), minI);
    }
    if raise {
      LowerPushNext(h.lower, start, minI, endL, Bottom(b));
    } else {
      LowerKeepNext(h.lower, start, minI, endL - start, Bottom(b));
    }
  }

  lemma LowerPushNext(v: seq<Point>, start: nat, minI: nat, end: nat, p: Point)
    requires start <= minI && TrimmedDown(v, minI, p, end)
    ensures NextChain(FlipAll(v[start..]), true, Flip(p), end - start, minI - start, FlipAll((v[..end] + [p])[minI..]))
  {
    hide Cross;
    TrimmedDownChain(v, start, minI, p, end);
    TrimSlice(v, start, end, p, minI - start);
  }

  lemma LowerKeepNext(v: seq<Point>, start: nat, minI: nat, e: nat, p: Point)
    requires start <= minI < |v|
    ensures NextChain(FlipAll(v[start..]), false, Flip(p), e, minI - start, FlipAll(v[minI..]))
  {
    assert FlipAll(v[minI..]) == FlipAll(v[start..])[minI - start..];
  }

  /** Both updates together keep the state exact. */
  lemma UpdatesAreExact(h: Hulls, s: seq<Bound>, b: Bound, minI: nat, endU: nat, h1: Hulls,
                        maxI: nat, endL: nat, h2: Hulls)
    requires Exact(h, s) && Wellformed(s + [b]) && Uniform(s + [b])
    requires MinLine(h.rect).At(b.x) <= b.hi as real && b.lo as real <= MaxLine(h.rect).At(b.x)
    requires Narrows(h, Top(b), Caps(MaxLine(h.rect), b), minI, endU, h1)
    requires Raises(h1, Bottom(b), MinLine(h.rect).At(b.x) < b.lo as real, maxI, endL, h2)
    ensures Exact(h2, s + [b])
  {
    hide Cross, Through, Dominates, Convex, Rising, UnderHi, OverLo, Popped, Stopped, NextChain, Scanned, ScannedDown, Trimmed, TrimmedDown;
    var narrow, raise := Caps(MaxLine(h.rect), b), MinLine(h.rect).At(b.x) < b.lo as real;
    if narrow && raise {
      WidthBetween(s, MinLine(h.rect), MaxLine(h.rect), b);
    }
    Sides(h, s, b);
    UpperNext(h, b, narrow, raise, minI, endU, h1, maxI, endL, h2);
    LowerNext(h, b, narrow, raise, minI, endU, h1, maxI, endL, h2);
    Corners(h, b, narrow, raise, minI, endU, h1, maxI, endL, h2);
    StaysExact(h, s, b, h2, endU - h.upperStart, maxI - h.upperStart, endL - h.lowerStart, minI - h.lowerStart);
  }

  lemma Sides(h: Hulls, s: seq<Bound>, b: Bound)
    requires Exact(h, s) && Wellformed(s + [b])
    ensures forall i :: 0 <= i < |UpperChain(h)| ==> UpperChain(h)[i].x < b.x
    ensures forall i :: 0 <= i < |LowerChain(h)| ==> LowerChain(h)[i].x < b.x
  {
    hide Cross, Through, Dominates;
    ChainLeftOf(UpperChain(h), s, b);
    FlipWellformed(s + [b]);
    FlipSnoc(s, b);
    ChainLeftOf(LowerChain(h), FlipBounds(s), FlipBound(b));
  }

  lemma Corners(h: Hulls, b: Bound, narrow: bool, raise: bool, minI: nat, endU: nat, h1: Hulls,
                maxI: nat, endL: nat, h2: Hulls)
    requires Cornered(h)
    requires forall i :: 0 <= i < |UpperChain(h)| ==> UpperChain(h)[i].x < b.x
    requires forall i :: 0 <= i < |LowerChain(h)| ==> LowerChain(h)[i].x < b.x
    requires Narrows(h, Top(b), narrow, minI, endU, h1) && Raises(h1, Bottom(b), raise, maxI, endL, h2)
    requires h.upperStart <= maxI < endU <= |h.upper| && h.lowerStart <= minI < endL <= |h.lower|
    ensures Cornered(h2)
  {
    hide Cross;
    assert UpperChain(h)[maxI - h.upperStart] == h.upper[maxI];
    assert LowerChain(h)[minI - h.lowerStart] == Flip(h.lower[minI]);
    assert LowerChain(h)[|h.lower| - 1 - h.lowerStart] == Flip(h.rect[2]);
    assert UpperChain(h)[|h.upper| - 1 - h.upperStart] == h.rect[3];
  }

  /** The four integer slope tests of add_point place the new interval against the two diagonals. */
  lemma DiagonalTests(rect: seq<Point>, b: Bound)
    requires Rectangle(rect)
    ensures var slope1, slope2 := rect[2].Minus(rect[0]), rect[3].Minus(rect[1]);
            var f1, f2 := MinLine(rect), MaxLine(rect);
            && (Top(b).Minus(rect[2]).Less(slope1) <==> b.hi as real < f1.At(b.x))
            && (Bottom(b).Minus(rect[3]).Greater(slope2) <==> f2.At(b.x) < b.lo as real)
            && (Top(b).Minus(rect[1]).Less(slope2) <==> b.hi as real < f2.At(b.x))
            && (Bottom(b).Minus(rect[0]).Greater(slope1) <==> f1.At(b.x) < b.lo as real)
  {
    SlopeTests(rect[0], rect[2], Top(b));
    SlopeTests(rect[1], rect[3], Top(b));
    SlopeTests(rect[0], rect[2], Bottom(b));
    SlopeTests(rect[1], rect[3], Bottom(b));
    CompareToLine(rect[0], rect[2], Top(b));
    CompareToLine(rect[1], rect[3], Top(b));
    CompareToLine(rect[0], rect[2], Bottom(b));
    CompareToLine(rect[1], rect[3], Bottom(b));
  }

  ghost predicate Widened(b: Bound, p: (int, int), epsilon: int)
    requires 0 <= epsilon <= MAX_Y
  {
    0 <= p.1 <= MAX_Y && b == Widen(p.0, p.1, epsilon)
  }

  /** The last points stored are those of the current segment. */
  ghost predicate Recorded(segment: seq<Bound>, points: seq<(int, int)>, epsilon: int)
    requires 0 <= epsilon <= MAX_Y
  {
    && |segment| <= |points|
    && (var tail := points[|points| - |segment|..];
        forall i :: 0 <= i < |segment| ==> Widened(segment[i], tail[i], epsilon))
  }

  lemma NothingRecorded(points: seq<(int, int)>, epsilon: int)
    requires 0 <= epsilon <= MAX_Y
    ensures Recorded([], points, epsilon) && Wellformed([])
  {
  }

  lemma RecordPoint(segment: seq<Bound>, points: seq<(int, int)>, epsilon: int, x: int, y: int)
    requires 0 <= epsilon <= MAX_Y && 0 <= y <= MAX_Y
    requires Recorded(segment, points, epsilon) && Wellformed(segment)
    requires |segment| > 0 ==> segment[|segment| - 1].x < x
    ensures Recorded(segment + [Widen(x, y, epsilon)], points + [(x, y)], epsilon)
    ensures Wellformed(segment + [Widen(x, y, epsilon)]) && Uniform(segment + [Widen(x, y, epsilon)])
  {
    var b := Widen(x, y, epsilon);
    Appended(segment, b);
    var s, ps := segment + [b], points + [(x, y)];
    assert ps[|ps| - |s|..] == points[|points| - |segment|..] + [(x, y)];
  }

  /** The rise from the top of one interval to the bottom of a later one, and the other way round. */
  function LeastRise(a: Bound, b: Bound): Slope {
    Bottom(b).Minus(Top(a))
  }

  function GreatestRise(a: Bound, b: Bound): Slope {
    Top(b).Minus(Bottom(a))
  }

  /** The slope is the greatest of the least rises over all pairs, and some pair has it. */
  ghost predicate IsGreatestLeastRise(slope: Slope, s: seq<Bound>) {
    && slope.dx > 0
    && (forall i, j :: 0 <= i < j < |s| ==> !LeastRise(s[i], s[j]).Greater(slope))
    && (exists i, j :: 0 <= i < j < |s| && LeastRise(s[i], s[j]) == slope)
  }

  /** The slope is the least of the greatest rises over all pairs, and some pair has it. */
  ghost predicate IsLeastGreatestRise(slope: Slope, s: seq<Bound>) {
    && slope.dx > 0
    && (forall i, j :: 0 <= i < j < |s| ==> !GreatestRise(s[i], s[j]).Less(slope))
    && (exists i, j :: 0 <= i < j < |s| && GreatestRise(s[i], s[j]) == slope)
  }

  lemma LeastRises(r: seq<Point>, s: seq<Bound>, i: nat, j: nat)
    requires Rectangle(r) && IncreasingX(s) && Fits(MinLine(r), s)
    requires i < |s| && j < |s| && r[0] == Top(s[i]) && r[2] == Bottom(s[j])
    ensures IsGreatestLeastRise(r[2].Minus(r[0]), s)
  {
    forall k, l | 0 <= k < l < |s|
      ensures !LeastRise(s[k], s[l]).Greater(r[2].Minus(r[0]))
    {
      RiseAlongLine(r[0], r[2], Top(s[k]), Bottom(s[l]));
    }
    assert i < j && LeastRise(s[i], s[j]) == r[2].Minus(r[0]);
  }

  lemma GreatestRises(r: seq<Point>, s: seq<Bound>, i: nat, j: nat)
    requires Rectangle(r) && IncreasingX(s) && Fits(MaxLine(r), s)
    requires i < |s| && j < |s| && r[1] == Bottom(s[i]) && r[3] == Top(s[j])
    ensures IsLeastGreatestRise(r[3].Minus(r[1]), s)
  {
    forall k, l | 0 <= k < l < |s|
      ensures !GreatestRise(s[k], s[l]).Less(r[3].Minus(r[1]))
    {
      RiseAlongLine(r[1], r[3], Bottom(s[k]), Top(s[l]));
    }
    assert i < j && GreatestRise(s[i], s[j]) == r[3].Minus(r[1]);
  }

  /** The two slopes of the rectangle are exactly those of the all-pairs scan. */
  lemma AllPairs(h: Hulls, s: seq<Bound>)
    requires Exact(h, s)
    ensures IsGreatestLeastRise(h.rect[2].Minus(h.rect[0]), s)
    ensures IsLeastGreatestRise(h.rect[3].Minus(h.rect[1]), s)
  {
    hide Chain, Through, Fits, IsGreatestLeastRise, IsLeastGreatestRise;
    var r := h.rect;
    CornersAreBounds(h, s);
    var k0 :| 0 <= k0 < |s| && r[0] == Top(s[k0]);
    var k1 :| 0 <= k1 < |s| && r[1] == Bottom(s[k1]);
    var k2 :| 0 <= k2 < |s| && r[2] == Bottom(s[k2]);
    var k3 :| 0 <= k3 < |s| && r[3] == Top(s[k3]);
    LeastRises(r, s, k0, k2);
    GreatestRises(r, s, k1, k3);
  }

  /** A rise from above a line to below it is no steeper than the line, and conversely. */
  lemma RiseAlongLine(a: Point, b: Point, p: Point, q: Point)
    requires a.x < b.x && p.x < q.x
    ensures Through(a, b).At(p.x) <= p.y as real && q.y as real <= Through(a, b).At(q.x) ==>
              !q.Minus(p).Greater(b.Minus(a))
    ensures p.y as real <= Through(a, b).At(p.x) && Through(a, b).At(q.x) <= q.y as real ==>
              !q.Minus(p).Less(b.Minus(a))
  {
    CompareToLine(a, b, p);
    CompareToLine(a, b, q);
    var d, e := b.x - a.x, b.y - a.y;
    assert Cross(a, b, q) - Cross(a, b, p) == (q.y - p.y) * d - (q.x - p.x) * e;
  }

  class OptimalPiecewiseLinearModel {
    const epsilon: int
    var lower: seq<Point>
    var upper: seq<Point>
    var firstX: int
    var lastX: int
    var lastRank: int
    var lowerStart: nat
    var upperStart: nat
    var pointsInHull: nat
    var rectangle: seq<Point>
    var points: seq<(int, int)>

    /** The intervals of the points in the hull, in the order they were added. */
    ghost var segment: seq<Bound>

    ghost function State(): Hulls
      reads this
    {
      Hulls(lower, upper, lowerStart, upperStart, rectangle)
    }

    ghost predicate Valid()
      reads this
    {
      Shaped() && (|segment| > 0 ==> segment[|segment| - 1].x == lastX)
    }

    /** All but the memory of the last key. */
    ghost predicate Shaped()
      reads this
    {
      && 0 <= epsilon <= MAX_Y
      && |rectangle| == 4
      && pointsInHull == |segment|
      && Recorded(segment, points, epsilon)
      && Wellformed(segment)
      && (|segment| > 0 ==> segment[0].x == firstX)
      && (|segment| == 1 ==> Started())
      && (|segment| >= 2 ==> Exact(State(), segment))
    }

    ghost predicate Started()
      reads this
      requires |segment| == 1 && |rectangle| == 4
    {
      && upper == [Top(segment[0])]
      && lower == [Bottom(segment[0])]
      && upperStart == lowerStart == 0
      && rectangle[0] == Top(segment[0])
      && rectangle[1] == Bottom(segment[0])
    }

    constructor (epsilon: int)
      requires 0 <= epsilon <= MAX_Y
      ensures Valid() && segment == [] && points == [] && this.epsilon == epsilon
    {
      this.epsilon := epsilon;
      lower, upper, points, segment := [], [], [], [];
      firstX, lastX, lastRank := 0, 0, 0;
      lowerStart, upperStart, pointsInHull := 0, 0, 0;
      rectangle := [Point(0, 0), Point(0, 0), Point(0, 0), Point(0, 0)];
    }

    method Reset()
      requires Valid()
      modifies this
      ensures Valid() && segment == [] && points == []
    {
      pointsInHull := 0;
      lower, upper, points, segment := [], [], [], [];
    }

    /** Adds a point, or reports that no line fits the segment any more and empties the hull. */
    method AddPoint(x: int, y: int) returns (r: Outcome)
      requires Valid() && 0 <= y <= MAX_Y
      modifies this
      ensures Valid()
      ensures r == Threw <==> old(pointsInHull) > 0 && x <= old(lastX)
      ensures r == Threw ==> segment == old(segment) && points == old(points)
      ensures r != Threw ==> (r == Accepted) == Feasible(old(segment) + [Widen(x, y, epsilon)])
      ensures r == Accepted ==> segment == old(segment) + [Widen(x, y, epsilon)] && points == old(points) + [(x, y)]
      ensures r == Rejected ==> segment == [] && points == old(points)
    {
      if pointsInHull > 0 && x <= lastX {
        return Threw;
      }
      ghost var b := Widen(x, y, epsilon);
      RecordPoint(segment, points, epsilon, x, y);
      lastX := x;
      lastRank := y;
      var p1 := Point(x, if y >= MAX_Y - epsilon then MAX_Y else y + epsilon);
      var p2 := Point(x, if y <= epsilon then 0 else y - epsilon);
      assert p1 == Top(b) && p2 == Bottom(b) && b.x == x;
      hide *;
      if pointsInHull < 2 {
        PlaceFirst(x, y, p1, p2, b);
        r := Accepted;
      } else {
        r := PlaceLater(x, y, p1, p2, b);
      }
    }

    /** The first two points of a segment. */
    method PlaceFirst(x: int, y: int, p1: Point, p2: Point, ghost b: Bound)
      requires Shaped() && pointsInHull < 2 && lastX == x == b.x && p1 == Top(b) && p2 == Bottom(b)
      requires Wellformed(segment + [b]) && Recorded(segment + [b], points + [(x, y)], epsilon)
      modifies this
      ensures Valid() && segment == old(segment) + [b] && points == old(points) + [(x, y)] && Feasible(old(segment) + [b])
    {
      hide Cross, Through, Exact, Fits, Feasible, Recorded, Wellformed, Line.At;
      Begin(x, y, p1, p2, b);
    }

    /** Any later point. */
    method PlaceLater(x: int, y: int, p1: Point, p2: Point, ghost b: Bound) returns (r: Outcome)
      requires Shaped() && pointsInHull >= 2 && lastX == x == b.x && p1 == Top(b) && p2 == Bottom(b)
      requires Wellformed(segment + [b]) && Uniform(segment + [b]) && Recorded(segment + [b], points + [(x, y)], epsilon)
      modifies this
      ensures Valid() && r != Threw && (r == Accepted) == Feasible(old(segment) + [b])
      ensures r == Accepted ==> segment == old(segment) + [b] && points == old(points) + [(x, y)]
      ensures r == Rejected ==> segment == [] && points == old(points)
    {
      hide Cross, Through, Exact, Fits, Feasible, Recorded, Uniform, Wellformed, Line.At;
      NothingRecorded(points, epsilon);
      r := Extend(x, y, p1, p2, b);
    }

    /** The first and the second point of a segment, which are always accepted. */
    method Begin(x: int, y: int, p1: Point, p2: Point, ghost b: Bound)
      requires |rectangle| == 4 && pointsInHull == |segment| < 2
      requires Wellformed(segment + [b])
      requires |segment| == 1 ==> Started()
      requires p1 == Top(b) && p2 == Bottom(b) && x == b.x
      modifies this
      ensures |rectangle| == 4 && unchanged(`lastX, `lastRank)
      ensures pointsInHull == |segment| == old(|segment|) + 1
      ensures segment == old(segment) + [b] && points == old(points) + [(x, y)]
      ensures firstX == if old(|segment|) == 0 then x else old(firstX)
      ensures Feasible(segment)
      ensures if |segment| == 1 then Started() else Exact(State(), segment)
    {
      hide Cross, Through, Exact, Fits, Feasible;
      if pointsInHull == 0 {
        firstX := x;
        rectangle := rectangle[0 := p1][1 := p2];
        upper := [p1];
        lower := [p2];
        upperStart, lowerStart := 0, 0;
      } else {
        rectangle := rectangle[2 := p2][3 := p1];
        upper := upper + [p1];
        lower := lower + [p2];
        assert segment + [b] == [segment[0], b];
        TwoPoints(segment[0], b);
        assert State() == Hulls([Bottom(segment[0]), Bottom(b)], [Top(segment[0]), Top(b)], 0, 0,
                                [Top(segment[0]), Bottom(segment[0]), Bottom(b), Top(b)]);
      }
      pointsInHull := pointsInHull + 1;
      points := points + [(x, y)];
      segment := segment + [b];
      FewPointsFeasible(segment);
    }

    /** The rest of add_point, for a segment that already has two points. */
    method Extend(x: int, y: int, p1: Point, p2: Point, ghost b: Bound) returns (r: Outcome)
      requires |rectangle| == 4 && Exact(State(), segment)
      requires Wellformed(segment + [b]) && Uniform(segment + [b])
      requires p1 == Top(b) && p2 == Bottom(b)
      modifies this
      ensures |rectangle| == 4 && unchanged(`firstX, `lastX, `lastRank)
      ensures (r == Accepted) == Feasible(old(segment) + [b])
      ensures if r == Accepted then
                && segment == old(segment) + [b]
                && Exact(State(), segment)
                && points == old(points) + [(x, y)]
                && pointsInHull == old(pointsInHull) + 1
              else
                && r == Rejected && segment == [] && points == old(points) && pointsInHull == 0
    {
      hide Cross, Line.At, Through, Chain, Fits, Feasible, Wellformed, Uniform, Scanned, ScannedDown, Trimmed, TrimmedDown;
      ghost var h, s := State(), segment;
      assert Rectangle(h.rect);
      var slope1 := rectangle[2].Minus(rectangle[0]);
      var slope2 := rectangle[3].Minus(rectangle[1]);
      var outsideLine1 := p1.Minus(rectangle[2]).Less(slope1);
      var outsideLine2 := p2.Minus(rectangle[3]).Greater(slope2);
      DiagonalTests(h.rect, b);
      if outsideLine1 || outsideLine2 {
        Outside(h, s, b);
        pointsInHull := 0;
        segment := [];
        return Rejected;
      }

      ghost var minI, endU := NarrowMax(p1, slope2);
      ghost var h1 := State();
      assert Narrows(h, p1, Caps(MaxLine(h.rect), b), minI, endU, h1);
      ghost var maxI, endL := RaiseMin(p2, slope1);
      UpdatesAreExact(h, s, b, minI, endU, h1, maxI, endL, State());
      pointsInHull := pointsInHull + 1;
      points := points + [(x, y)];
      segment := segment + [b];
      ExactIsFeasible(State(), segment);
      return Accepted;
    }

    /** The first update: the greatest slope drops to the new upper point. */
    method NarrowMax(p1: Point, slope2: Slope) returns (ghost minI: nat, ghost end: nat)
      requires |rectangle| == 4 && lowerStart < |lower| && upperStart < |upper|
      modifies this`rectangle, this`lowerStart, this`upper
      ensures |rectangle| == 4 && rectangle[0] == old(rectangle[0]) && upperStart < |upper| && lowerStart < |lower|
      ensures Narrows(old(State()), p1, old(p1.Minus(rectangle[1]).Less(slope2)), minI, end, State())
    {
      minI, end := lowerStart, |upper|;
      hide Cross, Slope.Less, Slope.Greater;
      if p1.Minus(rectangle[1]).Less(slope2) {
        var i := ScanLower(lower, lowerStart, p1);
        rectangle := rectangle[1 := lower[i]][3 := p1];
        lowerStart := i;
        var j := TrimUpper(upper, upperStart, p1);
        upper := upper[..j] + [p1];
        minI, end := i, j;
      }
    }

    /** The second update: the least slope rises to the new lower point. */
    method RaiseMin(p2: Point, slope1: Slope) returns (ghost maxI: nat, ghost end: nat)
      requires |rectangle| == 4 && lowerStart < |lower| && upperStart < |upper|
      modifies this`rectangle, this`upperStart, this`lower
      ensures |rectangle| == 4
      ensures Raises(old(State()), p2, old(p2.Minus(rectangle[0]).Greater(slope1)), maxI, end, State())
    {
      maxI, end := upperStart, |lower|;
      hide Cross, Slope.Less, Slope.Greater;
      if p2.Minus(rectangle[0]).Greater(slope1) {
        var i := ScanUpper(upper, upperStart, p2);
        rectangle := rectangle[0 := upper[i]][2 := p2];
        upperStart := i;
        var j := TrimLower(lower, lowerStart, p2);
        lower := lower[..j] + [p2];
        maxI, end := i, j;
      }
    }
  }
}

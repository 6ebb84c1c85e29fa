/**
 * The state of one growing segment, seen as two convex chains and two extreme lines, and the
 * lemmas that one accepted point keeps it exact.
 *
 * The lower chain is the mirror image (y negated) of an upper chain, so each lemma about a chain
 * is proved once, for the upper one.
 */
module PgmSegment {
  import opened PgmGeometry

  /** What a point demands of a line: to pass between lo and hi at x. */
  datatype Bound = Bound(x: int, lo: int, hi: int)

  predicate IncreasingX(s: seq<Bound>) {
    forall i, j :: 0 <= i < j < |s| ==> s[i].x < s[j].x
  }

  predicate Wellformed(s: seq<Bound>) {
    && IncreasingX(s)
    && (forall i :: 0 <= i < |s| ==> s[i].lo <= s[i].hi)
  }

  ghost predicate UnderHi(f: Line, s: seq<Bound>) {
    forall i :: 0 <= i < |s| ==> f.At(s[i].x) <= s[i].hi as real
  }

  ghost predicate OverLo(f: Line, s: seq<Bound>) {
    forall i :: 0 <= i < |s| ==> s[i].lo as real <= f.At(s[i].x)
  }

  ghost predicate Fits(f: Line, s: seq<Bound>) {
    UnderHi(f, s) && OverLo(f, s)
  }

  /** Some real line passes through every interval. */
  ghost predicate Feasible(s: seq<Bound>) {
    exists f: Line :: Fits(f, s)
  }

  // ----- chains -----

  function Top(b: Bound): Point {
    Point(b.x, b.hi)
  }

  function Bottom(b: Bound): Point {
    Point(b.x, b.lo)
  }

  predicate Rising(c: seq<Point>) {
    forall i, j :: 0 <= i < j < |c| ==> c[i].x < c[j].x
  }

  predicate Convex(c: seq<Point>) {
    forall i :: 0 <= i < |c| - 2 ==> Cross(c[i], c[i + 1], c[i + 2]) > 0
  }

  ghost predicate IsTop(p: Point, s: seq<Bound>) {
    exists k :: 0 <= k < |s| && p == Top(s[k])
  }

  ghost predicate OnTops(c: seq<Point>, s: seq<Bound>) {
    forall i :: 0 <= i < |c| ==> IsTop(c[i], s)
  }

  ghost predicate Below(f: Line, c: seq<Point>) {
    forall i :: 0 <= i < |c| ==> f.At(c[i].x) <= c[i].y as real
  }

  /** A line that leaves the last point between f1 and f2 and is below the chain is below every top. */
  ghost predicate Dominates(c: seq<Point>, s: seq<Bound>, f1: Line, f2: Line)
    requires |s| > 0
  {
    forall f: Line, x: int {:trigger Below(f, c), f1.At(x)} ::
      s[|s| - 1].x < x && f1.At(x) < f.At(x) <= f2.At(x) && Below(f, c) ==> UnderHi(f, s)
  }

  /** An upper chain: pruned tops that still decide every later tangent; f1 leaves its head, f2 meets its end. */
  ghost predicate Chain(c: seq<Point>, s: seq<Bound>, f1: Line, f2: Line) {
    && |s| > 0
    && |c| > 0
    && Rising(c)
    && Convex(c)
    && OnTops(c, s)
    && f1.At(c[0].x) == c[0].y as real
    && f2.At(c[|c| - 1].x) == c[|c| - 1].y as real
    && Dominates(c, s, f1, f2)
  }

  // ----- mirror image -----

  function Flip(p: Point): Point {
    Point(p.x, -p.y)
  }

  function FlipAll(c: seq<Point>): (r: seq<Point>)
    ensures |r| == |c|
  {
    seq(|c|, i requires 0 <= i < |c| => Flip(c[i]))
  }

  function FlipLine(f: Line): Line {
    Line(-f.slope, -f.icpt)
  }

  function FlipBound(b: Bound): Bound {
    Bound(b.x, -b.hi, -b.lo)
  }

  function FlipBounds(s: seq<Bound>): (r: seq<Bound>)
    ensures |r| == |s|
  {
    seq(|s|, i requires 0 <= i < |s| => FlipBound(s[i]))
  }

  lemma FlipAt(f: Line, x: int)
    ensures FlipLine(f).At(x) == -f.At(x)
  {
  }

  lemma FlipCross(o: Point, a: Point, b: Point)
    ensures Cross(Flip(o), Flip(a), Flip(b)) == -Cross(o, a, b)
  {
  }

  lemma FlipFits(f: Line, s: seq<Bound>)
    ensures Fits(FlipLine(f), FlipBounds(s)) <==> Fits(f, s)
  {
    var m := FlipBounds(s);
    forall i | 0 <= i < |s|
      ensures FlipLine(f).At(m[i].x) == -f.At(s[i].x)
    {
      FlipAt(f, s[i].x);
    }
    if Fits(f, s) {
    }
    if Fits(FlipLine(f), m) {
      forall i | 0 <= i < |s|
        ensures s[i].lo as real <= f.At(s[i].x) <= s[i].hi as real
      {
        assert m[i].lo as real <= FlipLine(f).At(m[i].x) <= m[i].hi as real;
      }
    }
  }

  lemma FlipThrough(a: Point, b: Point)
    requires a.x < b.x
    ensures Through(Flip(a), Flip(b)) == FlipLine(Through(a, b))
  {
    var n, d := (b.y - a.y) as real, (b.x - a.x) as real;
    var s, s' := n / d, (-n) / d;
    assert s * d == n && s' * d == -n;
    assert (s + s') * d == 0.0;
    assert s' == -s;
    assert ((-b.y) - (-a.y)) as real == -n;
  }

  lemma FlipSnoc(s: seq<Bound>, b: Bound)
    ensures FlipBounds(s + [b]) == FlipBounds(s) + [FlipBound(b)]
  {
  }

  // ----- the tangent scan -----

  /** The scan kept going while q was not below the next edge, and stopped at an edge q is below. */
  ghost predicate Stopped(c: seq<Point>, q: Point, t: nat) {
    && t < |c|
    && (forall i :: 0 <= i < t ==> Cross(c[i], c[i + 1], q) >= 0)
    && (t + 1 < |c| ==> Cross(c[t], c[t + 1], q) < 0)
  }

  lemma {:induction false} LeftOfTangent(c: seq<Point>, q: Point, t: nat, j: nat)
    requires Rising(c) && Stopped(c, q, t) && c[t].x < q.x && j <= t
    ensures Through(c[t], q).At(c[j].x) <= c[j].y as real
    decreases t - j
  {
    var g := Through(c[t], q);
    ThroughEnds(c[t], q);
    if j == t {
    } else {
      LeftOfTangent(c, q, t, j + 1);
      var e := Through(c[j], c[j + 1]);
      ThroughEnds(c[j], c[j + 1]);
      CompareToLine(c[j], c[j + 1], q);
      assert Cross(c[j], c[j + 1], q) >= 0;
      FurtherLeft(g, e, c[j].x, c[j + 1].x, q.x);
    }
  }

  lemma {:induction false} RightOfTangent(c: seq<Point>, q: Point, t: nat, j: nat)
    requires Rising(c) && Convex(c) && Stopped(c, q, t) && t <= j < |c|
    requires forall i :: 0 <= i < |c| ==> c[i].x < q.x
    ensures Through(c[t], q).At(c[j].x) <= c[j].y as real
    ensures j + 1 < |c| ==> Cross(c[j], c[j + 1], q) < 0
    decreases j
  {
    var g := Through(c[t], q);
    ThroughEnds(c[t], q);
    if j == t {
    } else {
      RightOfTangent(c, q, t, j - 1);
      var a, b := c[j - 1], c[j];
      var e := Through(a, b);
      ThroughEnds(a, b);
      CompareToLine(a, b, q);
      Between(g, e, a.x, b.x, q.x);
      if j + 1 < |c| {
        SteeperEdge(a, b, c[j + 1], q);
      }
    }
  }

  /** Past a left turn, a point below the first edge is below the second. */
  lemma SteeperEdge(a: Point, b: Point, d: Point, q: Point)
    requires a.x < b.x < d.x <= q.x
    requires Cross(a, b, d) > 0 && Cross(a, b, q) < 0
    ensures Cross(b, d, q) < 0
  {
    var e, h := Through(a, b), Through(b, d);
    ThroughEnds(a, b);
    ThroughEnds(b, d);
    CompareToLine(a, b, d);
    CompareToLine(a, b, q);
    CompareToLine(b, d, q);
    assert e.At(d.x) < h.At(d.x);
    FurtherRight(e, h, b.x, d.x, q.x);
  }

  /** The early-break scan ends at the true tangent. */
  lemma TangentIsBelow(c: seq<Point>, q: Point, t: nat)
    requires Rising(c) && Convex(c) && Stopped(c, q, t)
    requires forall i :: 0 <= i < |c| ==> c[i].x < q.x
    ensures Below(Through(c[t], q), c)
  {
    forall j | 0 <= j < |c|
      ensures Through(c[t], q).At(c[j].x) <= c[j].y as real
    {
      if j <= t {
        LeftOfTangent(c, q, t, j);
      } else {
        RightOfTangent(c, q, t, j);
      }
    }
  }

  // ----- the hull update -----

  /** The points from e on were removed because p makes no left turn after them. */
  ghost predicate Popped(c: seq<Point>, p: Point, e: nat) {
    && 1 <= e <= |c|
    && (forall i :: e <= i < |c| ==> Cross(c[i - 1], c[i], p) <= 0)
  }

  /** A line below the kept points and p is below the removed points too. */
  lemma {:induction false} BelowPopped(c: seq<Point>, p: Point, e: nat, f: Line)
    requires Rising(c) && Popped(c, p, e)
    requires forall i :: 0 <= i < |c| ==> c[i].x < p.x
    requires Below(f, c[..e]) && f.At(p.x) <= p.y as real
    ensures Below(f, c)
    decreases |c| - e
  {
    if e == |c| {
      assert c[..e] == c;
    } else {
      var a, b := c[e - 1], c[e];
      assert a == c[..e][e - 1];
      var h := Through(a, p);
      ThroughEnds(a, p);
      Between(f, h, a.x, b.x, p.x);
      CompareToLine(a, p, b);
      CrossSwap(a, b, p);
      var longer := c[..e + 1];
      assert longer == c[..e] + [b];
      BelowPopped(c, p, e + 1, f);
    }
  }

  lemma CrossSwap(o: Point, a: Point, b: Point)
    ensures Cross(o, a, b) == -Cross(o, b, a)
  {
    assert (a.x - o.x) * (b.y - o.y) == (b.y - o.y) * (a.x - o.x);
    assert (a.y - o.y) * (b.x - o.x) == (b.x - o.x) * (a.y - o.y);
  }

  lemma ConvexPush(c: seq<Point>, e: nat, p: Point, t: nat)
    requires Convex(c) && t < e <= |c|
    requires e - t >= 2 ==> Cross(c[e - 2], c[e - 1], p) > 0
    ensures Convex((c[..e] + [p])[t..])
  {
    var r := (c[..e] + [p])[t..];
    forall i | 0 <= i < |r| - 2
      ensures Cross(r[i], r[i + 1], r[i + 2]) > 0
    {
      assert Cross(c[t + i], c[t + i + 1], if t + i + 2 < e then c[t + i + 2] else p) > 0;
    }
  }

  // ----- one accepted point -----

  /** The state before a point: a chain, the two extreme lines and a new bound both lines reach. */
  ghost predicate Ready(c: seq<Point>, s: seq<Bound>, f1: Line, f2: Line, b: Bound) {
    && Chain(c, s, f1, f2)
    && Wellformed(s + [b])
    && Fits(f1, s)
    && Fits(f2, s)
    && f1.At(b.x) <= b.hi as real
    && b.lo as real <= f2.At(b.x)
  }

  lemma ChainLeftOf(c: seq<Point>, s: seq<Bound>, b: Bound)
    requires OnTops(c, s) && IncreasingX(s + [b])
    ensures forall i :: 0 <= i < |c| ==> c[i].x < b.x
  {
    forall i | 0 <= i < |c|
      ensures c[i].x < b.x
    {
      assert IsTop(c[i], s);
      var k :| 0 <= k < |s| && c[i] == Top(s[k]);
      assert (s + [b])[k] == s[k] && (s + [b])[|s|] == b;
    }
  }

  /** The line that replaces f1: the tangent from the new lower point to the chain. */
  ghost predicate Raised(f1: Line, f2: Line, s: seq<Bound>, b: Bound, g: Line) {
    && Fits(g, s + [b])
    && (forall x {:trigger g.At(x)} :: b.x <= x ==> f1.At(x) <= g.At(x))
  }

  /** A line through the new lower point and below the chain fits the longer segment. */
  lemma TangentFits(c: seq<Point>, s: seq<Bound>, f1: Line, f2: Line, b: Bound, t: nat)
    requires Ready(c, s, f1, f2, b) && t < |c| && c[t].x < b.x
    requires f1.At(b.x) < b.lo as real
    requires Below(Through(c[t], Bottom(b)), c)
    ensures Raised(f1, f2, s, b, Through(c[t], Bottom(b)))
  {
    var q := Bottom(b);
    var g := Through(c[t], q);
    ThroughEnds(c[t], q);
    var last := s[|s| - 1];
    assert (s + [b])[|s| - 1] == last && (s + [b])[|s|] == b;
    assert UnderHi(g, s);
    assert IsTop(c[t], s) && IsTop(c[0], s);
    var k :| 0 <= k < |s| && c[t] == Top(s[k]);
    forall i | 0 <= i < |s|
      ensures s[i].lo as real <= g.At(s[i].x)
    {
      assert (s + [b])[i] == s[i];
      assert f1.At(s[i].x) >= s[i].lo as real && f2.At(s[i].x) >= s[i].lo as real;
      assert f1.At(s[k].x) <= s[k].hi as real && f2.At(s[k].x) <= s[k].hi as real;
      if s[k].x <= s[i].x {
        Between(f1, g, s[k].x, s[i].x, b.x);
      } else {
        FurtherLeft(f2, g, s[i].x, s[k].x, b.x);
      }
    }
    assert Fits(g, s + [b]);
    var k0 :| 0 <= k0 < |s| && c[0] == Top(s[k0]);
    assert (s + [b])[k0] == s[k0];
    forall x {:trigger g.At(x)} | b.x <= x
      ensures f1.At(x) <= g.At(x)
    {
      FurtherRight(f1, g, s[k0].x, b.x, x);
    }
  }

  /** The scan over what the hull update left of the chain still yields a fitting line. */
  lemma ScanFits(c: seq<Point>, s: seq<Bound>, f1: Line, f2: Line, b: Bound, e: nat, t: nat)
    requires Ready(c, s, f1, f2, b)
    requires f1.At(b.x) < b.lo as real
    requires Popped(c, Top(b), e) && Stopped(c[..e], Bottom(b), t)
    ensures c[t].x < b.x && Raised(f1, f2, s, b, Through(c[t], Bottom(b)))
  {
    var q := Bottom(b);
    ChainLeftOf(c, s, b);
    var kept := c[..e];
    assert Convex(kept) by {
      forall i | 0 <= i < |kept| - 2
        ensures Cross(kept[i], kept[i + 1], kept[i + 2]) > 0
      {
        assert Cross(c[i], c[i + 1], c[i + 2]) > 0;
      }
    }
    TangentIsBelow(kept, q, t);
    var g := Through(c[t], q);
    ThroughEnds(c[t], q);
    assert (s + [b])[|s|] == b;
    BelowPopped(c, Top(b), e, g);
    TangentFits(c, s, f1, f2, b, t);
  }

  /** The new top is under f, so it lowers what the chain must stay below. */
  ghost predicate Caps(f: Line, b: Bound) {
    b.hi as real < f.At(b.x)
  }

  /** The chain after the point: push the new top (or not), then drop what is left of the new tangent. */
  ghost predicate NextChain(c: seq<Point>, push: bool, p: Point, e: nat, t: nat, d: seq<Point>) {
    if push then
      && Popped(c, p, e)
      && t < e
      && (e - t >= 2 ==> Cross(c[e - 2], c[e - 1], p) > 0)
      && d == (c[..e] + [p])[t..]
    else
      t < |c| && d == c[t..]
  }

  function Whole(c: seq<Point>, push: bool, p: Point, e: nat): seq<Point>
    requires e <= |c|
  {
    if push then c[..e] + [p] else c
  }

  lemma WholeShape(c: seq<Point>, s: seq<Bound>, push: bool, b: Bound, e: nat)
    requires Rising(c) && OnTops(c, s) && IncreasingX(s + [b]) && e <= |c|
    ensures Rising(Whole(c, push, Top(b), e)) && OnTops(Whole(c, push, Top(b), e), s + [b])
  {
    var whole, s' := Whole(c, push, Top(b), e), s + [b];
    ChainLeftOf(c, s, b);
    forall i | 0 <= i < |whole|
      ensures IsTop(whole[i], s')
    {
      if i < |c| && whole[i] == c[i] {
        assert IsTop(c[i], s);
        var k :| 0 <= k < |s| && c[i] == Top(s[k]);
        assert s'[k] == s[k];
      } else {
        assert s'[|s|] == b;
      }
    }
  }

  lemma SuffixShape(c: seq<Point>, s: seq<Bound>, t: nat)
    requires Rising(c) && OnTops(c, s) && t <= |c|
    ensures Rising(c[t..]) && OnTops(c[t..], s)
  {
  }

  lemma NextConvex(c: seq<Point>, push: bool, p: Point, e: nat, t: nat, d: seq<Point>)
    requires Convex(c) && NextChain(c, push, p, e, t, d)
    ensures Convex(d)
  {
    if push {
      ConvexPush(c, e, p, t);
    } else {
      forall i | 0 <= i < |d| - 2
        ensures Cross(d[i], d[i + 1], d[i + 2]) > 0
      {
        assert Cross(c[t + i], c[t + i + 1], c[t + i + 2]) > 0;
      }
    }
  }

  /** The lines that replace f1 and f2 close in on each other from the new point on. */
  ghost predicate Narrower(f1: Line, f2: Line, b: Bound, g1: Line, g2: Line) {
    && (forall x {:trigger g1.At(x)} :: b.x <= x ==> f1.At(x) <= g1.At(x))
    && (forall x {:trigger g2.At(x)} :: b.x <= x ==> g2.At(x) <= f2.At(x))
    && (if b.hi as real < f2.At(b.x) then g2.At(b.x) == b.hi as real else g2 == f2)
  }

  /** After an accepted point the pruned chain still decides every later tangent. */
  lemma ChainStep(c: seq<Point>, s: seq<Bound>, f1: Line, f2: Line, b: Bound,
                  e: nat, t: nat, d: seq<Point>, g1: Line, g2: Line)
    requires Ready(c, s, f1, f2, b)
    requires e <= |c| && NextChain(c, Caps(f2, b), Top(b), e, t, d)
    requires Fits(g1, s + [b])
    requires Narrower(f1, f2, b, g1, g2)
    requires g1.At(d[0].x) == d[0].y as real
    ensures Chain(d, s + [b], g1, g2)
  {
    var push := Caps(f2, b);
    var whole := Whole(c, push, Top(b), e);
    WholeShape(c, s, push, b, e);
    assert d == whole[t..];
    SuffixShape(whole, s + [b], t);
    NextConvex(c, push, Top(b), e, t, d);
    assert d[|d| - 1] == whole[|whole| - 1];
    assert Dominates(d, s + [b], g1, g2) by {
      forall f: Line, x: int | b.x < x && g1.At(x) < f.At(x) <= g2.At(x) && Below(f, d)
        ensures UnderHi(f, s + [b])
      {
        DominatesStep(c, s, f1, f2, b, e, t, d, g1, g2, f, x);
      }
    }
  }

  lemma DominatesStep(c: seq<Point>, s: seq<Bound>, f1: Line, f2: Line, b: Bound,
                      e: nat, t: nat, d: seq<Point>, g1: Line, g2: Line, f: Line, x: int)
    requires Ready(c, s, f1, f2, b) && e <= |c| && NextChain(c, Caps(f2, b), Top(b), e, t, d)
    requires Fits(g1, s + [b])
    requires b.x < x && f1.At(x) <= g1.At(x) < f.At(x) <= g2.At(x) <= f2.At(x)
    requires g1.At(d[0].x) == d[0].y as real
    requires Below(f, d)
    ensures UnderHi(f, s + [b])
  {
    var push := Caps(f2, b);
    var s', whole := s + [b], Whole(c, push, Top(b), e);
    assert s'[|s|] == b;
    ChainLeftOf(c, s, b);
    WholeShape(c, s, push, b, e);
    assert d == whole[t..];
    forall j | 0 <= j < |whole|
      ensures f.At(whole[j].x) <= whole[j].y as real
    {
      if j >= t {
        assert d[j - t] == whole[j];
      } else {
        assert d[0] == whole[t] && IsTop(whole[j], s');
        var k :| 0 <= k < |s'| && whole[j] == Top(s'[k]);
        FurtherLeft(f, g1, whole[j].x, d[0].x, x);
      }
    }
    if b.hi as real < f2.At(b.x) {
      assert whole[e] == Top(b);
      var kept := c[..e];
      forall i | 0 <= i < |kept|
        ensures f.At(kept[i].x) <= kept[i].y as real
      {
        assert whole[i] == kept[i];
      }
      BelowPopped(c, Top(b), e, f);
    } else {
      var end := c[|c| - 1];
      Between(f, f2, end.x, b.x, x);
    }
    assert s[|s| - 1] == s'[|s| - 1];
    assert Below(f, c);
    assert UnderHi(f, s);
  }

  /** One side of the step: the line f1 becomes still fits and only rises. */
  lemma SideFits(c: seq<Point>, s: seq<Bound>, f1: Line, f2: Line, b: Bound, e: nat, t: nat, g: Line)
    requires Ready(c, s, f1, f2, b)
    requires f1.At(b.x) < b.lo as real ==>
               && Popped(c, Top(b), e)
               && Stopped(c[..e], Bottom(b), t)
               && c[t].x < b.x
               && g == Through(c[t], Bottom(b))
    requires f1.At(b.x) >= b.lo as real ==> g == f1
    ensures Fits(g, s + [b])
    ensures forall x {:trigger g.At(x)} :: b.x <= x ==> f1.At(x) <= g.At(x)
  {
    if f1.At(b.x) < b.lo as real {
      ScanFits(c, s, f1, f2, b, e, t);
    }
  }

  // ----- the whole state -----

  /** The fields of a segment that holds at least two points. */
  datatype Hulls = Hulls(lower: seq<Point>, upper: seq<Point>, lowerStart: nat, upperStart: nat, rect: seq<Point>)

  /** The slopes of the rectangle's diagonals, as lines: the least and the greatest slope that still fit. */
  predicate Rectangle(rect: seq<Point>) {
    |rect| == 4 && rect[0].x < rect[2].x && rect[1].x < rect[3].x
  }

  function MinLine(rect: seq<Point>): Line
    requires Rectangle(rect)
  {
    Through(rect[0], rect[2])
  }

  function MaxLine(rect: seq<Point>): Line
    requires Rectangle(rect)
  {
    Through(rect[1], rect[3])
  }

  /** Either every interval has width, or every interval is a single value. */
  predicate Uniform(s: seq<Bound>) {
    || (forall i :: 0 <= i < |s| ==> s[i].lo < s[i].hi)
    || (forall i :: 0 <= i < |s| ==> s[i].lo == s[i].hi)
  }

  predicate Cornered(h: Hulls) {
    && Rectangle(h.rect)
    && h.upperStart < |h.upper|
    && h.lowerStart < |h.lower|
    && h.rect[0] == h.upper[h.upperStart]
    && h.rect[1] == h.lower[h.lowerStart]
    && h.rect[2] == h.lower[|h.lower| - 1]
    && h.rect[3] == h.upper[|h.upper| - 1]
  }

  function UpperChain(h: Hulls): seq<Point>
    requires h.upperStart < |h.upper|
  {
    h.upper[h.upperStart..]
  }

  function LowerChain(h: Hulls): seq<Point>
    requires h.lowerStart < |h.lower|
  {
    FlipAll(h.lower[h.lowerStart..])
  }

  /** The pruned state is exact: both diagonals fit every point, and both chains decide every later point. */
  ghost predicate Exact(h: Hulls, s: seq<Bound>) {
    && |s| >= 2
    && Wellformed(s)
    && Cornered(h)
    && Fits(MinLine(h.rect), s)
    && Fits(MaxLine(h.rect), s)
    && Chain(UpperChain(h), s, MinLine(h.rect), MaxLine(h.rect))
    && Chain(LowerChain(h), FlipBounds(s), FlipLine(MaxLine(h.rect)), FlipLine(MinLine(h.rect)))
  }

  /** What add_point does to the fields when it accepts b. */
  ghost predicate Accepts(h: Hulls, b: Bound, h': Hulls, eu: nat, tu: nat, el: nat, tl: nat)
    requires Cornered(h)
  {
    var f1, f2 := MinLine(h.rect), MaxLine(h.rect);
    var up, low := UpperChain(h), LowerChain(h);
    && Cornered(h')
    && eu <= |up| && el <= |low|
    && NextChain(up, Caps(f2, b), Top(b), eu, tu, UpperChain(h'))
    && NextChain(low, f1.At(b.x) < b.lo as real, Flip(Bottom(b)), el, tl, LowerChain(h'))
    && (if f1.At(b.x) < b.lo as real then
          && Popped(up, Top(b), eu)
          && Stopped(up[..eu], Bottom(b), tu)
          && h'.rect[0] == up[tu]
          && h'.rect[2] == Bottom(b)
        else
          h'.rect[0] == h.rect[0] && h'.rect[2] == h.rect[2])
    && (if b.hi as real < f2.At(b.x) then
          && Stopped(low, Flip(Top(b)), tl)
          && h'.rect[1] == h.lower[h.lowerStart + tl]
          && h'.rect[3] == Top(b)
        else
          h'.rect[1] == h.rect[1] && h'.rect[3] == h.rect[3])
  }

  lemma FlipWellformed(s: seq<Bound>)
    requires Wellformed(s)
    ensures Wellformed(FlipBounds(s))
  {
  }

  lemma LowerReady(h: Hulls, s: seq<Bound>, b: Bound)
    requires Exact(h, s) && Wellformed(s + [b])
    requires MinLine(h.rect).At(b.x) <= b.hi as real && b.lo as real <= MaxLine(h.rect).At(b.x)
    ensures Ready(LowerChain(h), FlipBounds(s), FlipLine(MaxLine(h.rect)), FlipLine(MinLine(h.rect)), FlipBound(b))
  {
    var f1, f2 := MinLine(h.rect), MaxLine(h.rect);
    FlipWellformed(s + [b]);
    FlipSnoc(s, b);
    FlipFits(f1, s);
    FlipFits(f2, s);
    FlipAt(f1, b.x);
    FlipAt(f2, b.x);
  }

  /** The lower diagonal after the step. */
  lemma MinLineStep(h: Hulls, s: seq<Bound>, b: Bound, h': Hulls, eu: nat, tu: nat, el: nat, tl: nat)
    requires Exact(h, s) && Wellformed(s + [b])
    requires MinLine(h.rect).At(b.x) <= b.hi as real && b.lo as real <= MaxLine(h.rect).At(b.x)
    requires Accepts(h, b, h', eu, tu, el, tl)
    ensures Fits(MinLine(h'.rect), s + [b])
    ensures forall x {:trigger MinLine(h'.rect).At(x)} :: b.x <= x ==> MinLine(h.rect).At(x) <= MinLine(h'.rect).At(x)
  {
    var f1, f2 := MinLine(h.rect), MaxLine(h.rect);
    SideFits(UpperChain(h), s, f1, f2, b, eu, tu, MinLine(h'.rect));
  }

  lemma CornerFlip(h: Hulls, s: seq<Bound>, b: Bound, h': Hulls, t: nat)
    requires Exact(h, s) && IncreasingX(FlipBounds(s) + [FlipBound(b)])
    requires Rectangle(h'.rect) && h.lowerStart + t < |h.lower|
    requires h'.rect[1] == h.lower[h.lowerStart + t] && h'.rect[3] == Top(b)
    ensures t < |LowerChain(h)| && LowerChain(h)[t].x < b.x
    ensures Through(LowerChain(h)[t], Bottom(FlipBound(b))) == FlipLine(MaxLine(h'.rect))
  {
    var low := LowerChain(h);
    assert low[t] == Flip(h'.rect[1]);
    ChainLeftOf(low, FlipBounds(s), FlipBound(b));
    FlipThrough(h'.rect[1], Top(b));
  }

  /** The upper diagonal after the step, as the mirror image of the lower one. */
  lemma MaxLineStep(h: Hulls, s: seq<Bound>, b: Bound, h': Hulls, t: nat)
    requires Exact(h, s) && Wellformed(s + [b])
    requires MinLine(h.rect).At(b.x) <= b.hi as real && b.lo as real <= MaxLine(h.rect).At(b.x)
    requires Rectangle(h'.rect)
    requires if b.hi as real < MaxLine(h.rect).At(b.x) then
               && Stopped(LowerChain(h), Flip(Top(b)), t)
               && h'.rect[1] == h.lower[h.lowerStart + t]
               && h'.rect[3] == Top(b)
             else
               MaxLine(h'.rect) == MaxLine(h.rect)
    ensures Fits(FlipLine(MaxLine(h'.rect)), FlipBounds(s) + [FlipBound(b)])
    ensures forall x {:trigger FlipLine(MaxLine(h'.rect)).At(x)} :: b.x <= x ==>
              FlipLine(MaxLine(h.rect)).At(x) <= FlipLine(MaxLine(h'.rect)).At(x)
  {
    var f1, f2 := FlipLine(MaxLine(h.rect)), FlipLine(MinLine(h.rect));
    var low, m, fb := LowerChain(h), FlipBounds(s), FlipBound(b);
    var g := FlipLine(MaxLine(h'.rect));
    LowerReady(h, s, b);
    FlipAt(MaxLine(h.rect), b.x);
    if f1.At(b.x) < fb.lo as real {
      CornerFlip(h, s, b, h', t);
    }
    assert low[..|low|] == low;
    SideFits(low, m, f1, f2, fb, |low|, t, g);
  }

  lemma BothNarrower(f1: Line, f2: Line, b: Bound, g1: Line, g2: Line)
    requires forall x {:trigger g1.At(x)} :: b.x <= x ==> f1.At(x) <= g1.At(x)
    requires forall x {:trigger FlipLine(g2).At(x)} :: b.x <= x ==> FlipLine(f2).At(x) <= FlipLine(g2).At(x)
    requires if b.hi as real < f2.At(b.x) then g2.At(b.x) == b.hi as real else g2 == f2
    requires if f1.At(b.x) < b.lo as real then g1.At(b.x) == b.lo as real else g1 == f1
    ensures Narrower(f1, f2, b, g1, g2)
    ensures Narrower(FlipLine(f2), FlipLine(f1), FlipBound(b), FlipLine(g2), FlipLine(g1))
  {
    forall x {:trigger g2.At(x)} | b.x <= x
      ensures g2.At(x) <= f2.At(x)
    {
      FlipAt(f2, x);
      FlipAt(g2, x);
      assert FlipLine(f2).At(x) <= FlipLine(g2).At(x);
    }
    forall x {:trigger FlipLine(g1).At(x)} | b.x <= x
      ensures FlipLine(g1).At(x) <= FlipLine(f1).At(x)
    {
      FlipAt(f1, x);
      FlipAt(g1, x);
      assert f1.At(x) <= g1.At(x);
    }
    FlipAt(f1, b.x);
    FlipAt(g1, b.x);
  }

  lemma DiagonalsNarrow(h: Hulls, s: seq<Bound>, b: Bound, h': Hulls, eu: nat, tu: nat, el: nat, tl: nat)
    requires Exact(h, s) && Wellformed(s + [b])
    requires MinLine(h.rect).At(b.x) <= b.hi as real && b.lo as real <= MaxLine(h.rect).At(b.x)
    requires Accepts(h, b, h', eu, tu, el, tl)
    ensures Fits(MinLine(h'.rect), s + [b]) && Fits(MaxLine(h'.rect), s + [b])
    ensures Fits(FlipLine(MaxLine(h'.rect)), FlipBounds(s) + [FlipBound(b)])
    ensures Narrower(MinLine(h.rect), MaxLine(h.rect), b, MinLine(h'.rect), MaxLine(h'.rect))
    ensures Narrower(FlipLine(MaxLine(h.rect)), FlipLine(MinLine(h.rect)), FlipBound(b),
                     FlipLine(MaxLine(h'.rect)), FlipLine(MinLine(h'.rect)))
  {
    MinLineStep(h, s, b, h', eu, tu, el, tl);
    MaxLineStep(h, s, b, h', tl);
    FlipSnoc(s, b);
    FlipFits(MaxLine(h'.rect), s + [b]);
    ThroughEnds(h'.rect[0], h'.rect[2]);
    ThroughEnds(h'.rect[1], h'.rect[3]);
    BothNarrower(MinLine(h.rect), MaxLine(h.rect), b, MinLine(h'.rect), MaxLine(h'.rect));
  }

  /** One accepted point keeps the state exact. */
  lemma StaysExact(h: Hulls, s: seq<Bound>, b: Bound, h': Hulls, eu: nat, tu: nat, el: nat, tl: nat)
    requires Exact(h, s) && Wellformed(s + [b])
    requires MinLine(h.rect).At(b.x) <= b.hi as real && b.lo as real <= MaxLine(h.rect).At(b.x)
    requires Accepts(h, b, h', eu, tu, el, tl)
    ensures Exact(h', s + [b])
  {
    hide Cross, Through, Dominates, Convex, Rising, OnTops, UnderHi, OverLo, Popped, Stopped;
    var f1, f2 := MinLine(h.rect), MaxLine(h.rect);
    var g1, g2 := MinLine(h'.rect), MaxLine(h'.rect);
    DiagonalsNarrow(h, s, b, h', eu, tu, el, tl);
    ThroughEnds(h'.rect[0], h'.rect[2]);
    ThroughEnds(h'.rect[1], h'.rect[3]);
    assert Chain(UpperChain(h'), s + [b], g1, g2) by {
      ChainStep(UpperChain(h), s, f1, f2, b, eu, tu, UpperChain(h'), g1, g2);
    }
    assert Chain(LowerChain(h'), FlipBounds(s + [b]), FlipLine(g2), FlipLine(g1)) by {
      LowerReady(h, s, b);
      FlipAt(g2, h'.rect[1].x);
      FlipAt(f1, b.x);
      FlipSnoc(s, b);
      ChainStep(LowerChain(h), FlipBounds(s), FlipLine(f2), FlipLine(f1), FlipBound(b), el, tl, LowerChain(h'),
                FlipLine(g2), FlipLine(g1));
    }
  }

  /** Two points: any two intervals admit a line, and the diagonals are the extreme ones. */
  lemma TwoPoints(a: Bound, b: Bound)
    requires Wellformed([a, b])
    ensures Exact(Hulls([Bottom(a), Bottom(b)], [Top(a), Top(b)], 0, 0, [Top(a), Bottom(a), Bottom(b), Top(b)]), [a, b])
  {
    var s := [a, b];
    var h := Hulls([Bottom(a), Bottom(b)], [Top(a), Top(b)], 0, 0, [Top(a), Bottom(a), Bottom(b), Top(b)]);
    assert s[0] == a && s[1] == b;
    ThroughEnds(Top(a), Bottom(b));
    ThroughEnds(Bottom(a), Top(b));
    var f1, f2 := MinLine(h.rect), MaxLine(h.rect);
    FlipFits(f1, s);
    FlipFits(f2, s);
    FlipWellformed(s);
    TwoPointChain(s, f1, f2);
    var m := FlipBounds(s);
    FlipAt(f1, a.x);
    FlipAt(f1, b.x);
    FlipAt(f2, a.x);
    FlipAt(f2, b.x);
    TwoPointChain(m, FlipLine(f2), FlipLine(f1));
    assert UpperChain(h) == [Top(s[0]), Top(s[1])];
    assert LowerChain(h) == [Top(m[0]), Top(m[1])];
  }

  lemma TwoPointChain(s: seq<Bound>, f1: Line, f2: Line)
    requires |s| == 2 && Wellformed(s)
    requires f1.At(s[0].x) == s[0].hi as real && f2.At(s[1].x) == s[1].hi as real
    ensures Chain([Top(s[0]), Top(s[1])], s, f1, f2)
  {
    var c := [Top(s[0]), Top(s[1])];
    forall f: Line, x: int | s[1].x < x && f1.At(x) < f.At(x) <= f2.At(x) && Below(f, c)
      ensures UnderHi(f, s)
    {
      assert f.At(c[0].x) <= c[0].y as real && f.At(c[1].x) <= c[1].y as real;
    }
    assert c[0] == Top(s[0]) && c[1] == Top(s[1]);
  }

  // ----- what exactness gives -----

  lemma ExactIsFeasible(h: Hulls, s: seq<Bound>)
    requires Exact(h, s)
    ensures Feasible(s)
  {
    hide Chain, Through;
    assert Fits(MinLine(h.rect), s);
  }

  /** A point outside either diagonal ends the segment: no line fits. */
  lemma Outside(h: Hulls, s: seq<Bound>, b: Bound)
    requires Exact(h, s) && Wellformed(s + [b])
    requires b.hi as real < MinLine(h.rect).At(b.x) || MaxLine(h.rect).At(b.x) < b.lo as real
    ensures !Feasible(s + [b])
  {
    var f1, f2 := MinLine(h.rect), MaxLine(h.rect);
    var s' := s + [b];
    forall f: Line
      ensures !Fits(f, s')
    {
      if Fits(f, s') {
        assert s'[|s|] == b;
        CornersAreBounds(h, s);
        ThroughEnds(h.rect[0], h.rect[2]);
        ThroughEnds(h.rect[1], h.rect[3]);
        var k0 :| 0 <= k0 < |s| && h.rect[0] == Top(s[k0]);
        var k1 :| 0 <= k1 < |s| && h.rect[1] == Bottom(s[k1]);
        var k2 :| 0 <= k2 < |s| && h.rect[2] == Bottom(s[k2]);
        var k3 :| 0 <= k3 < |s| && h.rect[3] == Top(s[k3]);
        assert s'[k0] == s[k0] && s'[k1] == s[k1] && s'[k2] == s[k2] && s'[k3] == s[k3];
        FurtherRight(f1, f, s[k0].x, s[k2].x, b.x);
        FurtherRight(f, f2, s[k1].x, s[k3].x, b.x);
        assert false;
      }
    }
  }

  lemma CornersAreBounds(h: Hulls, s: seq<Bound>)
    requires Exact(h, s)
    ensures exists k :: 0 <= k < |s| && h.rect[0] == Top(s[k])
    ensures exists k :: 0 <= k < |s| && h.rect[1] == Bottom(s[k])
    ensures exists k :: 0 <= k < |s| && h.rect[2] == Bottom(s[k])
    ensures exists k :: 0 <= k < |s| && h.rect[3] == Top(s[k])
  {
    var up, low, m := UpperChain(h), LowerChain(h), FlipBounds(s);
    assert up[0] == h.rect[0] && up[|up| - 1] == h.rect[3];
    assert low[0] == Flip(h.rect[1]) && low[|low| - 1] == Flip(h.rect[2]);
    assert IsTop(up[0], s) && IsTop(up[|up| - 1], s) && IsTop(low[0], m) && IsTop(low[|low| - 1], m);
    var k1 :| 0 <= k1 < |m| && low[0] == Top(m[k1]);
    var k2 :| 0 <= k2 < |m| && low[|low| - 1] == Top(m[k2]);
    assert h.rect[1] == Bottom(s[k1]) && h.rect[2] == Bottom(s[k2]);
  }
}

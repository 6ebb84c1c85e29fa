/** Integer points and slopes, and the real lines the slope comparisons stand for. */
module PgmGeometry {

  datatype Slope = Slope(dx: int, dy: int) {
    predicate Less(p: Slope) {
      dy * p.dx < dx * p.dy
    }

    predicate Greater(p: Slope) {
      dy * p.dx > dx * p.dy
    }
  }

  datatype Point = Point(x: int, y: int) {
    function Minus(p: Point): Slope {
      Slope(x - p.x, y - p.y)
    }
  }

  function Cross(o: Point, a: Point, b: Point): int {
    var oa := a.Minus(o);
    var ob := b.Minus(o);
    oa.dx * ob.dy - oa.dy * ob.dx
  }

  /** A real line y = slope * x + icpt. */
  datatype Line = Line(slope: real, icpt: real) {
    function At(x: int): real {
      slope * (x as real) + icpt
    }
  }

  /** The line through two points with different abscissas. */
  function Through(a: Point, b: Point): Line
    requires a.x < b.x
  {
    var s := (b.y - a.y) as real / (b.x - a.x) as real;
    Line(s, a.y as real - s * (a.x as real))
  }

  /** Below, on or above a line is a comparison of integer products. */
  lemma CompareToLine(a: Point, b: Point, p: Point)
    requires a.x < b.x
    ensures p.y as real < Through(a, b).At(p.x) <==> Cross(a, b, p) < 0
    ensures p.y as real == Through(a, b).At(p.x) <==> Cross(a, b, p) == 0
  {
  }

  lemma ThroughEnds(a: Point, b: Point)
    requires a.x < b.x
    ensures Through(a, b).At(a.x) == a.y as real
    ensures Through(a, b).At(b.x) == b.y as real
  {
  }

  /** Two lines ordered at both ends of a span are ordered inside it. */
  lemma Between(f: Line, g: Line, x1: int, x: int, x2: int)
    requires x1 <= x <= x2
    requires f.At(x1) <= g.At(x1) && f.At(x2) <= g.At(x2)
    ensures f.At(x) <= g.At(x)
  {
    var s := f.slope - g.slope;
    assert f.At(x) - g.At(x) == f.At(x1) - g.At(x1) + s * ((x - x1) as real);
    assert f.At(x) - g.At(x) == f.At(x2) - g.At(x2) - s * ((x2 - x) as real);
    if s >= 0.0 {
      assert s * ((x2 - x) as real) >= 0.0;
    } else {
      assert s * ((x - x1) as real) <= 0.0;
    }
  }

  /** A line that goes from below another to above it was below it further left. */
  lemma FurtherLeft(f: Line, g: Line, x: int, x1: int, x2: int)
    requires x <= x1 < x2
    requires f.At(x1) <= g.At(x1) && f.At(x2) >= g.At(x2)
    ensures f.At(x) <= g.At(x)
    ensures f.slope >= g.slope
  {
  }

  /** A line that goes from above another to below it stays below it further right. */
  lemma FurtherRight(f: Line, g: Line, x1: int, x2: int, x: int)
    requires x1 < x2 <= x
    requires f.At(x1) >= g.At(x1) && f.At(x2) <= g.At(x2)
    ensures f.At(x) <= g.At(x)
    ensures f.At(x2) < g.At(x2) ==> f.At(x) < g.At(x)
  {
  }
}

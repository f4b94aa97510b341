/**
 * Segment geometry of levels/line.go: a `Line` is the segment From -> To.
 * Intersection solves for the two segment parameters t and u;
 * point-on-segment uses a widened bounding box and a cross product.
 */
module Lines {

  import opened RealFacts
  import opened GoMath
  import opened Types

  /** The tolerance of ContainsPoint. */
  const Eps: real := 0.0001

  /** Go's built-in `min` on two floats. */
  function Min(a: real, b: real): (r: real)
    ensures r <= a && r <= b && (r == a || r == b)
  {
    if a <= b then a else b
  }

  /** Go's built-in `max` on two floats. */
  function Max(a: real, b: real): (r: real)
    ensures a <= r && b <= r && (r == a || r == b)
  {
    if a >= b then a else b
  }

  datatype Line = Line(From: Point, To: Point)
  {
    /** The direction From -> To, not normalised. */
    function Direction(): Vector {
      Vector(To.X - From.X, To.Y - From.Y)
    }

    function Length(m: Math): real {
      m.Sqrt(Sq(To.X - From.X) + Sq(To.Y - From.Y))
    }

    /** The unit direction, or (0,0) for a segment of length 0. */
    function Normalized(m: Math): Vector {
      var length := Length(m);
      if length == 0.0 then Vector(0.0, 0.0)
      else Vector((To.X - From.X) / length, (To.Y - From.Y) / length)
    }

    function Dot(v: Vector): real {
      Direction().Dot(v)
    }

    /** The direction turned by 90 degrees, (dy, -dx), then normalised. */
    function Normal(m: Math): Vector {
      Vector(To.Y - From.Y, From.X - To.X).Normalize(m)
    }

    /** The point at parameter s along the segment: From + s*(To - From). */
    function At(s: real): Point {
      Point(From.X + s * (To.X - From.X), From.Y + s * (To.Y - From.Y))
    }

    /** The cross product of the two directions; 0 exactly when they are parallel. */
    function Denom(other: Line): real {
      (To.X - From.X) * (other.To.Y - other.From.Y) - (To.Y - From.Y) * (other.To.X - other.From.X)
    }

    /** The parameter along this segment of the crossing point of the two carrier lines. */
    function ParamT(other: Line): real
      requires Denom(other) != 0.0
    {
      var dx3, dy3 := other.From.X - From.X, other.From.Y - From.Y;
      (dx3 * (other.To.Y - other.From.Y) - dy3 * (other.To.X - other.From.X)) / Denom(other)
    }

    /** The parameter along `other` of the crossing point of the two carrier lines. */
    function ParamU(other: Line): real
      requires Denom(other) != 0.0
    {
      var dx3, dy3 := other.From.X - From.X, other.From.Y - From.Y;
      (dx3 * (To.Y - From.Y) - dy3 * (To.X - From.X)) / Denom(other)
    }

    /**
     * The crossing point of the two segments and true, or the zero point and
     * false when they are parallel or cross only on their extensions.
     */
    function Intersect(other: Line): (Point, bool) {
      if Denom(other) == 0.0 then (Point(0.0, 0.0), false)
      else
        var t, u := ParamT(other), ParamU(other);
        if t < 0.0 || t > 1.0 || u < 0.0 || u > 1.0 then (Point(0.0, 0.0), false)
        else (Point(From.X + t * (To.X - From.X), From.Y + t * (To.Y - From.Y)), true)
    }

    /** p lies in the bounding box of the segment widened by Eps on every side. */
    predicate InWidenedBox(p: Point) {
      !(p.X < Min(From.X, To.X) - Eps || p.X > Max(From.X, To.X) + Eps
        || p.Y < Min(From.Y, To.Y) - Eps || p.Y > Max(From.Y, To.Y) + Eps)
    }

    /** (To - From) x (p - From): zero exactly when p is on the carrier line. */
    function Cross(p: Point): real {
      (To.X - From.X) * (p.Y - From.Y) - (To.Y - From.Y) * (p.X - From.X)
    }

    function ContainsPoint(p: Point): bool {
      if !InWidenedBox(p) then false
      else
        var cross := Cross(p);
        cross > -Eps && cross < Eps
    }
  }

  /** Parallel segments (zero cross product of the directions) never intersect. */
  lemma IntersectParallel(l: Line, other: Line)
    requires l.Denom(other) == 0.0
    ensures l.Intersect(other) == (Point(0.0, 0.0), false)
  {}

  /** The arithmetic of IntersectSound: the parameters t and u of Cramer's rule solve t*d1 - u*d2 == d3. */
  lemma CramerSolves(dx1: real, dy1: real, dx2: real, dy2: real, dx3: real, dy3: real, t: real, u: real)
    requires dx1 * dy2 - dy1 * dx2 != 0.0
    requires t == (dx3 * dy2 - dy3 * dx2) / (dx1 * dy2 - dy1 * dx2)
    requires u == (dx3 * dy1 - dy3 * dx1) / (dx1 * dy2 - dy1 * dx2)
    ensures t * dx1 - u * dx2 == dx3 && t * dy1 - u * dy2 == dy3
  {
    var d := dx1 * dy2 - dy1 * dx2;
    var tn, un := dx3 * dy2 - dy3 * dx2, dx3 * dy1 - dy3 * dx1;
    assert t * d == tn;
    assert u * d == un;
    calc {
      (t * dx1 - u * dx2) * d;
      (t * d) * dx1 - (u * d) * dx2;
      tn * dx1 - un * dx2;
      dx3 * d;
    }
    CancelFactor(t * dx1 - u * dx2, dx3, d);
    calc {
      (t * dy1 - u * dy2) * d;
      (t * d) * dy1 - (u * d) * dy2;
      tn * dy1 - un * dy2;
      dy3 * d;
    }
    CancelFactor(t * dy1 - u * dy2, dy3, d);
  }

  /** The arithmetic of IntersectComplete: a solution of s*d1 - v*d2 == d3 is the one Cramer's rule gives. */
  lemma CramerUnique(dx1: real, dy1: real, dx2: real, dy2: real, dx3: real, dy3: real, s: real, v: real)
    requires dx1 * dy2 - dy1 * dx2 != 0.0
    requires s * dx1 - v * dx2 == dx3 && s * dy1 - v * dy2 == dy3
    ensures s == (dx3 * dy2 - dy3 * dx2) / (dx1 * dy2 - dy1 * dx2)
    ensures v == (dx3 * dy1 - dy3 * dx1) / (dx1 * dy2 - dy1 * dx2)
  {
    var d := dx1 * dy2 - dy1 * dx2;
    calc {
      dx3 * dy2 - dy3 * dx2;
      (s * dx1 - v * dx2) * dy2 - (s * dy1 - v * dy2) * dx2;
      s * d;
    }
    calc {
      dx3 * dy1 - dy3 * dx1;
      (s * dx1 - v * dx2) * dy1 - (s * dy1 - v * dy2) * dx1;
      v * d;
    }
  }

  lemma CancelFactor(a: real, b: real, c: real)
    requires c != 0.0 && a * c == b * c
    ensures a == b
  {
    assert (a - b) * c == 0.0;
    ZeroProduct(a - b, c);
  }

  /**
   * A reported intersection lies on both segments: it is At(t) on this one
   * and At(u) on the other, with t and u in [0,1].
   */
  lemma IntersectSound(l: Line, other: Line)
    requires l.Intersect(other).1
    ensures l.Denom(other) != 0.0
    ensures 0.0 <= l.ParamT(other) <= 1.0 && 0.0 <= l.ParamU(other) <= 1.0
    ensures l.Intersect(other).0 == l.At(l.ParamT(other)) == other.At(l.ParamU(other))
  {
    var t, u := l.ParamT(other), l.ParamU(other);
    CramerSolves(l.To.X - l.From.X, l.To.Y - l.From.Y,
                 other.To.X - other.From.X, other.To.Y - other.From.Y,
                 other.From.X - l.From.X, other.From.Y - l.From.Y, t, u);
  }

  /**
   * Conversely, when the segments are not parallel and share a point At(s) ==
   * other.At(v) with s and v in [0,1], Intersect reports exactly that point.
   */
  lemma IntersectComplete(l: Line, other: Line, s: real, v: real)
    requires l.Denom(other) != 0.0
    requires 0.0 <= s <= 1.0 && 0.0 <= v <= 1.0
    requires l.At(s) == other.At(v)
    ensures l.Intersect(other) == (l.At(s), true)
  {
    var dx1, dy1 := l.To.X - l.From.X, l.To.Y - l.From.Y;
    var dx2, dy2 := other.To.X - other.From.X, other.To.Y - other.From.Y;
    assert l.At(s).X == other.At(v).X && l.At(s).Y == other.At(v).Y;
    assert s * dx1 - v * dx2 == other.From.X - l.From.X;
    assert s * dy1 - v * dy2 == other.From.Y - l.From.Y;
    CramerUnique(dx1, dy1, dx2, dy2, other.From.X - l.From.X, other.From.Y - l.From.Y, s, v);
    assert l.ParamT(other) == s && l.ParamU(other) == v;
    assert !(s < 0.0 || s > 1.0 || v < 0.0 || v > 1.0);
    var r := l.Intersect(other);
    assert r.1;
    assert r.0.X == l.From.X + s * dx1;
    assert r.0.Y == l.From.Y + s * dy1;
    assert r.0 == l.At(s);
  }

  /** The cases of the repository's Intersect table, checked on exact reals. */
  lemma IntersectExamples()
    ensures Line(Point(-1.0, 0.0), Point(1.0, 0.0)).Intersect(Line(Point(0.0, -1.0), Point(0.0, 1.0))) == (Point(0.0, 0.0), true)
    ensures Line(Point(0.0, 5.0), Point(10.0, 5.0)).Intersect(Line(Point(5.0, 0.0), Point(5.0, 10.0))) == (Point(5.0, 5.0), true)
    ensures Line(Point(0.0, 0.0), Point(10.0, 10.0)).Intersect(Line(Point(0.0, 10.0), Point(10.0, 0.0))) == (Point(5.0, 5.0), true)
    ensures !Line(Point(0.0, 0.0), Point(10.0, 0.0)).Intersect(Line(Point(0.0, 5.0), Point(10.0, 5.0))).1
    ensures !Line(Point(0.0, 0.0), Point(0.0, 10.0)).Intersect(Line(Point(5.0, 0.0), Point(5.0, 10.0))).1
    ensures !Line(Point(0.0, 0.0), Point(5.0, 0.0)).Intersect(Line(Point(10.0, 0.0), Point(10.0, 10.0))).1
    ensures !Line(Point(0.0, 0.0), Point(2.0, 2.0)).Intersect(Line(Point(5.0, 0.0), Point(5.0, 3.0))).1
    ensures Line(Point(0.0, 5.0), Point(10.0, 5.0)).Intersect(Line(Point(5.0, 5.0), Point(5.0, 10.0))) == (Point(5.0, 5.0), true)
    ensures Line(Point(0.0, 0.0), Point(100.0, 0.0)).Intersect(Line(Point(50.0, -10.0), Point(50.0, 10.0))) == (Point(50.0, 0.0), true)
  {}

  /** a + s*(b - a) lies between a and b for s in [0,1]. */
  lemma BetweenEndpoints(a: real, b: real, s: real)
    requires 0.0 <= s <= 1.0
    ensures Min(a, b) <= a + s * (b - a) <= Max(a, b)
  {
    if a <= b {
      ProductNonneg(s, b - a);
      ProductNonneg(1.0 - s, b - a);
    } else {
      ProductNonneg(s, a - b);
      ProductNonneg(1.0 - s, a - b);
    }
  }

  /** Every point of the segment, both endpoints included, is contained in it. */
  lemma ContainsSegmentPoints(l: Line, s: real)
    requires 0.0 <= s <= 1.0
    ensures l.ContainsPoint(l.At(s))
  {
    BetweenEndpoints(l.From.X, l.To.X, s);
    BetweenEndpoints(l.From.Y, l.To.Y, s);
    var dx, dy := l.To.X - l.From.X, l.To.Y - l.From.Y;
    assert l.Cross(l.At(s)) == dx * (s * dy) - dy * (s * dx) == 0.0;
  }

  /** Both endpoints are contained in the segment. */
  lemma ContainsEndpoints(l: Line)
    ensures l.ContainsPoint(l.From) && l.ContainsPoint(l.To)
  {
    ContainsSegmentPoints(l, 0.0);
    ContainsSegmentPoints(l, 1.0);
    assert l.At(0.0) == l.From;
    assert l.At(1.0) == l.To;
  }

  /** A contained point is inside the widened box and within Eps of the carrier line in cross product. */
  lemma ContainsPointBounds(l: Line, p: Point)
    ensures l.ContainsPoint(p) ==> l.InWidenedBox(p) && -Eps < l.Cross(p) < Eps
    ensures p.X < Min(l.From.X, l.To.X) - Eps ==> !l.ContainsPoint(p)
    ensures p.X > Max(l.From.X, l.To.X) + Eps ==> !l.ContainsPoint(p)
    ensures p.Y < Min(l.From.Y, l.To.Y) - Eps ==> !l.ContainsPoint(p)
    ensures p.Y > Max(l.From.Y, l.To.Y) + Eps ==> !l.ContainsPoint(p)
  {}

  /** The cases of the repository's ContainsPoint table, checked on exact reals. */
  lemma ContainsPointExamples()
    ensures Line(Point(0.0, 0.0), Point(10.0, 0.0)).ContainsPoint(Point(5.0, 0.0))
    ensures Line(Point(0.0, 0.0), Point(0.0, 10.0)).ContainsPoint(Point(0.0, 5.0))
    ensures Line(Point(0.0, 0.0), Point(10.0, 10.0)).ContainsPoint(Point(5.0, 5.0))
    ensures !Line(Point(0.0, 0.0), Point(10.0, 0.0)).ContainsPoint(Point(5.0, 1.0))
    ensures !Line(Point(0.0, 0.0), Point(10.0, 0.0)).ContainsPoint(Point(-1.0, 0.0))
    ensures !Line(Point(0.0, 0.0), Point(10.0, 0.0)).ContainsPoint(Point(11.0, 0.0))
    ensures !Line(Point(0.0, 0.0), Point(10.0, 10.0)).ContainsPoint(Point(15.0, 15.0))
    ensures !Line(Point(0.0, 0.0), Point(10.0, 10.0)).ContainsPoint(Point(5.0, 5.1))
  {}

  /**
   * Line.Dot depends only on the segment's direction: reversing the segment
   * negates it, moving both endpoints by the same offset keeps it, and it
   * is linear in v.
   */
  lemma LineDotDirection(l: Line, v: Vector, w: Vector, k: real, off: Point)
    ensures Line(l.To, l.From).Dot(v) == -l.Dot(v)
    ensures Line(l.From.Add(off), l.To.Add(off)).Dot(v) == l.Dot(v)
    ensures l.Dot(v.Add(w).Scale(k)) == k * (l.Dot(v) + l.Dot(w))
  {
    AddDot(v, w, l.Direction());
    ScaleDot(v.Add(w), k, l.Direction());
    DotSymmetric(v.Add(w).Scale(k), l.Direction());
    DotSymmetric(v.Add(w), l.Direction());
    DotSymmetric(v, l.Direction());
    DotSymmetric(w, l.Direction());
  }

  /** The normal is perpendicular to the segment's direction, whatever Sqrt returns. */
  lemma NormalPerpendicular(l: Line, m: Math)
    ensures l.Dot(l.Normal(m)) == 0.0
  {
    var dx, dy := l.To.X - l.From.X, l.To.Y - l.From.Y;
    var n := Vector(dy, -dx);
    var length := n.Length(m);
    if length != 0.0 {
      var k := 1.0 / length;
      assert l.Normal(m) == Vector(dy * k, -dx * k);
      assert dx * (dy * k) + dy * (-dx * k) == 0.0;
    }
  }

  /** A segment of nonzero length has a unit normal and a unit direction equal to Vector.Normalize of its direction. */
  lemma NormalAndNormalizedUnit(l: Line, m: Math)
    requires m.SqrtLaws() && l.From != l.To
    ensures l.Normalized(m) == l.Direction().Normalize(m)
    ensures IsUnit(l.Normal(m)) && IsUnit(l.Normalized(m))
  {
    var dx, dy := l.To.X - l.From.X, l.To.Y - l.From.Y;
    assert Vector(dy, -dx) != Vector(0.0, 0.0);
    NormalizeUnit(Vector(dy, -dx), m);
    NormalizeUnit(l.Direction(), m);
    var length := l.Length(m);
    assert length == l.Direction().Length(m);
    DivideByReciprocal(dx, length);
    DivideByReciprocal(dy, length);
    assert l.Direction().Normalize(m) == Vector(dx * (1.0 / length), dy * (1.0 / length));
    assert l.Normalized(m) == Vector(dx / length, dy / length);
  }

  /** Dividing by l is multiplying by 1/l. */
  lemma DivideByReciprocal(a: real, l: real)
    requires l != 0.0
    ensures a / l == a * (1.0 / l)
  {}

  /** A segment of length 0 has length 0, and its normal and direction fall back to (0,0). */
  lemma DegenerateLine(l: Line, m: Math)
    requires m.SqrtLaws() && l.From == l.To
    ensures l.Length(m) == 0.0
    ensures l.Normal(m) == Vector(0.0, 0.0) && l.Normalized(m) == Vector(0.0, 0.0)
  {
    SqrtZeroIff(m, 0.0);
    assert Sq(0.0) == 0.0;
    assert Sq(-0.0) == 0.0;
  }
}

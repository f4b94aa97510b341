/**
 * The two helpers of levels/math.go: `dot`, whose arguments interleave the
 * two vectors, and `normal`, which gives the unit normal of the edge p1 -> p2
 * together with a 50-unit line drawn from the edge's midpoint.
 */
module EdgeMath {

  import opened RealFacts
  import opened GoMath
  import opened Types
  import opened Lines

  /**
   * dot(x1, x2, y1, y2): the dot product of (x1, y1) and (x2, y2).  The
   * ensures only renames the body; its content is the argument order, which
   * interleaves the two vectors' components rather than listing one vector
   * and then the other.
   */
  function Dot(x1: real, x2: real, y1: real, y2: real): (r: real)
    ensures r == Vector(x1, y1).Dot(Vector(x2, y2))
  {
    x1 * x2 + y1 * y2
  }

  /** The edge p1 -> p2 turned by 90 degrees: (dy, -dx). */
  function Turned(p1: Point, p2: Point): Vector {
    Vector(p2.Y - p1.Y, -(p2.X - p1.X))
  }

  /** `normal` divides by the length of the turned edge; it is defined when that length is not 0. */
  predicate NormalDefined(p1: Point, p2: Point, m: Math) {
    Turned(p1, p2).Length(m) != 0.0
  }

  /** normal(p1, p2): the line from the edge midpoint 50 units along the normal, and the unit normal. */
  function Normal(p1: Point, p2: Point, m: Math): (Line, Vector)
    requires NormalDefined(p1, p2, m)
  {
    var midPoint := Point((p2.X + p1.X) / 2.0, (p2.Y + p1.Y) / 2.0);
    var dy, dx := p2.Y - p1.Y, p2.X - p1.X;
    var nx, ny := dy, -dx;
    var length := m.Sqrt(Sq(nx) + Sq(ny));
    var mag := 1.0 / length;
    var ux, uy := nx * mag, ny * mag;
    (Line(Point(midPoint.X, midPoint.Y), Point(ux * 50.0 + midPoint.X, uy * 50.0 + midPoint.Y)),
     Vector(ux, uy))
  }

  /** Under the square-root law, `normal` is defined exactly for two distinct points. */
  lemma NormalDefinedIff(p1: Point, p2: Point, m: Math)
    requires m.SqrtLaws()
    ensures NormalDefined(p1, p2, m) <==> p1 != p2
  {
    var t := Turned(p1, p2);
    SqNonneg(t.X);
    SqNonneg(t.Y);
    SqrtZeroIff(m, Sq(t.X) + Sq(t.Y));
    if p1 != p2 {
      SumOfSqPos(t.X, t.Y);
    } else {
      assert t == Vector(0.0, 0.0);
    }
  }

  /** The vector `normal` returns is the same as Line{p1, p2}.Normal(). */
  lemma NormalMatchesLineNormal(p1: Point, p2: Point, m: Math)
    requires NormalDefined(p1, p2, m)
    ensures Normal(p1, p2, m).1 == Line(p1, p2).Normal(m)
  {
    assert Vector(p2.Y - p1.Y, p1.X - p2.X) == Turned(p1, p2);
  }

  /** The normal is perpendicular to the edge p1 -> p2. */
  lemma NormalPerpendicular(p1: Point, p2: Point, m: Math)
    requires NormalDefined(p1, p2, m)
    ensures Normal(p1, p2, m).1.Dot(p2.Sub(p1).AsVector()) == 0.0
  {
    NormalMatchesLineNormal(p1, p2, m);
    Lines.NormalPerpendicular(Line(p1, p2), m);
  }

  /** Under the square-root law the normal of two distinct points has unit length. */
  lemma NormalUnit(p1: Point, p2: Point, m: Math)
    requires m.SqrtLaws() && p1 != p2
    ensures NormalDefined(p1, p2, m)
    ensures IsUnit(Normal(p1, p2, m).1)
  {
    NormalDefinedIff(p1, p2, m);
    NormalMatchesLineNormal(p1, p2, m);
    NormalAndNormalizedUnit(Line(p1, p2), m);
  }

  /** The line starts at the midpoint of the edge and ends 50 normals further on. */
  lemma NormalLine(p1: Point, p2: Point, m: Math)
    requires NormalDefined(p1, p2, m)
    ensures var (line, n) := Normal(p1, p2, m);
            line.From.Add(line.From) == p1.Add(p2)
            && line.To.Sub(line.From).AsVector() == n.Scale(50.0)
  {}
}

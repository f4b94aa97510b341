/**
 * The rotating rectangle of levels/cube.go.  Its position, size, rotation and
 * velocity are fields, and it caches its four corners in tl, tr, bl, br,
 * which RecalculateCorners and Update overwrite in place.
 */
module Cubes {

  import opened RealFacts
  import opened GoMath
  import opened Types
  import opened Lines
  import opened Rects

  class Cube {
    var X: real
    var Y: real
    var W: real
    var H: real
    var Rotation: real
    var Velocity: Vector
    var tl: Point
    var tr: Point
    var bl: Point
    var br: Point

    /** The cached corners as one value. */
    function Cached(): Corners
      reads this
    {
      Corners(tl, tr, bl, br)
    }

    /** The cached corners are what RecalculateCorners computes from the current fields. */
    ghost predicate CornersFresh(m: Math)
      reads this
    {
      Cached() == RotatedCorners(X, Y, W, H, m.Sin(Rotation), m.Cos(Rotation))
    }

    /** NewCube: a cube at (x, y) of size w x h, unrotated and at rest, with its corners computed. */
    constructor (x: real, y: real, w: real, h: real, m: Math)
      ensures X == x && Y == y && W == w && H == h
      ensures Rotation == 0.0 && Velocity == Vector(0.0, 0.0)
      ensures CornersFresh(m)
    {
      X, Y, W, H := x, y, w, h;
      Rotation := 0.0;
      Velocity := Vector(0.0, 0.0);
      new;
      RecalculateCorners(m);
    }

    /** Recomputes the four cached corners from position, size and rotation; nothing else changes. */
    method RecalculateCorners(m: Math)
      modifies this
      ensures CornersFresh(m)
      ensures X == old(X) && Y == old(Y) && W == old(W) && H == old(H)
      ensures Rotation == old(Rotation) && Velocity == old(Velocity)
    {
      var cx, cy := X + W / 2.0, Y + H / 2.0;
      var corners := [Point(-W / 2.0, -H / 2.0), Point(W / 2.0, -H / 2.0),
                      Point(-W / 2.0, H / 2.0), Point(W / 2.0, H / 2.0)];
      var sin, cos := m.Sin(Rotation), m.Cos(Rotation);
      tl := Rotate(cx, cy, sin, cos, corners[0]);
      tr := Rotate(cx, cy, sin, cos, corners[1]);
      bl := Rotate(cx, cy, sin, cos, corners[2]);
      br := Rotate(cx, cy, sin, cos, corners[3]);
    }

    /** Moves by one velocity step, ignoring delta, and recomputes the corners. */
    method Update(delta: real, m: Math)
      modifies this
      ensures X == old(X) + old(Velocity).X && Y == old(Y) + old(Velocity).Y
      ensures W == old(W) && H == old(H) && Rotation == old(Rotation) && Velocity == old(Velocity)
      ensures CornersFresh(m)
    {
      X := X + Velocity.X;
      Y := Y + Velocity.Y;
      RecalculateCorners(m);
    }

    /** The approximate distance from the centre to a corner, W/2 * sqrt 2. */
    function Radius(m: Math): real
      reads this
    {
      W / 2.0 * m.Sqrt(2.0)
    }

    function Center(): Point
      reads this
    {
      Point(X + W / 2.0, Y + H / 2.0)
    }

    /** The cached corners in drawing order tl, tr, br, bl (not the storage order tl, tr, bl, br). */
    function GetCorners(): seq<Vector>
      reads this
    {
      [tl.AsVector(), tr.AsVector(), br.AsVector(), bl.AsVector()]
    }

    /** The four edges, top, right, bottom, left, going round the rectangle. */
    function GetLines(): seq<Line>
      reads this
    {
      [Line(tl, tr), Line(tr, br), Line(br, bl), Line(bl, tl)]
    }

    /** The two edge directions (cos, sin) and (-sin, cos), the candidate separating axes. */
    function GetAxes(m: Math): seq<Vector>
      reads this
    {
      var sin, cos := m.Sin(Rotation), m.Cos(Rotation);
      [Vector(cos, sin), Vector(-sin, cos)]
    }
  }

  /** GetLines walks GetCorners in order and closes the loop: line k runs from corner k to corner k+1 (mod 4). */
  lemma LinesFollowCorners(c: Cube)
    ensures |c.GetLines()| == 4 && |c.GetCorners()| == 4
    ensures forall k :: 0 <= k < 4 ==>
              c.GetLines()[k].From.AsVector() == c.GetCorners()[k]
              && c.GetLines()[k].To.AsVector() == c.GetCorners()[(k + 1) % 4]
              && c.GetLines()[k].To == c.GetLines()[(k + 1) % 4].From
  {
    var lines, corners := c.GetLines(), c.GetCorners();
    forall k | 0 <= k < 4
      ensures lines[k].From.AsVector() == corners[k]
      ensures lines[k].To.AsVector() == corners[(k + 1) % 4]
      ensures lines[k].To == lines[(k + 1) % 4].From
    {
      if k == 3 {
        assert (k + 1) % 4 == 0;
      } else {
        assert (k + 1) % 4 == k + 1;
      }
    }
  }

  /** With fresh corners the centre is the midpoint of both diagonals. */
  lemma CenterIsMidpoint(c: Cube, m: Math)
    requires c.CornersFresh(m)
    ensures c.tl.Add(c.br) == c.Center().Scale(2.0)
    ensures c.tr.Add(c.bl) == c.Center().Scale(2.0)
  {
    CornersSymmetric(c.X, c.Y, c.W, c.H, m.Sin(c.Rotation), m.Cos(c.Rotation));
  }

  /** A freshly built cube has the axis-aligned corners of its rectangle. */
  lemma NewCubeCorners(c: Cube, m: Math)
    requires m.TrigLaws() && c.CornersFresh(m) && c.Rotation == 0.0
    ensures c.tl == Point(c.X, c.Y) && c.tr == Point(c.X + c.W, c.Y)
    ensures c.bl == Point(c.X, c.Y + c.H) && c.br == Point(c.X + c.W, c.Y + c.H)
  {
    CornersUnrotated(c.X, c.Y, c.W, c.H);
  }

  /** The two axes are perpendicular for every rotation, and unit vectors under Sin^2 + Cos^2 = 1. */
  lemma AxesPerpendicular(c: Cube, m: Math)
    ensures |c.GetAxes(m)| == 2
    ensures c.GetAxes(m)[0].Dot(c.GetAxes(m)[1]) == 0.0
    ensures m.TrigLaws() ==> IsUnit(c.GetAxes(m)[0]) && IsUnit(c.GetAxes(m)[1])
  {
    var s, co := m.Sin(c.Rotation), m.Cos(c.Rotation);
    if m.TrigLaws() {
      SinCosUnit(m, c.Rotation);
      assert Sq(-s) == Sq(s);
    }
  }

  /** With fresh corners, each edge of GetLines runs along an axis: top and bottom along the first, right and left along the second. */
  lemma EdgesAlongAxes(c: Cube, m: Math)
    requires c.CornersFresh(m)
    ensures var lines, axes := c.GetLines(), c.GetAxes(m);
            lines[0].Direction() == axes[0].Scale(c.W)
            && lines[1].Direction() == axes[1].Scale(c.H)
            && lines[2].Direction() == axes[0].Scale(-c.W)
            && lines[3].Direction() == axes[1].Scale(-c.H)
  {
    CornersEdges(c.X, c.Y, c.W, c.H, m.Sin(c.Rotation), m.Cos(c.Rotation));
  }

  /**
   * For a square cube with fresh corners, under the square-root and trigonometric
   * laws, every corner is exactly Radius away from the centre.
   */
  lemma RadiusReachesCorners(c: Cube, m: Math)
    requires m.SqrtLaws() && m.TrigLaws() && c.CornersFresh(m) && c.W == c.H
    ensures forall k :: 0 <= k < 4 ==>
              var d := c.GetCorners()[k].AsPoint().Sub(c.Center());
              Sq(d.X) + Sq(d.Y) == Sq(c.Radius(m))
  {
    var s, co := m.Sin(c.Rotation), m.Cos(c.Rotation);
    SinCosUnit(m, c.Rotation);
    var r, half, center := m.Sqrt(2.0), c.W / 2.0, c.Center();
    var w, h := c.W, c.H;
    forall k | 0 <= k < 4
      ensures var d := c.GetCorners()[k].AsPoint().Sub(center);
              Sq(d.X) + Sq(d.Y) == Sq(half * r)
    {
      var a := if k == 0 || k == 3 then -w / 2.0 else w / 2.0;
      var b := if k < 2 then -h / 2.0 else h / 2.0;
      assert c.GetCorners()[k].AsPoint() == Rotate(center.X, center.Y, s, co, Point(a, b));
      CornerAtRadius(center, s, co, a, b, half, r);
    }
  }

  /** One corner of RadiusReachesCorners: (+-half, +-half) rotated about the centre lies half*r away, when r^2 = 2. */
  lemma CornerAtRadius(center: Point, s: real, co: real, a: real, b: real, half: real, r: real)
    requires Sq(s) + Sq(co) == 1.0 && Sq(r) == 2.0
    requires (a == half || a == -half) && (b == half || b == -half)
    ensures var d := Rotate(center.X, center.Y, s, co, Point(a, b)).Sub(center);
            Sq(d.X) + Sq(d.Y) == Sq(half * r)
  {
    RotateKeepsDistance(center.X, center.Y, s, co, Point(a, b));
    assert Sq(a) == Sq(half) && Sq(b) == Sq(half);
    HalfDiagonal(half, r);
  }

  /** The arithmetic of RadiusReachesCorners: (h*r)^2 == 2*h^2 when r^2 == 2. */
  lemma HalfDiagonal(half: real, r: real)
    requires Sq(r) == 2.0
    ensures Sq(half * r) == Sq(half) + Sq(half)
  {
    calc {
      Sq(half * r);
      (half * half) * (r * r);
      Sq(half) * Sq(r);
    }
  }
}

/**
 * The rectangular arena of levels/boundary.go.  It keeps circles inside: the
 * wall test checks the four walls in the fixed order left, right, top,
 * bottom and reports the first wall the circle overlaps while moving toward
 * it.  Scale and RecalculateCorners update its fields in place.
 */
module Boundaries {

  import opened RealFacts
  import opened GoMath
  import opened Types
  import opened Lines
  import opened EdgeMath
  import opened Rects
  import opened Circles
  import opened Contacts

  /** A wall: the midpoint line and the unit normal that `normal` returns for one edge. */
  type Wall = (Line, Vector)

  /** The wall's normal points into the arena; this is the circle centre's signed distance from the wall's midpoint along it. */
  function WallDist(c: Circle, wall: Wall): real {
    Dot(wall.1.X, c.X - wall.0.From.X, wall.1.Y, c.Y - wall.0.From.Y)
  }

  /** The `movingToward` closure: the velocity has a negative component along the normal. */
  predicate MovingToward(c: Circle, norm: Vector) {
    Dot(c.Velocity.X, norm.X, c.Velocity.Y, norm.Y) < 0.0
  }

  /** The circle overlaps the wall and is moving toward it. */
  predicate WallQualifies(c: Circle, wall: Wall) {
    WallDist(c, wall) < c.Radius && MovingToward(c, wall.1)
  }

  /** The collision reported for a qualifying wall. */
  function WallCollision(c: Circle, wall: Wall): Collision {
    var dist := WallDist(c, wall);
    Collision(true, wall.1, c.Radius - dist, Vector(c.X - wall.1.X * dist, c.Y - wall.1.Y * dist))
  }

  class CubeBoundary {
    var X: real
    var Y: real
    var W: real
    var H: real
    var Rotation: real
    var StrokeWidth: real
    var tl: Point
    var tr: Point
    var bl: Point
    var br: Point

    function Cached(): Corners
      reads this
    {
      Corners(tl, tr, bl, br)
    }

    /** The cached corners are what RecalculateCorners computes from the current fields. */
    ghost predicate CornersFresh(m: Math)
      reads this
    {
      Cached() == RotatedCorners(X, Y, W, H, m.Sin(Rotation), m.Cos(Rotation))
    }

    /** NewCubeBoundary: an unrotated boundary at (x, y) of size w x h, with its corners computed. */
    constructor (x: real, y: real, w: real, h: real, strokeWidth: real, m: Math)
      ensures X == x && Y == y && W == w && H == h
      ensures Rotation == 0.0 && StrokeWidth == strokeWidth
      ensures CornersFresh(m)
    {
      X, Y, W, H := x, y, w, h;
      Rotation := 0.0;
      StrokeWidth := strokeWidth;
      new;
      RecalculateCorners(m);
    }

    /** Scales the size by `factor` about the centre and recomputes the corners. */
    method Scale(factor: real, m: Math)
      modifies this
      ensures X + W / 2.0 == old(X + W / 2.0) && Y + H / 2.0 == old(Y + H / 2.0)
      ensures W == old(W) * factor && H == old(H) * factor
      ensures Rotation == old(Rotation) && StrokeWidth == old(StrokeWidth)
      ensures CornersFresh(m)
    {
      var centerX, centerY := X + W / 2.0, Y + H / 2.0;
      var size := Size(W, H).Scale(factor);
      assert size.W == W * factor && size.H == H * factor;
      X := centerX - size.W / 2.0;
      Y := centerY - size.H / 2.0;
      W, H := size.W, size.H;
      assert X + W / 2.0 == centerX && Y + H / 2.0 == centerY;
      RecalculateCorners(m);
    }

    /** Recomputes the four cached corners from position, size and rotation; nothing else changes. */
    method RecalculateCorners(m: Math)
      modifies this
      ensures CornersFresh(m)
      ensures X == old(X) && Y == old(Y) && W == old(W) && H == old(H)
      ensures Rotation == old(Rotation) && StrokeWidth == old(StrokeWidth)
    {
      var cx, cy := X + W / 2.0, Y + H / 2.0;
      var corners := [Point(-W / 2.0, -H / 2.0), Point(W / 2.0, -H / 2.0),
                      Point(-W / 2.0, H / 2.0), Point(W / 2.0, H / 2.0)];
      var sin, cos := m.Sin(Rotation), m.Cos(Rotation);
      tl := Rotate(cx, cy, sin, cos, corners[0]);
      tr := Rotate(cx, cy, sin, cos, corners[1]);
      bl := Rotate(cx, cy, sin, cos, corners[2]);
      br := Rotate(cx, cy, sin, cos, corners[3]);
    }

    /** The four calls of `normal` in CheckCircleCollision divide by nonzero lengths. */
    predicate WallsDefined(m: Math)
      reads this
    {
      NormalDefined(tl, bl, m) && NormalDefined(bl, br, m)
      && NormalDefined(br, tr, m) && NormalDefined(tr, tl, m)
    }

    /** The walls in the order they are checked: left, right, top, bottom. */
    function Walls(m: Math): (walls: seq<Wall>)
      requires WallsDefined(m)
      reads this
      ensures |walls| == 4
    {
      [Normal(tl, bl, m), Normal(br, tr, m), Normal(tr, tl, m), Normal(bl, br, m)]
    }

    /** The first wall, in the order left, right, top, bottom, that the circle overlaps while moving toward it. */
    function CheckCircleCollision(c: Circle, m: Math): Collision
      requires WallsDefined(m)
      reads this
    {
      var walls := Walls(m);
      if WallQualifies(c, walls[0]) then WallCollision(c, walls[0])
      else if WallQualifies(c, walls[1]) then WallCollision(c, walls[1])
      else if WallQualifies(c, walls[2]) then WallCollision(c, walls[2])
      else if WallQualifies(c, walls[3]) then WallCollision(c, walls[3])
      else NoCollision
    }
  }

  /** clamp(value, min, max): value limited to [min, max]. */
  function Clamp(value: real, min: real, max: real): (r: real)
    ensures min <= max ==> min <= r <= max
    ensures min <= value <= max ==> r == value
    ensures r == value || r == min || r == max
  {
    if value < min then min
    else if value > max then max
    else value
  }

  /**
   * The wall test reports a hit exactly when some wall qualifies, and then
   * reports the first qualifying wall in the order left, right, top, bottom;
   * otherwise it returns the zero Collision.
   */
  lemma CheckCircleCollisionFirstWall(b: CubeBoundary, c: Circle, m: Math)
    requires b.WallsDefined(m)
    ensures var r, walls := b.CheckCircleCollision(c, m), b.Walls(m);
            (r.Hit <==> exists k :: 0 <= k < 4 && WallQualifies(c, walls[k]))
            && (!r.Hit ==> r == NoCollision)
            && (r.Hit ==> exists k :: 0 <= k < 4 && WallQualifies(c, walls[k])
                                    && (forall j :: 0 <= j < k ==> !WallQualifies(c, walls[j]))
                                    && r == WallCollision(c, walls[k]))
  {
    var r, walls := b.CheckCircleCollision(c, m), b.Walls(m);
    if WallQualifies(c, walls[0]) {
      assert r == WallCollision(c, walls[0]);
    } else if WallQualifies(c, walls[1]) {
      assert r == WallCollision(c, walls[1]);
    } else if WallQualifies(c, walls[2]) {
      assert r == WallCollision(c, walls[2]);
    } else if WallQualifies(c, walls[3]) {
      assert r == WallCollision(c, walls[3]);
    } else {
      assert forall k :: 0 <= k < 4 ==> !WallQualifies(c, walls[k]);
    }
  }

  /**
   * A reported wall collision has positive depth, and, when the wall's normal
   * has unit length, its contact point lies on the wall's carrier line and
   * the circle is Depth closer to the wall than touching it.
   */
  lemma WallCollisionContact(c: Circle, wall: Wall)
    requires WallQualifies(c, wall)
    ensures var r := WallCollision(c, wall);
            r.Hit && r.Normal == wall.1 && 0.0 < r.Depth && r.Depth == c.Radius - WallDist(c, wall)
            && (IsUnit(wall.1) ==>
                  r.Point.Sub(wall.0.From.AsVector()).Dot(wall.1) == 0.0
                  && r.Point.Add(wall.1.Scale(c.Radius)) == Vector(c.X, c.Y).Add(wall.1.Scale(r.Depth)))
  {
    var n, dist, f := wall.1, WallDist(c, wall), wall.0.From;
    if IsUnit(n) {
      ContactOnLine(Vector(c.X, c.Y), f.AsVector(), n, dist, c.Radius);
    }
  }

  /**
   * The vector algebra of WallCollisionContact, for a circle centre cv at
   * distance d along the unit normal n from the point f.
   */
  lemma ContactOnLine(cv: Vector, f: Vector, n: Vector, d: real, radius: real)
    requires IsUnit(n) && d == n.Dot(cv.Sub(f))
    ensures var p := Vector(cv.X - n.X * d, cv.Y - n.Y * d);
            p.Sub(f).Dot(n) == 0.0 && p.Add(n.Scale(radius)) == cv.Add(n.Scale(radius - d))
  {
    var p := Vector(cv.X - n.X * d, cv.Y - n.Y * d);
    assert p == cv.Sub(n.Scale(d));
    assert p.Sub(f) == cv.Sub(f).Sub(n.Scale(d));
    SubDot(cv.Sub(f), n.Scale(d), n);
    ScaleDot(n, d, n);
    DotSymmetric(n, cv.Sub(f));
    assert n.X * (radius - d) == n.X * radius - n.X * d;
    assert n.Y * (radius - d) == n.Y * radius - n.Y * d;
  }

  /**
   * For an unrotated boundary with positive width and height, the walls are
   * its four sides with inward normals (1,0), (-1,0), (0,1), (0,-1), and each
   * wall distance is the centre's distance from that side.
   */
  lemma UnrotatedWalls(b: CubeBoundary, c: Circle, m: Math)
    requires m.SqrtLaws() && m.TrigLaws() && b.CornersFresh(m) && b.Rotation == 0.0
    requires 0.0 < b.W && 0.0 < b.H
    ensures b.WallsDefined(m)
    ensures var walls := b.Walls(m);
            walls[0].1 == Vector(1.0, 0.0) && WallDist(c, walls[0]) == c.X - b.X
            && walls[1].1 == Vector(-1.0, 0.0) && WallDist(c, walls[1]) == b.X + b.W - c.X
            && walls[2].1 == Vector(0.0, 1.0) && WallDist(c, walls[2]) == c.Y - b.Y
            && walls[3].1 == Vector(0.0, -1.0) && WallDist(c, walls[3]) == b.Y + b.H - c.Y
  {
    CornersUnrotated(b.X, b.Y, b.W, b.H);
    var x, y, w, h := b.X, b.Y, b.W, b.H;
    AxisNormal(m, Point(x, y), Point(x, y + h), h, true);
    AxisNormal(m, Point(x + w, y + h), Point(x + w, y), h, false);
    AxisNormal(m, Point(x + w, y), Point(x, y), w, false);
    AxisNormal(m, Point(x, y + h), Point(x + w, y + h), w, true);
  }

  /** The normal of an axis-parallel edge of length k > 0: (1,0)/(-1,0) for a vertical one, (0,1)/(0,-1) for a horizontal one. */
  lemma AxisNormal(m: Math, p1: Point, p2: Point, k: real, forward: bool)
    requires m.SqrtLaws() && 0.0 < k
    requires (p1.X == p2.X && p2.Y - p1.Y == (if forward then k else -k))
          || (p1.Y == p2.Y && p2.X - p1.X == (if forward then k else -k))
    ensures NormalDefined(p1, p2, m)
    ensures p1.X == p2.X ==> Normal(p1, p2, m).1 == Vector(if forward then 1.0 else -1.0, 0.0)
    ensures p1.Y == p2.Y ==> Normal(p1, p2, m).1 == Vector(0.0, if forward then -1.0 else 1.0)
  {
    var t := Turned(p1, p2);
    SqrtOfSquare(m, k);
    if p1.X == p2.X {
      assert Sq(t.Y) == 0.0;
      assert Sq(t.X) == Sq(k);
    } else {
      assert Sq(t.X) == 0.0;
      assert Sq(t.Y) == Sq(k);
    }
    assert t.Length(m) == k;
  }
}

/**
 * The corner computation that levels/cube.go and levels/boundary.go share
 * word for word: the four corners of a W x H rectangle whose top-left is at
 * (X, Y), rotated about its centre by an angle given by its sine and cosine.
 */
module Rects {

  import opened RealFacts
  import opened GoMath
  import opened Types

  /** The cached corners, in the storage order of both structs: tl, tr, bl, br. */
  datatype Corners = Corners(tl: Point, tr: Point, bl: Point, br: Point)

  /** The `rotate` closure: p, relative to the centre (cx, cy), turned by (sin, cos) and moved back. */
  function Rotate(cx: real, cy: real, sin: real, cos: real, p: Point): Point {
    Point(cx + p.X * cos - p.Y * sin, cy + p.X * sin + p.Y * cos)
  }

  /** What RecalculateCorners stores for a rectangle at (x, y) of size w x h. */
  function RotatedCorners(x: real, y: real, w: real, h: real, sin: real, cos: real): Corners {
    var cx, cy := x + w / 2.0, y + h / 2.0;
    Corners(Rotate(cx, cy, sin, cos, Point(-w / 2.0, -h / 2.0)),
            Rotate(cx, cy, sin, cos, Point(w / 2.0, -h / 2.0)),
            Rotate(cx, cy, sin, cos, Point(-w / 2.0, h / 2.0)),
            Rotate(cx, cy, sin, cos, Point(w / 2.0, h / 2.0)))
  }

  /** Under Sin^2 + Cos^2 = 1, rotation keeps a point's squared distance from the centre. */
  lemma RotateKeepsDistance(cx: real, cy: real, sin: real, cos: real, p: Point)
    requires Sq(sin) + Sq(cos) == 1.0
    ensures var q := Rotate(cx, cy, sin, cos, p);
            Sq(q.X - cx) + Sq(q.Y - cy) == Sq(p.X) + Sq(p.Y)
  {
    var q := Rotate(cx, cy, sin, cos, p);
    assert q.X - cx == p.X * cos - p.Y * sin && q.Y - cy == p.X * sin + p.Y * cos;
    RotationKeepsSq(p.X, p.Y, sin, cos);
  }

  /** The arithmetic of RotateKeepsDistance: rotating (a, b) keeps a^2 + b^2. */
  lemma RotationKeepsSq(a: real, b: real, s: real, co: real)
    requires Sq(s) + Sq(co) == 1.0
    ensures Sq(a * co - b * s) + Sq(a * s + b * co) == Sq(a) + Sq(b)
  {
    calc {
      Sq(a * co - b * s) + Sq(a * s + b * co);
      Sq(a) * (Sq(s) + Sq(co)) + Sq(b) * (Sq(s) + Sq(co));
    }
  }

  /** Opposite corners are symmetric about the centre, for any sine and cosine: tl + br == tr + bl == 2 * centre. */
  lemma CornersSymmetric(x: real, y: real, w: real, h: real, sin: real, cos: real)
    ensures var c := RotatedCorners(x, y, w, h, sin, cos);
            var twice := Point(2.0 * x + w, 2.0 * y + h);
            c.tl.Add(c.br) == twice && c.tr.Add(c.bl) == twice
  {}

  /** With sine 0 and cosine 1 the corners are the axis-aligned ones. */
  lemma CornersUnrotated(x: real, y: real, w: real, h: real)
    ensures RotatedCorners(x, y, w, h, 0.0, 1.0)
         == Corners(Point(x, y), Point(x + w, y), Point(x, y + h), Point(x + w, y + h))
  {}

  /**
   * The rectangle's edges follow the directions (cos, sin) and (-sin, cos):
   * the top edge is w of the first, the left edge h of the second, and the
   * bottom and right edges are parallel to them; for any sine and cosine.
   */
  lemma CornersEdges(x: real, y: real, w: real, h: real, sin: real, cos: real)
    ensures var c := RotatedCorners(x, y, w, h, sin, cos);
            c.tr.Sub(c.tl).AsVector() == Vector(cos, sin).Scale(w)
            && c.br.Sub(c.bl).AsVector() == Vector(cos, sin).Scale(w)
            && c.bl.Sub(c.tl).AsVector() == Vector(-sin, cos).Scale(h)
            && c.br.Sub(c.tr).AsVector() == Vector(-sin, cos).Scale(h)
  {}

  /** Under Sin^2 + Cos^2 = 1 the edges have squared lengths w^2 and h^2 and meet at right angles. */
  lemma CornersRectangle(x: real, y: real, w: real, h: real, angle: real, m: Math)
    requires m.TrigLaws()
    ensures var c := RotatedCorners(x, y, w, h, m.Sin(angle), m.Cos(angle));
            var top, left := c.tr.Sub(c.tl).AsVector(), c.bl.Sub(c.tl).AsVector();
            top.Dot(top) == Sq(w) && left.Dot(left) == Sq(h) && top.Dot(left) == 0.0
  {
    var s, co := m.Sin(angle), m.Cos(angle);
    assert Sq(s) + Sq(co) == 1.0;
    CornersEdges(x, y, w, h, s, co);
    ScaledUnitLength(co, s, w);
    ScaledUnitLength(-s, co, h);
    assert Sq(-s) == Sq(s);
  }

  /** The arithmetic of CornersRectangle. */
  lemma ScaledUnitLength(a: real, b: real, k: real)
    requires Sq(a) + Sq(b) == 1.0
    ensures (a * k) * (a * k) + (b * k) * (b * k) == Sq(k)
  {
    calc {
      (a * k) * (a * k) + (b * k) * (b * k);
      (Sq(a) + Sq(b)) * (k * k);
    }
  }
}

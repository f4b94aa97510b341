/**
 * The narrow phase of levels/collisions.go: the shape-pair dispatch, the
 * circle-circle test, the axis-aligned fast path and the Separating-Axis
 * test for two cubes, and the corner-versus-wall test for a cube in a
 * boundary.  The three loops (projectCorners, CubeVsCubeSAT and
 * CubeVsBoundary) are methods, each proved equal to a function that states
 * the work remaining from any point of the loop.
 */
module Collisions {

  import opened RealFacts
  import opened GoMath
  import opened Types
  import opened Lines
  import opened EdgeMath
  import opened Circles
  import opened Contacts
  import opened Cubes
  import opened Boundaries

  /** math.MaxFloat32, the starting value of the SAT minimum. */
  const MaxFloat32: real := 340282346638528859811704183484516925440.0

  /** The dynamic type of an object handed to CheckCollision. */
  datatype Body = CircleBody(circle: Circle) | CubeBody(cube: Cube) | BoundaryBody(boundary: CubeBoundary)
  {
    /** The heap objects the body refers to. */
    function Refs(): set<object> {
      match this
      case CircleBody(_) => {}
      case CubeBody(c) => {c}
      case BoundaryBody(b) => {b}
    }
  }

  // ---------------------------------------------------------------- circles

  function CircleVsCircle(a: Circle, b: Circle, m: Math): Collision {
    var delta := Vector(b.X - a.X, b.Y - a.Y);
    var dist := delta.Length(m);
    var minDist := a.Radius + b.Radius;
    if dist >= minDist then NoCollision
    else
      var normal := delta.Normalize(m);
      Collision(true, normal, minDist - dist,
                Vector(a.X + normal.X * a.Radius, a.Y + normal.Y * a.Radius))
  }

  /**
   * Under the square-root law two circles collide exactly when the sum of
   * their radii is positive and the squared distance of their centres is
   * below its square; otherwise the result is the zero Collision.
   */
  lemma CircleVsCircleHit(a: Circle, b: Circle, m: Math)
    requires m.SqrtLaws()
    ensures var dx, dy, minDist := b.X - a.X, b.Y - a.Y, a.Radius + b.Radius;
            CircleVsCircle(a, b, m).Hit <==> 0.0 < minDist && Sq(dx) + Sq(dy) < Sq(minDist)
    ensures !CircleVsCircle(a, b, m).Hit ==> CircleVsCircle(a, b, m) == NoCollision
  {
    var dx, dy, minDist := b.X - a.X, b.Y - a.Y, a.Radius + b.Radius;
    SqNonneg(dx);
    SqNonneg(dy);
    var x := Sq(dx) + Sq(dy);
    assert Vector(dx, dy).Length(m) == m.Sqrt(x);
    if 0.0 < minDist {
      SqrtLess(m, x, minDist);
    }
  }

  /**
   * On a hit the depth is positive.  When the centres differ the normal is
   * the unit vector from a's centre toward b's, and the contact point is on
   * a's rim along it; when they coincide the normal falls back to (0,0).
   */
  lemma CircleVsCircleContact(a: Circle, b: Circle, m: Math)
    requires m.SqrtLaws() && CircleVsCircle(a, b, m).Hit
    ensures var r, delta := CircleVsCircle(a, b, m), Vector(b.X - a.X, b.Y - a.Y);
            0.0 < r.Depth
            && r.Depth == a.Radius + b.Radius - delta.Length(m)
            && (a.Center() != b.Center() ==>
                  IsUnit(r.Normal) && r.Normal.Scale(delta.Length(m)) == delta
                  && r.Point == Vector(a.X, a.Y).Add(r.Normal.Scale(a.Radius)))
            && (a.Center() == b.Center() ==> r.Normal == Vector(0.0, 0.0))
  {
    var delta := Vector(b.X - a.X, b.Y - a.Y);
    if a.Center() != b.Center() {
      assert delta != Vector(0.0, 0.0);
      NormalizeUnit(delta, m);
    } else {
      assert delta == Vector(0.0, 0.0);
      SqrtZeroIff(m, 0.0);
      assert delta.Length(m) == 0.0;
    }
  }

  function CircleVsBoundary(c: Circle, r: CubeBoundary, m: Math): Collision
    requires r.WallsDefined(m)
    reads r
  {
    r.CheckCircleCollision(c, m)
  }

  /** Circle-versus-cube is a stub: it never reports a hit. */
  function CircleVsCube(c: Circle, cube: Cube): (r: Collision)
    ensures !r.Hit
  {
    NoCollision
  }

  // ---------------------------------------------------------------- floatMod

  /** Go's conversion int(a): truncation toward zero. */
  function Trunc(a: real): (n: int)
    ensures 0.0 <= a ==> 0 <= n && n as real <= a < n as real + 1.0
    ensures a < 0.0 ==> n <= 0 && n as real - 1.0 < a <= n as real
  {
    if a >= 0.0 then a.Floor else -((-a).Floor)
  }

  /** Go's integer division, which truncates toward zero (Dafny's `/` is Euclidean). */
  function GoQuo(x: int, y: int): int
    requires y != 0
  {
    if y > 0 then (if x >= 0 then x / y else -((-x) / y))
    else (if x >= 0 then -(x / -y) else (-x) / (-y))
  }

  /** floatMod(a, b): a minus the truncated quotient of int(a) by b, times b. */
  function FloatMod(a: real, b: int): real
    requires b != 0
  {
    a - (GoQuo(Trunc(a), b) as real) * (b as real)
  }

  /** A value strictly between -b and b is its own floatMod. */
  lemma FloatModSmall(a: real, b: int)
    requires 0 < b && -(b as real) < a < b as real
    ensures FloatMod(a, b) == a
  {
    var n := Trunc(a);
    assert -b < n < b;
    assert GoQuo(n, b) == 0;
  }

  /** For b > 0, floatMod keeps the sign of a and has magnitude below b. */
  lemma FloatModRange(a: real, b: int)
    requires 0 < b
    ensures 0.0 <= a ==> 0.0 <= FloatMod(a, b) < b as real
    ensures a < 0.0 ==> -(b as real) < FloatMod(a, b) <= 0.0
  {
    var n := Trunc(a);
    var q := GoQuo(n, b);
    var rem := n - q * b;
    CastProduct(q, b);
    assert FloatMod(a, b) == (a - n as real) + rem as real;
    if 0.0 <= a {
      assert q == n / b;
      assert 0 <= rem <= b - 1;
    } else {
      assert q == -((-n) / b);
      assert 0 <= -rem <= b - 1;
    }
  }

  /** Multiplying after the cast to real is multiplying before it. */
  lemma CastProduct(q: int, b: int)
    ensures (q as real) * (b as real) == (q * b) as real
  {}

  // ---------------------------------------------------------------- AABB

  /** The axis-aligned branch of CubeVsCube: overlap on X and on Y, pushed apart along the shorter axis. */
  function Aabb(a: Cube, b: Cube): Collision
    reads a, b
  {
    if a.X < b.X + b.W && a.X + a.W > b.X && a.Y < b.Y + b.H && a.Y + a.H > b.Y then
      var dx := Min(a.X + a.W - b.X, b.X + b.W - a.X);
      var dy := Min(a.Y + a.H - b.Y, b.Y + b.H - a.Y);
      if dx < dy then
        if a.X < b.X then Collision(true, Vector(-1.0, 0.0), dx, Vector(0.0, 0.0))
        else Collision(true, Vector(1.0, 0.0), dx, Vector(0.0, 0.0))
      else
        if a.Y < b.Y then Collision(true, Vector(0.0, -1.0), dy, Vector(0.0, 0.0))
        else Collision(true, Vector(0.0, 1.0), dy, Vector(0.0, 0.0))
    else NoCollision
  }

  /** p is strictly inside the unrotated rectangle of c. */
  ghost predicate Inside(c: Cube, p: Point)
    reads c
  {
    c.X < p.X < c.X + c.W && c.Y < p.Y < c.Y + c.H
  }

  /** For cubes of positive size, the AABB test hits exactly when some point is strictly inside both rectangles. */
  lemma AabbOverlap(a: Cube, b: Cube)
    requires 0.0 < a.W && 0.0 < a.H && 0.0 < b.W && 0.0 < b.H
    ensures Aabb(a, b).Hit <==> exists p: Point :: Inside(a, p) && Inside(b, p)
    ensures !Aabb(a, b).Hit ==> Aabb(a, b) == NoCollision
  {
    if Aabb(a, b).Hit {
      var x := (Max(a.X, b.X) + Min(a.X + a.W, b.X + b.W)) / 2.0;
      var y := (Max(a.Y, b.Y) + Min(a.Y + a.H, b.Y + b.H)) / 2.0;
      assert Inside(a, Point(x, y)) && Inside(b, Point(x, y));
    }
  }

  /**
   * On a hit the depth is positive and is the smallest of the four one-sided
   * penetrations.  The shorter axis wins, a tie goes to Y, and the normal is
   * the unit axis vector pointing from b toward a.
   */
  lemma AabbResponse(a: Cube, b: Cube)
    requires Aabb(a, b).Hit
    ensures var r := Aabb(a, b);
            var dx := Min(a.X + a.W - b.X, b.X + b.W - a.X);
            var dy := Min(a.Y + a.H - b.Y, b.Y + b.H - a.Y);
            0.0 < r.Depth && r.Depth == Min(dx, dy)
            && (dx < dy ==> r.Normal == Vector(if a.X < b.X then -1.0 else 1.0, 0.0))
            && (dy <= dx ==> r.Normal == Vector(0.0, if a.Y < b.Y then -1.0 else 1.0))
  {}

  // ---------------------------------------------------------------- projections

  /** The smallest of the first n projections onto axis, folded as projectCorners folds it. */
  function ProjMin(corners: seq<Vector>, axis: Vector, n: nat): real
    requires 1 <= n <= |corners|
  {
    if n == 1 then corners[0].Dot(axis)
    else
      var p, rest := corners[n - 1].Dot(axis), ProjMin(corners, axis, n - 1);
      if p < rest then p else rest
  }

  /** The largest of the first n projections onto axis, folded as projectCorners folds it. */
  function ProjMax(corners: seq<Vector>, axis: Vector, n: nat): real
    requires 1 <= n <= |corners|
  {
    if n == 1 then corners[0].Dot(axis)
    else
      var p, rest := corners[n - 1].Dot(axis), ProjMax(corners, axis, n - 1);
      if p > rest then p else rest
  }

  /** ProjMin and ProjMax bound every projection and are each attained by one. */
  lemma {:induction false} ProjBounds(corners: seq<Vector>, axis: Vector, n: nat)
    requires 1 <= n <= |corners|
    ensures forall i :: 0 <= i < n ==>
              ProjMin(corners, axis, n) <= corners[i].Dot(axis) <= ProjMax(corners, axis, n)
    ensures exists i :: 0 <= i < n && ProjMin(corners, axis, n) == corners[i].Dot(axis)
    ensures exists i :: 0 <= i < n && ProjMax(corners, axis, n) == corners[i].Dot(axis)
  {
    if n > 1 {
      ProjBounds(corners, axis, n - 1);
      var p := corners[n - 1].Dot(axis);
      if p >= ProjMin(corners, axis, n - 1) {
        var i :| 0 <= i < n - 1 && ProjMin(corners, axis, n - 1) == corners[i].Dot(axis);
        assert ProjMin(corners, axis, n) == corners[i].Dot(axis);
      }
      if p <= ProjMax(corners, axis, n - 1) {
        var i :| 0 <= i < n - 1 && ProjMax(corners, axis, n - 1) == corners[i].Dot(axis);
        assert ProjMax(corners, axis, n) == corners[i].Dot(axis);
      }
    }
  }

  /** projectCorners: the least and greatest projection of the four corners onto axis. */
  method ProjectCorners(corners: seq<Vector>, axis: Vector) returns (min: real, max: real)
    requires |corners| == 4
    ensures min == ProjMin(corners, axis, |corners|) && max == ProjMax(corners, axis, |corners|)
  {
    min := corners[0].Dot(axis);
    max := min;
    for i := 1 to 4
      invariant min == ProjMin(corners, axis, i) && max == ProjMax(corners, axis, i)
    {
      var p := corners[i].Dot(axis);
      if p < min {
        min := p;
      }
      if p > max {
        max := p;
      }
    }
  }

  // ---------------------------------------------------------------- SAT

  /** The projections of the two corner sets onto axis leave a gap. */
  predicate Separated(ca: seq<Vector>, cb: seq<Vector>, axis: Vector)
    requires |ca| == 4 && |cb| == 4
  {
    ProjMax(ca, axis, |ca|) < ProjMin(cb, axis, |cb|) || ProjMax(cb, axis, |cb|) < ProjMin(ca, axis, |ca|)
  }

  /** How far the two projections overlap on axis: the smaller of the two one-sided overlaps. */
  function Overlap(ca: seq<Vector>, cb: seq<Vector>, axis: Vector): real
    requires |ca| == 4 && |cb| == 4
  {
    Min(ProjMax(ca, axis, |ca|) - ProjMin(cb, axis, |cb|), ProjMax(cb, axis, |cb|) - ProjMin(ca, axis, |ca|))
  }

  /** The state of the SAT loop: whether no gap was found, and the minimum overlap and its axis so far. */
  datatype SatState = SatState(overlapping: bool, depth: real, axis: Vector)

  /** The SAT loop from axis k on, with running minimum minDepth at minAxis. */
  function SatScan(ca: seq<Vector>, cb: seq<Vector>, axes: seq<Vector>, k: nat, minDepth: real, minAxis: Vector): SatState
    requires |ca| == 4 && |cb| == 4 && k <= |axes|
    decreases |axes| - k
  {
    if k == |axes| then SatState(true, minDepth, minAxis)
    else if Separated(ca, cb, axes[k]) then SatState(false, minDepth, minAxis)
    else
      var overlap := Overlap(ca, cb, axes[k]);
      if overlap < minDepth then SatScan(ca, cb, axes, k + 1, overlap, axes[k])
      else SatScan(ca, cb, axes, k + 1, minDepth, minAxis)
  }

  /** The end of CubeVsCubeSAT: the axis of least overlap, turned to point along dir, with its depth. */
  function SatResponse(s: SatState, dir: Vector): Collision {
    if !s.overlapping then NoCollision
    else
      var normal := if s.axis.Dot(dir) < 0.0 then s.axis.Scale(-1.0) else s.axis;
      Collision(true, normal, s.depth, Vector(0.0, 0.0))
  }

  /** The result of CubeVsCubeSAT for the given corners, axes and top-left difference dir. */
  function SatCollision(ca: seq<Vector>, cb: seq<Vector>, axes: seq<Vector>, dir: Vector): Collision
    requires |ca| == 4 && |cb| == 4
  {
    SatResponse(SatScan(ca, cb, axes, 0, MaxFloat32, Vector(0.0, 0.0)), dir)
  }

  /** The four candidate axes: a's two, then b's two. */
  function SatAxes(a: Cube, b: Cube, m: Math): seq<Vector>
    reads a, b
  {
    [a.GetAxes(m)[0], a.GetAxes(m)[1], b.GetAxes(m)[0], b.GetAxes(m)[1]]
  }

  /** The SAT loop from axis k on finds no gap exactly when no remaining axis separates the projections. */
  lemma {:induction false} SatScanOverlapping(ca: seq<Vector>, cb: seq<Vector>, axes: seq<Vector>, k: nat, d0: real, a0: Vector)
    requires |ca| == 4 && |cb| == 4 && k <= |axes|
    decreases |axes| - k
    ensures SatScan(ca, cb, axes, k, d0, a0).overlapping
        <==> forall i :: k <= i < |axes| ==> !Separated(ca, cb, axes[i])
  {
    if k < |axes| {
      if Separated(ca, cb, axes[k]) {
      } else if Overlap(ca, cb, axes[k]) < d0 {
        SatScanOverlapping(ca, cb, axes, k + 1, Overlap(ca, cb, axes[k]), axes[k]);
      } else {
        SatScanOverlapping(ca, cb, axes, k + 1, d0, a0);
      }
    }
  }

  /** The depth the SAT loop ends with is at most the running minimum and every remaining overlap, and not negative when the running minimum is not. */
  lemma {:induction false} SatScanBound(ca: seq<Vector>, cb: seq<Vector>, axes: seq<Vector>, k: nat, d0: real, a0: Vector)
    requires |ca| == 4 && |cb| == 4 && k <= |axes|
    decreases |axes| - k
    ensures var s := SatScan(ca, cb, axes, k, d0, a0);
            s.overlapping ==>
              s.depth <= d0 && (0.0 <= d0 ==> 0.0 <= s.depth)
              && forall i :: k <= i < |axes| ==> s.depth <= Overlap(ca, cb, axes[i])
  {
    if k < |axes| && !Separated(ca, cb, axes[k]) {
      var overlap := Overlap(ca, cb, axes[k]);
      OverlapNonneg(ca, cb, axes[k]);
      if overlap < d0 {
        SatScanBound(ca, cb, axes, k + 1, overlap, axes[k]);
      } else {
        SatScanBound(ca, cb, axes, k + 1, d0, a0);
      }
    }
  }

  /**
   * Either no remaining overlap beat the running minimum, or the SAT loop
   * ends with the first remaining axis of least overlap, strictly below it.
   */
  lemma {:induction false} SatScanFirst(ca: seq<Vector>, cb: seq<Vector>, axes: seq<Vector>, k: nat, d0: real, a0: Vector)
    requires |ca| == 4 && |cb| == 4 && k <= |axes|
    decreases |axes| - k
    ensures var s := SatScan(ca, cb, axes, k, d0, a0);
            s.overlapping ==>
              (s.depth == d0 && s.axis == a0)
              || (s.depth < d0
                  && exists j :: k <= j < |axes| && s.depth == Overlap(ca, cb, axes[j]) && s.axis == axes[j]
                                 && forall i :: k <= i < j ==> s.depth < Overlap(ca, cb, axes[i]))
  {
    if k < |axes| && !Separated(ca, cb, axes[k]) {
      var overlap := Overlap(ca, cb, axes[k]);
      var s := SatScan(ca, cb, axes, k, d0, a0);
      if overlap < d0 {
        SatScanFirst(ca, cb, axes, k + 1, overlap, axes[k]);
        if s.overlapping && !(s.depth == overlap && s.axis == axes[k]) {
          var j :| k + 1 <= j < |axes| && s.depth == Overlap(ca, cb, axes[j]) && s.axis == axes[j]
                   && forall i :: k + 1 <= i < j ==> s.depth < Overlap(ca, cb, axes[i]);
          assert k <= j && forall i :: k <= i < j ==> s.depth < Overlap(ca, cb, axes[i]);
        }
      } else {
        SatScanFirst(ca, cb, axes, k + 1, d0, a0);
        if s.overlapping && !(s.depth == d0 && s.axis == a0) {
          var j :| k + 1 <= j < |axes| && s.depth == Overlap(ca, cb, axes[j]) && s.axis == axes[j]
                   && forall i :: k + 1 <= i < j ==> s.depth < Overlap(ca, cb, axes[i]);
          assert k <= j && forall i :: k <= i < j ==> s.depth < Overlap(ca, cb, axes[i]);
        }
      }
    }
  }

  /** Where no axis separates, every overlap is non-negative. */
  lemma OverlapNonneg(ca: seq<Vector>, cb: seq<Vector>, axis: Vector)
    requires |ca| == 4 && |cb| == 4 && !Separated(ca, cb, axis)
    ensures 0.0 <= Overlap(ca, cb, axis)
  {}

  /** The SAT test reports no hit, and the zero Collision, exactly when some axis separates the projections. */
  lemma SatSeparation(ca: seq<Vector>, cb: seq<Vector>, axes: seq<Vector>, dir: Vector)
    requires |ca| == 4 && |cb| == 4
    ensures var r := SatCollision(ca, cb, axes, dir);
            (r.Hit <==> forall i :: 0 <= i < |axes| ==> !Separated(ca, cb, axes[i]))
            && (!r.Hit ==> r == NoCollision)
  {
    SatScanOverlapping(ca, cb, axes, 0, MaxFloat32, Vector(0.0, 0.0));
  }

  /** On a hit the depth is non-negative, at most every overlap and at most MaxFloat32. */
  lemma SatDepth(ca: seq<Vector>, cb: seq<Vector>, axes: seq<Vector>, dir: Vector)
    requires |ca| == 4 && |cb| == 4 && SatCollision(ca, cb, axes, dir).Hit
    ensures var r := SatCollision(ca, cb, axes, dir);
            0.0 <= r.Depth <= MaxFloat32
            && forall i :: 0 <= i < |axes| ==> r.Depth <= Overlap(ca, cb, axes[i])
  {
    SatScanBound(ca, cb, axes, 0, MaxFloat32, Vector(0.0, 0.0));
  }

  /** On a hit the normal is the scan's axis or its negation, whichever points along dir. */
  lemma SatFacesDir(st: SatState, dir: Vector)
    requires SatResponse(st, dir).Hit
    ensures var r := SatResponse(st, dir);
            0.0 <= r.Normal.Dot(dir) && r.Depth == st.depth
            && (r.Normal == st.axis || r.Normal == st.axis.Scale(-1.0))
  {
    if st.axis.Dot(dir) < 0.0 {
      ScaleDot(st.axis, -1.0, dir);
    }
  }

  /**
   * On a hit, either no overlap fell below MaxFloat32 and the normal is
   * (0,0), or the depth is the overlap of the first axis of least overlap
   * and the normal is that axis or its negation.
   */
  lemma SatAxis(ca: seq<Vector>, cb: seq<Vector>, axes: seq<Vector>, dir: Vector)
    requires |ca| == 4 && |cb| == 4 && SatCollision(ca, cb, axes, dir).Hit
    ensures var r := SatCollision(ca, cb, axes, dir);
            (r.Depth == MaxFloat32 && r.Normal == Vector(0.0, 0.0))
            || exists j :: 0 <= j < |axes| && r.Depth == Overlap(ca, cb, axes[j])
                           && (r.Normal == axes[j] || r.Normal == axes[j].Scale(-1.0))
                           && forall i :: 0 <= i < j ==> r.Depth < Overlap(ca, cb, axes[i])
  {
    SatScanFirst(ca, cb, axes, 0, MaxFloat32, Vector(0.0, 0.0));
    var s := SatScan(ca, cb, axes, 0, MaxFloat32, Vector(0.0, 0.0));
    var r := SatCollision(ca, cb, axes, dir);
    if s.depth == MaxFloat32 && s.axis == Vector(0.0, 0.0) {
      assert r.Normal == Vector(0.0, 0.0);
    } else {
      var j :| 0 <= j < |axes| && s.depth == Overlap(ca, cb, axes[j]) && s.axis == axes[j]
               && forall i :: 0 <= i < j ==> s.depth < Overlap(ca, cb, axes[i]);
      assert r.Normal == axes[j] || r.Normal == axes[j].Scale(-1.0);
    }
  }

  /** CubeVsCubeSAT: the four axes are tried in order, stopping at the first gap, keeping the first smallest overlap. */
  method CubeVsCubeSAT(a: Cube, b: Cube, m: Math) returns (r: Collision)
    ensures r == SatCollision(a.GetCorners(), b.GetCorners(), SatAxes(a, b, m), Vector(b.X - a.X, b.Y - a.Y))
  {
    var cornersA, cornersB := a.GetCorners(), b.GetCorners();
    var axesA, axesB := a.GetAxes(m), b.GetAxes(m);
    var axes := [axesA[0], axesA[1], axesB[0], axesB[1]];
    var minDepth := MaxFloat32;
    var minAxis := Vector(0.0, 0.0);
    for k := 0 to 4
      invariant SatScan(cornersA, cornersB, axes, k, minDepth, minAxis)
             == SatScan(cornersA, cornersB, axes, 0, MaxFloat32, Vector(0.0, 0.0))
    {
      var axis := axes[k];
      var minA, maxA := ProjectCorners(cornersA, axis);
      var minB, maxB := ProjectCorners(cornersB, axis);
      if maxA < minB || maxB < minA {
        return NoCollision;
      }
      var overlap := Min(maxA - minB, maxB - minA);
      if overlap < minDepth {
        minDepth := overlap;
        minAxis := axis;
      }
    }
    var centerDiff := Vector(b.X - a.X, b.Y - a.Y);
    if minAxis.Dot(centerDiff) < 0.0 {
      minAxis := minAxis.Scale(-1.0);
    }
    return Collision(true, minAxis, minDepth, Vector(0.0, 0.0));
  }

  // ---------------------------------------------------------------- cube vs boundary

  /** The signed distance of corner from edge, measured along the edge's normal. */
  function CornerDist(corner: Vector, edge: Line, m: Math): real {
    var n := edge.Normal(m);
    Dot(n.X, corner.X - edge.From.X, n.Y, corner.Y - edge.From.Y)
  }

  /** The corner is within 1 unit of (or past) the edge and the cube moves toward the edge. */
  predicate CornerHits(corner: Vector, vel: Vector, edge: Line, m: Math) {
    var n := edge.Normal(m);
    CornerDist(corner, edge, m) < 1.0 && vel.X * n.X + vel.Y * n.Y < 0.0
  }

  /** The collision reported for a corner that hits an edge. */
  function CornerCollision(corner: Vector, edge: Line, m: Math): Collision {
    Collision(true, edge.Normal(m), 1.0 - CornerDist(corner, edge, m), Vector(0.0, 0.0))
  }

  /** (e1, k1) comes strictly before (e2, k2) in the loop order: edges outside, corners inside. */
  predicate LoopBefore(e1: int, k1: int, e2: int, k2: int) {
    e1 < e2 || (e1 == e2 && k1 < k2)
  }

  /** Corner k of the cube hits edge e of the boundary. */
  predicate PairHits(corners: seq<Vector>, vel: Vector, edges: seq<Line>, m: Math, e: int, k: int) {
    |corners| == 4 && 0 <= e < |edges| && 0 <= k < 4 && CornerHits(corners[k], vel, edges[e], m)
  }

  /** The CubeVsBoundary loops from edge e, corner k on. */
  function EdgeScan(corners: seq<Vector>, vel: Vector, edges: seq<Line>, e: nat, k: nat, m: Math): Collision
    requires |corners| == 4 && e <= |edges| && k <= 4
    decreases |edges| - e, 4 - k
  {
    if e == |edges| then NoCollision
    else if k == 4 then EdgeScan(corners, vel, edges, e + 1, 0, m)
    else if CornerHits(corners[k], vel, edges[e], m) then CornerCollision(corners[k], edges[e], m)
    else EdgeScan(corners, vel, edges, e, k + 1, m)
  }

  /**
   * The loops from (e, k) on report a hit exactly when some (edge, corner)
   * pair at or after (e, k) hits; otherwise they return the zero Collision.
   */
  lemma {:induction false} EdgeScanHit(corners: seq<Vector>, vel: Vector, edges: seq<Line>, e: nat, k: nat, m: Math)
    requires |corners| == 4 && e <= |edges| && k <= 4
    decreases |edges| - e, 4 - k
    ensures var r := EdgeScan(corners, vel, edges, e, k, m);
            (r.Hit <==> exists e2, k2 :: PairHits(corners, vel, edges, m, e2, k2) && !LoopBefore(e2, k2, e, k))
            && (!r.Hit ==> r == NoCollision)
  {
    if e == |edges| {
    } else if k == 4 {
      EdgeScanHit(corners, vel, edges, e + 1, 0, m);
    } else if CornerHits(corners[k], vel, edges[e], m) {
      assert PairHits(corners, vel, edges, m, e, k);
    } else {
      EdgeScanHit(corners, vel, edges, e, k + 1, m);
    }
  }

  /**
   * A hit reported by the loops from (e, k) on is the collision of the first
   * hitting pair in loop order: every hitting pair from (e, k) on comes at or
   * after it.
   */
  lemma {:induction false} EdgeScanFirst(corners: seq<Vector>, vel: Vector, edges: seq<Line>, e: nat, k: nat, m: Math)
    requires |corners| == 4 && e <= |edges| && k <= 4
    decreases |edges| - e, 4 - k
    ensures var r := EdgeScan(corners, vel, edges, e, k, m);
            r.Hit ==> exists e2, k2 :: PairHits(corners, vel, edges, m, e2, k2) && !LoopBefore(e2, k2, e, k)
                                     && r == CornerCollision(corners[k2], edges[e2], m)
                                     && forall e3, k3 :: PairHits(corners, vel, edges, m, e3, k3) && !LoopBefore(e3, k3, e, k)
                                                         ==> !LoopBefore(e3, k3, e2, k2)
  {
    if e == |edges| {
    } else if k == 4 {
      EdgeScanFirst(corners, vel, edges, e + 1, 0, m);
    } else if CornerHits(corners[k], vel, edges[e], m) {
      assert PairHits(corners, vel, edges, m, e, k);
    } else {
      EdgeScanFirst(corners, vel, edges, e, k + 1, m);
    }
  }

  /** CubeVsBoundary with the boundary's edges given: the first corner, edge by edge, that hits. */
  method CubeVsBoundary(cube: Cube, edges: seq<Line>, m: Math) returns (r: Collision)
    ensures r == EdgeScan(cube.GetCorners(), cube.Velocity, edges, 0, 0, m)
  {
    var corners := cube.GetCorners();
    for e := 0 to |edges|
      invariant EdgeScan(corners, cube.Velocity, edges, e, 0, m)
             == EdgeScan(corners, cube.Velocity, edges, 0, 0, m)
    {
      var edge := edges[e];
      var edgeNormal := edge.Normal(m);
      for k := 0 to 4
        invariant EdgeScan(corners, cube.Velocity, edges, e, k, m)
               == EdgeScan(corners, cube.Velocity, edges, 0, 0, m)
      {
        var corner := corners[k];
        var dist := Dot(edgeNormal.X, corner.X - edge.From.X, edgeNormal.Y, corner.Y - edge.From.Y);
        if dist < 1.0 {
          var velDot := cube.Velocity.X * edgeNormal.X + cube.Velocity.Y * edgeNormal.Y;
          if velDot < 0.0 {
            var depth := 1.0 - dist;
            return Collision(true, edgeNormal, depth, Vector(0.0, 0.0));
          }
        }
      }
    }
    return NoCollision;
  }

  // ---------------------------------------------------------------- dispatch

  /** CubeVsCube: the AABB test when the rotations agree modulo 90, the SAT test otherwise. */
  function CubePairCollision(a: Cube, b: Cube, m: Math): Collision
    reads a, b
  {
    if FloatMod(a.Rotation, 90) == FloatMod(b.Rotation, 90) then Aabb(a, b)
    else SatCollision(a.GetCorners(), b.GetCorners(), SatAxes(a, b, m), Vector(b.X - a.X, b.Y - a.Y))
  }

  method CubeVsCube(a: Cube, b: Cube, m: Math) returns (r: Collision)
    ensures r == CubePairCollision(a, b, m)
  {
    if FloatMod(a.Rotation, 90) == FloatMod(b.Rotation, 90) {
      return Aabb(a, b);
    }
    r := CubeVsCubeSAT(a, b, m);
  }

  /**
   * Rotations are radians, far below 90 in magnitude, so the AABB branch is
   * taken exactly when the two rotations are equal, whatever they are.
   */
  lemma CubeVsCubeBranch(a: Cube, b: Cube, m: Math)
    requires -90.0 < a.Rotation < 90.0 && -90.0 < b.Rotation < 90.0
    ensures CubePairCollision(a, b, m)
         == if a.Rotation == b.Rotation then Aabb(a, b)
            else SatCollision(a.GetCorners(), b.GetCorners(), SatAxes(a, b, m), Vector(b.X - a.X, b.Y - a.Y))
  {
    FloatModSmall(a.Rotation, 90);
    FloatModSmall(b.Rotation, 90);
  }

  // ---------------------------------------------------------------- SAT against AABB

  /** The corners of the unrotated rectangle at (x, y) of size w x h, in GetCorners order tl, tr, br, bl. */
  function Box(x: real, y: real, w: real, h: real): seq<Vector> {
    [Vector(x, y), Vector(x + w, y), Vector(x + w, y + h), Vector(x, y + h)]
  }

  /** Projected onto the X and Y axes, a box spans [x, x + w] and [y, y + h]. */
  lemma BoxProjections(x: real, y: real, w: real, h: real)
    requires 0.0 < w && 0.0 < h
    ensures ProjMin(Box(x, y, w, h), Vector(1.0, 0.0), 4) == x && ProjMax(Box(x, y, w, h), Vector(1.0, 0.0), 4) == x + w
    ensures ProjMin(Box(x, y, w, h), Vector(0.0, 1.0), 4) == y && ProjMax(Box(x, y, w, h), Vector(0.0, 1.0), 4) == y + h
  {
    var c := Box(x, y, w, h);
    assert c[0].Dot(Vector(1.0, 0.0)) == x && c[1].Dot(Vector(1.0, 0.0)) == x + w;
    assert c[2].Dot(Vector(1.0, 0.0)) == x + w && c[3].Dot(Vector(1.0, 0.0)) == x;
    assert c[0].Dot(Vector(0.0, 1.0)) == y && c[1].Dot(Vector(0.0, 1.0)) == y;
    assert c[2].Dot(Vector(0.0, 1.0)) == y + h && c[3].Dot(Vector(0.0, 1.0)) == y + h;
    assert ProjMin(c, Vector(1.0, 0.0), 2) == x && ProjMin(c, Vector(1.0, 0.0), 3) == x;
    assert ProjMax(c, Vector(1.0, 0.0), 2) == x + w && ProjMax(c, Vector(1.0, 0.0), 3) == x + w;
    assert ProjMin(c, Vector(0.0, 1.0), 2) == y && ProjMin(c, Vector(0.0, 1.0), 3) == y;
    assert ProjMax(c, Vector(0.0, 1.0), 2) == y && ProjMax(c, Vector(0.0, 1.0), 3) == y + h;
  }

  /**
   * The SAT loop over the axes p, q, p, q with no gap on either: it ends
   * with the smaller overlap, keeping p on a tie, when that is below the
   * starting minimum d0.
   */
  lemma SatScanTwoAxes(ca: seq<Vector>, cb: seq<Vector>, p: Vector, q: Vector, d0: real, a0: Vector)
    requires |ca| == 4 && |cb| == 4 && !Separated(ca, cb, p) && !Separated(ca, cb, q)
    requires Min(Overlap(ca, cb, p), Overlap(ca, cb, q)) < d0
    ensures var op, oq := Overlap(ca, cb, p), Overlap(ca, cb, q);
            SatScan(ca, cb, [p, q, p, q], 0, d0, a0) == SatState(true, Min(op, oq), if oq < op then q else p)
  {
    var axes, op, oq := [p, q, p, q], Overlap(ca, cb, p), Overlap(ca, cb, q);
    var d, ax := Min(op, oq), if oq < op then q else p;
    assert axes[2] == p && axes[3] == q && |axes| == 4;
    assert SatScan(ca, cb, axes, 4, d, ax) == SatState(true, d, ax);
    assert SatScan(ca, cb, axes, 3, d, ax) == SatScan(ca, cb, axes, 4, d, ax);
    assert SatScan(ca, cb, axes, 2, d, ax) == SatScan(ca, cb, axes, 3, d, ax);
    if op < d0 {
      assert SatScan(ca, cb, axes, 1, op, p) == SatScan(ca, cb, axes, 2, d, ax);
    } else {
      assert SatScan(ca, cb, axes, 1, d0, a0) == SatScan(ca, cb, axes, 2, d, ax);
    }
  }

  /**
   * SAT on two unrotated boxes, with the axes X, Y, X, Y and the top-left
   * difference as direction: a hit exactly when the closed boxes meet; then
   * the depth is the smaller axis overlap (X kept on a tie) and the normal
   * is that axis turned to point from a toward b.
   */
  lemma BoxSat(xa: real, ya: real, wa: real, ha: real, xb: real, yb: real, wb: real, hb: real)
    requires 0.0 < wa && 0.0 < ha && 0.0 < wb && 0.0 < hb
    ensures var r := SatCollision(Box(xa, ya, wa, ha), Box(xb, yb, wb, hb),
                                  [Vector(1.0, 0.0), Vector(0.0, 1.0), Vector(1.0, 0.0), Vector(0.0, 1.0)],
                                  Vector(xb - xa, yb - ya));
            var dx, dy := Min(xa + wa - xb, xb + wb - xa), Min(ya + ha - yb, yb + hb - ya);
            (r.Hit <==> xb <= xa + wa && xa <= xb + wb && yb <= ya + ha && ya <= yb + hb)
            && (!r.Hit ==> r == NoCollision)
            && (r.Hit && Min(dx, dy) < MaxFloat32 ==>
                  r.Depth == Min(dx, dy)
                  && r.Normal == if dy < dx then Vector(0.0, if yb - ya < 0.0 then -1.0 else 1.0)
                                 else Vector(if xb - xa < 0.0 then -1.0 else 1.0, 0.0))
  {
    var ca, cb := Box(xa, ya, wa, ha), Box(xb, yb, wb, hb);
    var px, py := Vector(1.0, 0.0), Vector(0.0, 1.0);
    var axes := [px, py, px, py];
    BoxProjections(xa, ya, wa, ha);
    BoxProjections(xb, yb, wb, hb);
    assert Separated(ca, cb, px) <==> xa + wa < xb || xb + wb < xa;
    assert Separated(ca, cb, py) <==> ya + ha < yb || yb + hb < ya;
    SatScanOverlapping(ca, cb, axes, 0, MaxFloat32, Vector(0.0, 0.0));
    assert (forall i :: 0 <= i < 4 ==> !Separated(ca, cb, axes[i]))
       <==> !Separated(ca, cb, px) && !Separated(ca, cb, py);
    var dx, dy := Min(xa + wa - xb, xb + wb - xa), Min(ya + ha - yb, yb + hb - ya);
    if !Separated(ca, cb, px) && !Separated(ca, cb, py) && Min(dx, dy) < MaxFloat32 {
      assert Overlap(ca, cb, px) == dx && Overlap(ca, cb, py) == dy;
      SatScanTwoAxes(ca, cb, px, py, MaxFloat32, Vector(0.0, 0.0));
    }
  }

  /**
   * For two unrotated cubes with fresh corners, the SAT test that CubeVsCube
   * does not use for them agrees with the AABB test it does use on every
   * strict overlap: both hit, with the same depth, and SAT's normal is an
   * axis unit vector.  SAT also hits on boxes that only touch, with depth 0,
   * and reports no hit exactly when the closed boxes are apart.
   */
  lemma SatAgreesWithAabb(a: Cube, b: Cube, m: Math)
    requires m.TrigLaws() && a.Rotation == 0.0 && b.Rotation == 0.0
    requires a.CornersFresh(m) && b.CornersFresh(m)
    requires 0.0 < a.W && 0.0 < a.H && 0.0 < b.W && 0.0 < b.H
    ensures var r := SatCollision(a.GetCorners(), b.GetCorners(), SatAxes(a, b, m), Vector(b.X - a.X, b.Y - a.Y));
            var dx := Min(a.X + a.W - b.X, b.X + b.W - a.X);
            var dy := Min(a.Y + a.H - b.Y, b.Y + b.H - a.Y);
            (r.Hit <==> b.X <= a.X + a.W && a.X <= b.X + b.W && b.Y <= a.Y + a.H && a.Y <= b.Y + b.H)
            && (Aabb(a, b).Hit && Min(dx, dy) < MaxFloat32 ==>
                  r.Hit && r.Depth == Aabb(a, b).Depth
                  && (r.Normal == Vector(1.0, 0.0) || r.Normal == Vector(-1.0, 0.0)
                      || r.Normal == Vector(0.0, 1.0) || r.Normal == Vector(0.0, -1.0)))
            && (r.Hit && !Aabb(a, b).Hit ==> r.Depth == 0.0)
  {
    NewCubeCorners(a, m);
    NewCubeCorners(b, m);
    assert a.GetCorners() == Box(a.X, a.Y, a.W, a.H);
    assert b.GetCorners() == Box(b.X, b.Y, b.W, b.H);
    assert SatAxes(a, b, m) == [Vector(1.0, 0.0), Vector(0.0, 1.0), Vector(1.0, 0.0), Vector(0.0, 1.0)];
    BoxSat(a.X, a.Y, a.W, a.H, b.X, b.Y, b.W, b.H);
  }

  /** CheckCollision needs the boundary's walls to be defined when it tests a circle against the boundary. */
  predicate CollideDefined(a: Body, b: Body, m: Math)
    reads a.Refs(), b.Refs()
  {
    a.BoundaryBody? && b.CircleBody? ==> a.boundary.WallsDefined(m)
  }

  /** What CheckCollision returns for the pair (a, b); getEdges stands for the missing boundary.GetEdges(). */
  function Collide(a: Body, b: Body, m: Math, getEdges: CubeBoundary -> seq<Line>): Collision
    requires CollideDefined(a, b, m)
    reads a.Refs(), b.Refs()
  {
    match a
    case BoundaryBody(sa) =>
      (match b
       case CircleBody(sb) =>
         var c := CircleVsBoundary(sb, sa, m);
         c.(Normal := c.Normal.Scale(-1.0))
       case CubeBody(sb) => EdgeScan(sb.GetCorners(), sb.Velocity, getEdges(sa), 0, 0, m)
       case BoundaryBody(_) => NoCollision)
    case CircleBody(sa) =>
      (match b
       case CircleBody(sb) => CircleVsCircle(sa, sb, m)
       case CubeBody(sb) => CircleVsCube(sa, sb)
       case BoundaryBody(_) => NoCollision)
    case CubeBody(sa) =>
      (match b
       case CircleBody(sb) => CircleVsCube(sb, sa)
       case CubeBody(sb) => CubePairCollision(sa, sb, m)
       case BoundaryBody(sb) => EdgeScan(sa.GetCorners(), sa.Velocity, getEdges(sb), 0, 0, m))
  }

  /** CheckCollision: dispatch on the dynamic types of the two objects. */
  method CheckCollision(a: Body, b: Body, m: Math, getEdges: CubeBoundary -> seq<Line>) returns (r: Collision)
    requires CollideDefined(a, b, m)
    ensures r == Collide(a, b, m, getEdges)
  {
    r := NoCollision;
    match a {
      case BoundaryBody(sa) =>
        match b {
          case CircleBody(sb) =>
            r := CircleVsBoundary(sb, sa, m);
            r := r.(Normal := r.Normal.Scale(-1.0));
          case CubeBody(sb) =>
            r := CubeVsBoundary(sb, getEdges(sa), m);
          case BoundaryBody(_) =>
        }
      case CircleBody(sa) =>
        match b {
          case CircleBody(sb) =>
            r := CircleVsCircle(sa, sb, m);
          case CubeBody(sb) =>
            r := CircleVsCube(sa, sb);
          case BoundaryBody(_) =>
        }
      case CubeBody(sa) =>
        match b {
          case CircleBody(sb) =>
            r := CircleVsCube(sb, sa);
          case CubeBody(sb) =>
            r := CubeVsCube(sa, sb, m);
          case BoundaryBody(sb) =>
            r := CubeVsBoundary(sa, getEdges(sb), m);
        }
    }
  }

  /**
   * The dispatch rules: (boundary, circle) is the wall test with only the
   * normal negated; a circle with a cube, in either order, never hits; and
   * (circle, boundary) and (boundary, boundary) give the zero Collision.
   */
  lemma CollideDispatch(a: Body, b: Body, m: Math, getEdges: CubeBoundary -> seq<Line>)
    requires CollideDefined(a, b, m)
    ensures var r := Collide(a, b, m, getEdges);
            (a.BoundaryBody? && b.CircleBody? ==>
               var w := a.boundary.CheckCircleCollision(b.circle, m);
               r.Hit == w.Hit && r.Normal == w.Normal.Scale(-1.0) && r.Depth == w.Depth && r.Point == w.Point)
            && (a.CircleBody? && b.CubeBody? ==> !r.Hit)
            && (a.CubeBody? && b.CircleBody? ==> !r.Hit)
            && (a.CircleBody? && b.BoundaryBody? ==> r == NoCollision)
            && (a.BoundaryBody? && b.BoundaryBody? ==> r == NoCollision)
  {}

  /** A pair that hits has a cube in it, or is a boundary and a circle in that order, or is two circles. */
  lemma CollideHitKinds(a: Body, b: Body, m: Math, getEdges: CubeBoundary -> seq<Line>)
    requires CollideDefined(a, b, m) && Collide(a, b, m, getEdges).Hit
    ensures (a.BoundaryBody? && b.CircleBody?) || (a.CircleBody? && b.CircleBody?)
            || (a.CubeBody? && !b.CircleBody?) || (b.CubeBody? && !a.CircleBody?)
  {}
}

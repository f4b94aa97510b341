/**
 * The collision tick of levels/level1.go: every pair of objects (i, j) with
 * i < j is checked in row-major order, and each hit is resolved in place
 * before the next pair is checked.  A boundary hit reflects the circle's
 * velocity and moves it along the collision normal; a circle-circle hit
 * separates the two circles and exchanges their normal velocities.
 */
module Level1 {

  import opened RealFacts
  import opened GoMath
  import opened Types
  import opened Lines
  import opened EdgeMath
  import opened Circles
  import opened Contacts
  import opened Boundaries
  import opened Collisions

  // ---------------------------------------------------------------- pair order

  /** The pairs the inner loop visits in row i from index j on: (i, j') for j <= j' < n, skipping j' <= i. */
  function Row(i: nat, j: nat, n: nat): (r: seq<(nat, nat)>)
    decreases n - j
    ensures forall p :: p in r ==> p.0 == i && i < p.1 < n && j <= p.1
  {
    if j >= n then []
    else if i >= j then Row(i, j + 1, n)
    else [(i, j)] + Row(i, j + 1, n)
  }

  /** The pairs the two loops visit from row i on. */
  function PairsFrom(i: nat, n: nat): (r: seq<(nat, nat)>)
    decreases n - i
    ensures forall p :: p in r ==> i <= p.0 < p.1 < n
  {
    if i >= n then [] else Row(i, 0, n) + PairsFrom(i + 1, n)
  }

  /** All the pairs one tick visits, in order. */
  function Pairs(n: nat): seq<(nat, nat)> {
    PairsFrom(0, n)
  }

  /** A skipped j (j <= i) adds no pair to the row. */
  lemma RowSkip(i: nat, j: nat, n: nat)
    requires j < n && i >= j
    ensures Row(i, j, n) == Row(i, j + 1, n)
  {}

  /** A visited j (i < j) puts (i, j) at the front of the rest of the row. */
  lemma RowVisit(i: nat, j: nat, n: nat)
    requires i < j < n
    ensures Row(i, j, n) == [(i, j)] + Row(i, j + 1, n)
  {}

  /** p comes before q in row-major order. */
  predicate PairBefore(p: (nat, nat), q: (nat, nat)) {
    p.0 < q.0 || (p.0 == q.0 && p.1 < q.1)
  }

  /** Strictly increasing in row-major order, so no pair occurs twice. */
  predicate RowMajor(ps: seq<(nat, nat)>) {
    forall a, b :: 0 <= a < b < |ps| ==> PairBefore(ps[a], ps[b])
  }

  /** A row holds every (i, j') with j <= j' and i < j' < n. */
  lemma {:induction false} RowMembers(i: nat, j: nat, n: nat)
    decreases n - j
    ensures forall b: nat :: (i, b) in Row(i, j, n) <==> j <= b && i < b < n
  {
    if j < n {
      RowMembers(i, j + 1, n);
    }
  }

  /** A row is in increasing order of j'. */
  lemma {:induction false} RowSorted(i: nat, j: nat, n: nat)
    decreases n - j
    ensures RowMajor(Row(i, j, n))
  {
    if j < n {
      RowSorted(i, j + 1, n);
      var rest := Row(i, j + 1, n);
      if i < j {
        var row := [(i, j)] + rest;
        forall a, b | 0 <= a < b < |row|
          ensures PairBefore(row[a], row[b])
        {
          if a == 0 {
            assert row[b] == rest[b - 1] && rest[b - 1] in rest;
          } else {
            assert row[a] == rest[a - 1] && row[b] == rest[b - 1];
          }
        }
      }
    }
  }

  /** The length of a row from j on. */
  lemma {:induction false} RowLength(i: nat, j: nat, n: nat)
    decreases n - j
    ensures |Row(i, j, n)| == if j >= n then 0 else if i < j then n - j else if i + 1 < n then n - i - 1 else 0
  {
    if j < n {
      RowLength(i, j + 1, n);
    }
  }

  /** From row i on, the loops visit exactly the pairs i <= a < b < n. */
  lemma {:induction false} PairsFromMembers(i: nat, n: nat)
    decreases n - i
    ensures forall a: nat, b: nat :: (a, b) in PairsFrom(i, n) <==> i <= a < b < n
  {
    if i < n {
      RowMembers(i, 0, n);
      PairsFromMembers(i + 1, n);
      var row, rest := Row(i, 0, n), PairsFrom(i + 1, n);
      forall a: nat, b: nat
        ensures (a, b) in row + rest <==> i <= a < b < n
      {
        assert (a, b) in row + rest <==> (a, b) in row || (a, b) in rest;
      }
    }
  }

  /** From row i on, the loops visit the pairs in row-major order, so none twice. */
  lemma {:induction false} PairsFromSorted(i: nat, n: nat)
    decreases n - i
    ensures RowMajor(PairsFrom(i, n))
  {
    if i < n {
      RowSorted(i, 0, n);
      PairsFromSorted(i + 1, n);
      var row, rest := Row(i, 0, n), PairsFrom(i + 1, n);
      forall a, b | 0 <= a < b < |row + rest|
        ensures PairBefore((row + rest)[a], (row + rest)[b])
      {
        if b < |row| {
          assert (row + rest)[a] == row[a] && (row + rest)[b] == row[b];
        } else if a >= |row| {
          assert (row + rest)[a] == rest[a - |row|] && (row + rest)[b] == rest[b - |row|];
        } else {
          assert row[a] in row && rest[b - |row|] in rest;
        }
      }
    }
  }

  /** From row i on, the loops visit (n - i)(n - i - 1)/2 pairs. */
  lemma {:induction false} PairsFromLength(i: nat, n: nat)
    decreases n - i
    ensures 2 * |PairsFrom(i, n)| == if i >= n then 0 else (n - i) * (n - i - 1)
  {
    if i < n {
      RowLength(i, 0, n);
      PairsFromLength(i + 1, n);
      var k := n - i;
      assert |Row(i, 0, n)| == k - 1;
      assert (k - 1) * (k - 2) + 2 * (k - 1) == k * (k - 1);
    }
  }

  /** One tick visits each pair (a, b) with a < b < n exactly once, in row-major order, n(n-1)/2 pairs in all. */
  lemma PairsExactlyOnce(n: nat)
    ensures forall a: nat, b: nat :: (a, b) in Pairs(n) <==> a < b < n
    ensures RowMajor(Pairs(n))
    ensures 2 * |Pairs(n)| == n * (n - 1)
  {
    PairsFromMembers(0, n);
    PairsFromSorted(0, n);
    PairsFromLength(0, n);
  }

  // ---------------------------------------------------------------- resolution of one hit

  /** Boundary first: reflect the circle's velocity off the normal and move it by Normal * Depth. */
  function PushAlong(c: Circle, col: Collision): Circle {
    c.(Velocity := c.Velocity.Reflect(col.Normal),
       X := c.X + col.Normal.X * col.Depth,
       Y := c.Y + col.Normal.Y * col.Depth)
  }

  /** Boundary second: reflect the circle's velocity off the normal and move it by -Normal * Depth. */
  function PushAgainst(c: Circle, col: Collision): Circle {
    c.(Velocity := c.Velocity.Reflect(col.Normal),
       X := c.X - col.Normal.X * col.Depth,
       Y := c.Y - col.Normal.Y * col.Depth)
  }

  /** Two circles: each moves half the depth apart along the normal, and they exchange their velocity components along it. */
  function Bounce(c1: Circle, c2: Circle, col: Collision): (Circle, Circle) {
    var n, d := col.Normal, col.Depth;
    var rel := Vector(c1.Velocity.X - c2.Velocity.X, c1.Velocity.Y - c2.Velocity.Y);
    var dot := rel.X * n.X + rel.Y * n.Y;
    (c1.(X := c1.X - n.X * d / 2.0, Y := c1.Y - n.Y * d / 2.0,
         Velocity := Vector(c1.Velocity.X - dot * n.X, c1.Velocity.Y - dot * n.Y)),
     c2.(X := c2.X + n.X * d / 2.0, Y := c2.Y + n.Y * d / 2.0,
         Velocity := Vector(c2.Velocity.X + dot * n.X, c2.Velocity.Y + dot * n.Y)))
  }

  /**
   * The bounce keeps the radii, the summed position and the summed velocity.
   * For a unit normal it negates the relative velocity along the normal and
   * keeps the total kinetic energy.  Each circle keeps its velocity component
   * along any direction perpendicular to the normal.
   */
  lemma BounceConserves(c1: Circle, c2: Circle, col: Collision, t: Vector)
    ensures var (d1, d2) := Bounce(c1, c2, col);
            var n := col.Normal;
            d1.Radius == c1.Radius && d2.Radius == c2.Radius
            && d1.X + d2.X == c1.X + c2.X && d1.Y + d2.Y == c1.Y + c2.Y
            && d1.Velocity.Add(d2.Velocity) == c1.Velocity.Add(c2.Velocity)
            && (IsUnit(n) ==>
                  d1.Velocity.Sub(d2.Velocity).Dot(n) == -c1.Velocity.Sub(c2.Velocity).Dot(n)
                  && d1.Velocity.Dot(d1.Velocity) + d2.Velocity.Dot(d2.Velocity)
                     == c1.Velocity.Dot(c1.Velocity) + c2.Velocity.Dot(c2.Velocity))
            && (t.Dot(n) == 0.0 ==> d1.Velocity.Dot(t) == c1.Velocity.Dot(t) && d2.Velocity.Dot(t) == c2.Velocity.Dot(t))
  {
    var (d1, d2) := Bounce(c1, c2, col);
    var n := col.Normal;
    var v1, v2 := c1.Velocity, c2.Velocity;
    var dot := (v1.X - v2.X) * n.X + (v1.Y - v2.Y) * n.Y;
    var s := n.Scale(dot);
    assert dot * n.X == s.X && dot * n.Y == s.Y;
    assert d1.Velocity == v1.Sub(s) && d2.Velocity == v2.Add(s);
    assert d1.Velocity.Add(d2.Velocity) == v1.Add(v2);
    if IsUnit(n) {
      ExchangeAlongUnit(v1, v2, n, dot);
    }
    if t.Dot(n) == 0.0 {
      ScaledPerpendicular(n, t, dot);
      SubDot(v1, s, t);
      AddDot(v2, s, t);
    }
  }

  /** The arithmetic of BounceConserves for a unit normal. */
  lemma ExchangeAlongUnit(v1: Vector, v2: Vector, n: Vector, dot: real)
    requires IsUnit(n) && dot == (v1.X - v2.X) * n.X + (v1.Y - v2.Y) * n.Y
    ensures var d1, d2 := v1.Sub(n.Scale(dot)), v2.Add(n.Scale(dot));
            d1.Sub(d2).Dot(n) == -v1.Sub(v2).Dot(n)
            && d1.Dot(d1) + d2.Dot(d2) == v1.Dot(v1) + v2.Dot(v2)
  {
    var s := n.Scale(dot);
    var d1, d2 := v1.Sub(s), v2.Add(s);
    var a, b := v1.Dot(n), v2.Dot(n);
    SubDot(v1, v2, n);
    assert a - b == dot;
    ScaleDot(n, dot, n);
    assert s.Dot(n) == dot;
    SubDot(v1, s, n);
    AddDot(v2, s, n);
    SubDot(d1, d2, n);
    assert d1.Sub(d2).Dot(n) == (a - dot) - (b + dot);
    SubScaledSquare(v1, n, dot);
    AddScaledSquare(v2, n, dot);
    assert dot * a - dot * b == dot * dot;
  }

  /** The arithmetic of BounceConserves for a perpendicular direction. */
  lemma ScaledPerpendicular(n: Vector, t: Vector, k: real)
    requires t.Dot(n) == 0.0
    ensures n.Scale(k).Dot(t) == 0.0
  {
    ScaleDot(n, k, t);
    DotSymmetric(n, t);
  }

  /**
   * A head-on example: circles of radius 10 at (0, 0) and (15, 0), moving
   * at (1, 0) and (-1, 0), overlap by 5 along (1, 0).  Resolving the hit
   * moves each 2.5 apart, leaving them touching, and swaps their velocities.
   */
  lemma BounceExample(m: Math)
    requires m.SqrtLaws()
    ensures var c1, c2 := Circle(0.0, 0.0, 10.0, Vector(1.0, 0.0)), Circle(15.0, 0.0, 10.0, Vector(-1.0, 0.0));
            var col := CircleVsCircle(c1, c2, m);
            col == Collision(true, Vector(1.0, 0.0), 5.0, Vector(10.0, 0.0))
            && Bounce(c1, c2, col) == (Circle(-2.5, 0.0, 10.0, Vector(-1.0, 0.0)), Circle(17.5, 0.0, 10.0, Vector(1.0, 0.0)))
  {
    SqrtOfSquare(m, 15.0);
    assert Sq(15.0) == 225.0;
    BounceExampleAt(m);
    var c1, c2 := Circle(0.0, 0.0, 10.0, Vector(1.0, 0.0)), Circle(15.0, 0.0, 10.0, Vector(-1.0, 0.0));
    var (d1, d2) := Bounce(c1, c2, Collision(true, Vector(1.0, 0.0), 5.0, Vector(10.0, 0.0)));
    assert d1 == Circle(-2.5, 0.0, 10.0, Vector(-1.0, 0.0)) && d2 == Circle(17.5, 0.0, 10.0, Vector(1.0, 0.0));
  }

  /** The collision of BounceExample, once the root of the squared distance, 225, is known to be 15. */
  lemma BounceExampleAt(m: Math)
    requires m.Sqrt(225.0) == 15.0
    ensures CircleVsCircle(Circle(0.0, 0.0, 10.0, Vector(1.0, 0.0)), Circle(15.0, 0.0, 10.0, Vector(-1.0, 0.0)), m)
         == Collision(true, Vector(1.0, 0.0), 5.0, Vector(10.0, 0.0))
  {
    var delta := Vector(15.0, 0.0);
    assert Sq(delta.X) + Sq(delta.Y) == 225.0;
    assert delta.Length(m) == 15.0;
    assert delta.Normalize(m) == Vector(1.0, 0.0);
  }

  /**
   * A circle-circle hit with distinct centres, resolved by Bounce, leaves
   * the two circles exactly touching: the new centre difference is the unit
   * normal times the sum of the radii.
   */
  lemma BounceTouches(c1: Circle, c2: Circle, m: Math)
    requires m.SqrtLaws() && CircleVsCircle(c1, c2, m).Hit && c1.Center() != c2.Center()
    ensures var col := CircleVsCircle(c1, c2, m);
            var moved := Bounce(c1, c2, col);
            Vector(moved.1.X - moved.0.X, moved.1.Y - moved.0.Y) == col.Normal.Scale(c1.Radius + c2.Radius)
            && IsUnit(col.Normal)
  {
    var col := CircleVsCircle(c1, c2, m);
    var delta := Vector(c2.X - c1.X, c2.Y - c1.Y);
    var dist := delta.Length(m);
    CircleVsCircleContact(c1, c2, m);
    var n, d, rsum := col.Normal, col.Depth, c1.Radius + c2.Radius;
    assert n.Scale(dist) == delta;
    TouchArithmetic(delta.X, n.X, dist, d, rsum);
    TouchArithmetic(delta.Y, n.Y, dist, d, rsum);
  }

  /** The arithmetic of BounceTouches, one coordinate at a time. */
  lemma TouchArithmetic(delta: real, n: real, dist: real, d: real, rsum: real)
    requires delta == n * dist && d == rsum - dist
    ensures delta + n * d / 2.0 + n * d / 2.0 == n * rsum
  {
    assert n * d == n * rsum - n * dist;
  }

  /**
   * The boundary branch as written: the wall test's inward normal n is
   * negated by CheckCollision, so PushAlong moves the circle Depth further
   * out through the wall (its wall distance dist becomes 2*dist - Radius)
   * while its velocity, reflected, now points back into the arena.
   */
  lemma BoundaryPushDeepens(c: Circle, wall: Wall)
    requires WallQualifies(c, wall) && IsUnit(wall.1)
    ensures var w := WallCollision(c, wall);
            var c2 := PushAlong(c, w.(Normal := w.Normal.Scale(-1.0)));
            var n := wall.1;
            c2.Radius == c.Radius
            && WallDist(c2, wall) == 2.0 * WallDist(c, wall) - c.Radius
            && WallDist(c2, wall) < WallDist(c, wall)
            && c2.Velocity.Dot(n) == -c.Velocity.Dot(n)
            && 0.0 < c2.Velocity.Dot(n)
  {
    var w := WallCollision(c, wall);
    var n, dist := wall.1, WallDist(c, wall);
    var col := w.(Normal := w.Normal.Scale(-1.0));
    var c2 := PushAlong(c, col);
    var k := col.Depth;
    ShiftAlong(c.X, c.Y, c2.X, c2.Y, n.X, n.Y, col.Normal.X, col.Normal.Y, wall.0.From.X, wall.0.From.Y, k);
    assert n.X * n.X + n.Y * n.Y == 1.0;
    assert k * (n.X * n.X + n.Y * n.Y) == k;
    assert WallDist(c2, wall) == dist - k;
    var v := c.Velocity;
    assert c2.Velocity == v.Reflect(n.Scale(-1.0));
    ReflectNegatedNormal(v, n);
    ReflectFlipsNormal(v, n);
    assert Vector(v.X, v.Y) == v && Vector(n.X, n.Y) == n;
    assert v.Dot(n) < 0.0;
  }

  /**
   * The push the boundary branch is meant to perform: moving the circle
   * Depth along the wall's own inward normal (not the negated one) leaves
   * it exactly touching the wall, at distance Radius, and still reflects
   * its velocity back into the arena.
   */
  lemma BoundaryPushIntended(c: Circle, wall: Wall)
    requires WallQualifies(c, wall) && IsUnit(wall.1)
    ensures var c2 := PushAlong(c, WallCollision(c, wall));
            var n := wall.1;
            c2.Radius == c.Radius
            && WallDist(c2, wall) == c.Radius
            && WallDist(c, wall) < WallDist(c2, wall)
            && 0.0 < c2.Velocity.Dot(n)
  {
    var w := WallCollision(c, wall);
    var n, dist := wall.1, WallDist(c, wall);
    var c2 := PushAlong(c, w);
    var k := w.Depth;
    var m := n.Scale(-1.0);
    ShiftAlong(c.X, c.Y, c2.X, c2.Y, n.X, n.Y, m.X, m.Y, wall.0.From.X, wall.0.From.Y, -k);
    assert n.X * n.X + n.Y * n.Y == 1.0;
    assert -k * (n.X * n.X + n.Y * n.Y) == -k;
    assert WallDist(c2, wall) == dist + k;
    var v := c.Velocity;
    ReflectFlipsNormal(v, n);
    assert Vector(v.X, v.Y) == v && Vector(n.X, n.Y) == n;
    assert v.Dot(n) < 0.0;
  }

  /** The arithmetic of BoundaryPushDeepens: moving a point k along -n lowers its distance along n by k |n|^2. */
  lemma ShiftAlong(px: real, py: real, qx: real, qy: real, nx: real, ny: real, mx: real, my: real, fx: real, fy: real, k: real)
    requires mx == nx * -1.0 && my == ny * -1.0
    requires qx == px + mx * k && qy == py + my * k
    ensures Dot(nx, qx - fx, ny, qy - fy) == Dot(nx, px - fx, ny, py - fy) - k * (nx * nx + ny * ny)
  {}

  // ---------------------------------------------------------------- one tick

  /** The objects' state during a tick: the objects, collisionCount, and whether a type assertion panicked. */
  datatype TickState = TickState(objs: seq<Body>, count: int, panicked: bool)

  /** Every cube and boundary the objects refer to is in frame. */
  predicate Framed(objs: seq<Body>, frame: set<object>) {
    forall k :: 0 <= k < |objs| ==> objs[k].Refs() <= frame
  }

  /** Every boundary among the objects has well-defined wall normals. */
  predicate WallsReady(objs: seq<Body>, m: Math, frame: set<object>)
    requires Framed(objs, frame)
    reads frame
  {
    forall k :: 0 <= k < |objs| && objs[k].BoundaryBody? ==> objs[k].boundary.WallsDefined(m)
  }

  /** b is a copy of a in which only circles may have changed, each into a circle. */
  predicate OnlyCirclesChange(a: seq<Body>, b: seq<Body>) {
    |a| == |b|
    && forall k :: 0 <= k < |a| ==> (a[k].CircleBody? <==> b[k].CircleBody?) && (!a[k].CircleBody? ==> b[k] == a[k])
  }

  /** The frame and the wall conditions survive a change that touches only circles. */
  lemma OnlyCirclesKeepReady(a: seq<Body>, b: seq<Body>, m: Math, frame: set<object>)
    requires OnlyCirclesChange(a, b) && Framed(a, frame) && WallsReady(a, m, frame)
    ensures Framed(b, frame) && WallsReady(b, m, frame)
  {
    forall k | 0 <= k < |b|
      ensures b[k].Refs() <= frame
    {
      if b[k].CircleBody? {
        assert b[k].Refs() == {};
      } else {
        assert b[k] == a[k];
      }
    }
  }

  /** Changes that touch only circles compose. */
  lemma OnlyCirclesTransitive(a: seq<Body>, b: seq<Body>, c: seq<Body>)
    requires OnlyCirclesChange(a, b) && OnlyCirclesChange(b, c)
    ensures OnlyCirclesChange(a, c)
  {}

  /** The pairs name objects that exist. */
  predicate ValidPairs(pairs: seq<(nat, nat)>, n: nat) {
    forall p :: p in pairs ==> p.0 < p.1 < n
  }

  /**
   * The resolution of a hit col between objects i and j: move the circle
   * away from a boundary, or bounce two circles, and count the hit; panic
   * where Go's type assertion to *Circle would fail.  Only circles change,
   * and only the two of the pair.
   */
  function Resolve(st: TickState, i: nat, j: nat, col: Collision): TickState
    requires i < j < |st.objs|
  {
    var o1, o2 := st.objs[i], st.objs[j];
    if o1.BoundaryBody? then
      if o2.CircleBody? then TickState(st.objs[j := CircleBody(PushAlong(o2.circle, col))], st.count + 1, st.panicked)
      else TickState(st.objs, st.count + 1, true)
    else if o2.BoundaryBody? then
      if o1.CircleBody? then TickState(st.objs[i := CircleBody(PushAgainst(o1.circle, col))], st.count + 1, st.panicked)
      else TickState(st.objs, st.count + 1, true)
    else if o1.CircleBody? && o2.CircleBody? then
      var moved := Bounce(o1.circle, o2.circle, col);
      TickState(st.objs[i := CircleBody(moved.0)][j := CircleBody(moved.1)], st.count + 1, st.panicked)
    else TickState(st.objs, st.count + 1, true)
  }

  /** A resolution changes only circles, and only the two of the pair, and counts one hit. */
  lemma ResolveChangesPair(st: TickState, i: nat, j: nat, col: Collision)
    requires i < j < |st.objs|
    ensures var r := Resolve(st, i, j, col);
            OnlyCirclesChange(st.objs, r.objs)
            && (forall k :: 0 <= k < |st.objs| && k != i && k != j ==> r.objs[k] == st.objs[k])
            && r.count == st.count + 1
  {}

  /** One iteration of the inner loop body for the pair (i, j): test the pair and resolve a hit. */
  function Step(st: TickState, i: nat, j: nat, m: Math, getEdges: CubeBoundary -> seq<Line>, frame: set<object>): (r: TickState)
    requires i < j < |st.objs| && Framed(st.objs, frame) && WallsReady(st.objs, m, frame)
    reads frame
    ensures OnlyCirclesChange(st.objs, r.objs)
    ensures forall k :: 0 <= k < |st.objs| && k != i && k != j ==> r.objs[k] == st.objs[k]
    ensures r.count == st.count + (if Collide(st.objs[i], st.objs[j], m, getEdges).Hit then 1 else 0)
    ensures !Collide(st.objs[i], st.objs[j], m, getEdges).Hit ==> r == st
  {
    var col := Collide(st.objs[i], st.objs[j], m, getEdges);
    if col.Hit then ResolveChangesPair(st, i, j, col); Resolve(st, i, j, col) else st
  }

  /** The tick from the given pairs on: one Step per pair, stopping at a panic. */
  function FoldPairs(st: TickState, pairs: seq<(nat, nat)>, m: Math, getEdges: CubeBoundary -> seq<Line>, frame: set<object>): (r: TickState)
    requires ValidPairs(pairs, |st.objs|) && Framed(st.objs, frame) && WallsReady(st.objs, m, frame)
    reads frame
    decreases |pairs|
    ensures OnlyCirclesChange(st.objs, r.objs) && Framed(r.objs, frame) && WallsReady(r.objs, m, frame)
  {
    if |pairs| == 0 || st.panicked then st
    else
      var next := Step(st, pairs[0].0, pairs[0].1, m, getEdges, frame);
      OnlyCirclesKeepReady(st.objs, next.objs, m, frame);
      var r := FoldPairs(next, pairs[1..], m, getEdges, frame);
      OnlyCirclesTransitive(st.objs, next.objs, r.objs);
      r
  }

  /** The whole tick over n objects. */
  function Tick(objs: seq<Body>, count: int, m: Math, getEdges: CubeBoundary -> seq<Line>, frame: set<object>): TickState
    requires Framed(objs, frame) && WallsReady(objs, m, frame)
    reads frame
  {
    FoldPairs(TickState(objs, count, false), Pairs(|objs|), m, getEdges, frame)
  }

  /**
   * Over a run of pairs, collisionCount grows by at most one per pair, only
   * circles change and the object count stays the same; a panicked state is
   * left as it is.
   */
  lemma {:induction false} FoldPairsBounds(st: TickState, pairs: seq<(nat, nat)>, m: Math, getEdges: CubeBoundary -> seq<Line>, frame: set<object>)
    requires ValidPairs(pairs, |st.objs|) && Framed(st.objs, frame) && WallsReady(st.objs, m, frame)
    decreases |pairs|
    ensures var r := FoldPairs(st, pairs, m, getEdges, frame);
            st.count <= r.count <= st.count + |pairs|
            && OnlyCirclesChange(st.objs, r.objs)
            && (st.panicked ==> r == st)
  {
    if |pairs| > 0 && !st.panicked {
      var next := Step(st, pairs[0].0, pairs[0].1, m, getEdges, frame);
      OnlyCirclesKeepReady(st.objs, next.objs, m, frame);
      FoldPairsBounds(next, pairs[1..], m, getEdges, frame);
    }
  }

  /** The objects hold circles and boundaries only, as in the level as built. */
  predicate NoCubes(objs: seq<Body>) {
    forall k :: 0 <= k < |objs| ==> !objs[k].CubeBody?
  }

  /** Without cubes every hit pair is a boundary before a circle or two circles, so Step never panics. */
  lemma StepNoCubes(st: TickState, i: nat, j: nat, m: Math, getEdges: CubeBoundary -> seq<Line>, frame: set<object>)
    requires i < j < |st.objs| && Framed(st.objs, frame) && WallsReady(st.objs, m, frame)
    requires NoCubes(st.objs)
    ensures var r := Step(st, i, j, m, getEdges, frame);
            r.panicked == st.panicked && NoCubes(r.objs)
  {
    var o1, o2 := st.objs[i], st.objs[j];
    CollideDispatch(o1, o2, m, getEdges);
    var r := Step(st, i, j, m, getEdges, frame);
    forall k | 0 <= k < |r.objs|
      ensures !r.objs[k].CubeBody?
    {
      if !st.objs[k].CircleBody? {
        assert r.objs[k] == st.objs[k];
      }
    }
  }

  /** A tick over circles and boundaries only never panics. */
  lemma {:induction false} FoldPairsNoCubes(st: TickState, pairs: seq<(nat, nat)>, m: Math, getEdges: CubeBoundary -> seq<Line>, frame: set<object>)
    requires ValidPairs(pairs, |st.objs|) && Framed(st.objs, frame) && WallsReady(st.objs, m, frame)
    requires NoCubes(st.objs)
    decreases |pairs|
    ensures FoldPairs(st, pairs, m, getEdges, frame).panicked == st.panicked
  {
    if |pairs| > 0 && !st.panicked {
      var next := Step(st, pairs[0].0, pairs[0].1, m, getEdges, frame);
      StepNoCubes(st, pairs[0].0, pairs[0].1, m, getEdges, frame);
      OnlyCirclesKeepReady(st.objs, next.objs, m, frame);
      FoldPairsNoCubes(next, pairs[1..], m, getEdges, frame);
    }
  }

  /**
   * The branch for a boundary at j can only be entered with a cube at i (a
   * circle before a boundary never hits), so a hit there always panics.
   */
  lemma BoundarySecondPanics(st: TickState, i: nat, j: nat, m: Math, getEdges: CubeBoundary -> seq<Line>, frame: set<object>)
    requires i < j < |st.objs| && Framed(st.objs, frame) && WallsReady(st.objs, m, frame)
    requires !st.objs[i].BoundaryBody? && st.objs[j].BoundaryBody?
    ensures var r := Step(st, i, j, m, getEdges, frame);
            Collide(st.objs[i], st.objs[j], m, getEdges).Hit ==> st.objs[i].CubeBody? && r.panicked && r.objs == st.objs
  {
    CollideDispatch(st.objs[i], st.objs[j], m, getEdges);
  }

  /**
   * A boundary at i hitting a circle at j: the circle is pushed along the
   * negated normal of the first qualifying wall, left, right, top, bottom;
   * every other object is unchanged.
   */
  lemma BoundaryFirstResolves(st: TickState, i: nat, j: nat, m: Math, getEdges: CubeBoundary -> seq<Line>, frame: set<object>)
    requires i < j < |st.objs| && Framed(st.objs, frame) && WallsReady(st.objs, m, frame)
    requires st.objs[i].BoundaryBody? && st.objs[j].CircleBody?
    requires Collide(st.objs[i], st.objs[j], m, getEdges).Hit
    ensures var b, c := st.objs[i].boundary, st.objs[j].circle;
            var walls := b.Walls(m);
            var r := Step(st, i, j, m, getEdges, frame);
            exists k :: 0 <= k < 4 && WallQualifies(c, walls[k])
                        && (forall e :: 0 <= e < k ==> !WallQualifies(c, walls[e]))
                        && var w := WallCollision(c, walls[k]);
                           r == TickState(st.objs[j := CircleBody(PushAlong(c, w.(Normal := w.Normal.Scale(-1.0))))],
                                          st.count + 1, st.panicked)
  {
    var b, c := st.objs[i].boundary, st.objs[j].circle;
    CollideDispatch(st.objs[i], st.objs[j], m, getEdges);
    CheckCircleCollisionFirstWall(b, c, m);
  }

  /** The inner loop body for the pair (i, j): CheckCollision, then the resolution of a hit. */
  method ResolvePair(objs: seq<Body>, count: int, i: nat, j: nat, m: Math, getEdges: CubeBoundary -> seq<Line>, ghost frame: set<object>)
    returns (objs': seq<Body>, count': int, panicked: bool)
    requires i < j < |objs| && Framed(objs, frame) && WallsReady(objs, m, frame)
    ensures TickState(objs', count', panicked) == Step(TickState(objs, count, false), i, j, m, getEdges, frame)
  {
    var col := CheckCollision(objs[i], objs[j], m, getEdges);
    if col.Hit {
      objs', count', panicked := ApplyHit(objs, count, i, j, col);
    } else {
      objs', count', panicked := objs, count, false;
    }
  }

  /**
   * A hit between objects i and j, resolved as the Go code does.  The
   * result says whether a type assertion to *Circle panicked; the objects
   * and the count are then as they were at that point.
   */
  method ApplyHit(objs: seq<Body>, count: int, i: nat, j: nat, col: Collision)
    returns (objs': seq<Body>, count': int, panicked: bool)
    requires i < j < |objs|
    ensures TickState(objs', count', panicked) == Resolve(TickState(objs, count, false), i, j, col)
  {
    var o1, o2 := objs[i], objs[j];
    objs', count', panicked := objs, count + 1, false;
    if o1.BoundaryBody? {
      if !o2.CircleBody? {
        panicked := true;
        return;
      }
      objs' := objs'[j := CircleBody(PushAlong(o2.circle, col))];
    } else if o2.BoundaryBody? {
      if !o1.CircleBody? {
        panicked := true;
        return;
      }
      objs' := objs'[i := CircleBody(PushAgainst(o1.circle, col))];
    } else {
      if !o1.CircleBody? || !o2.CircleBody? {
        panicked := true;
        return;
      }
      var moved := Bounce(o1.circle, o2.circle, col);
      objs' := objs'[i := CircleBody(moved.0)][j := CircleBody(moved.1)];
    }
  }

  /** The inner loop's step: the fold over row i from j on is Step for (i, j) followed by the fold from j + 1 on. */
  lemma FoldPairsAdvance(st: TickState, i: nat, j: nat, n: nat, m: Math, getEdges: CubeBoundary -> seq<Line>, frame: set<object>)
    requires i < j < n == |st.objs| && !st.panicked && Framed(st.objs, frame) && WallsReady(st.objs, m, frame)
    ensures var next := Step(st, i, j, m, getEdges, frame);
            Framed(next.objs, frame) && WallsReady(next.objs, m, frame) && |next.objs| == n
            && FoldPairs(st, Row(i, j, n), m, getEdges, frame) == FoldPairs(next, Row(i, j + 1, n), m, getEdges, frame)
            && (next.panicked ==> FoldPairs(next, Row(i, j + 1, n), m, getEdges, frame) == next)
  {
    var next := Step(st, i, j, m, getEdges, frame);
    OnlyCirclesKeepReady(st.objs, next.objs, m, frame);
    var rest := Row(i, j + 1, n);
    RowVisit(i, j, n);
    assert ([(i, j)] + rest)[1..] == rest;
  }

  /** Folding over two runs of pairs is folding over the first, then over the second. */
  lemma {:induction false} FoldPairsAppend(st: TickState, a: seq<(nat, nat)>, b: seq<(nat, nat)>, m: Math, getEdges: CubeBoundary -> seq<Line>, frame: set<object>)
    requires ValidPairs(a + b, |st.objs|) && Framed(st.objs, frame) && WallsReady(st.objs, m, frame)
    decreases |a|
    ensures ValidPairs(a, |st.objs|)
    ensures var mid := FoldPairs(st, a, m, getEdges, frame);
            ValidPairs(b, |mid.objs|) && FoldPairs(st, a + b, m, getEdges, frame) == FoldPairs(mid, b, m, getEdges, frame)
  {
    assert forall p :: p in a ==> p in a + b;
    assert forall p :: p in b ==> p in a + b;
    if |a| > 0 && !st.panicked {
      var next := Step(st, a[0].0, a[0].1, m, getEdges, frame);
      OnlyCirclesKeepReady(st.objs, next.objs, m, frame);
      assert (a + b)[1..] == a[1..] + b;
      FoldPairsAppend(next, a[1..], b, m, getEdges, frame);
    } else if |a| == 0 {
      assert a + b == b;
    }
  }

  /**
   * The inner loop body for the pair (i, j) of row i: skipped when i >= j,
   * otherwise ResolvePair.  Either way the row's fold moves on by one j;
   * after a panic the fold stays where it is.
   */
  method VisitPair(st0: TickState, i: nat, j: nat, m: Math, getEdges: CubeBoundary -> seq<Line>, ghost frame: set<object>, ghost final: TickState)
    returns (st: TickState)
    requires i < |st0.objs| && j < |st0.objs| && !st0.panicked && Framed(st0.objs, frame) && WallsReady(st0.objs, m, frame)
    requires FoldPairs(st0, Row(i, j, |st0.objs|), m, getEdges, frame) == final
    ensures |st.objs| == |st0.objs| && Framed(st.objs, frame) && WallsReady(st.objs, m, frame)
    ensures !st.panicked ==> FoldPairs(st, Row(i, j + 1, |st0.objs|), m, getEdges, frame) == final
    ensures st.panicked ==> st == final
  {
    if i >= j {
      RowSkip(i, j, |st0.objs|);
      return st0;
    }
    FoldPairsAdvance(st0, i, j, |st0.objs|, m, getEdges, frame);
    var objs, count, panicked := ResolvePair(st0.objs, st0.count, i, j, m, getEdges, frame);
    st := TickState(objs, count, panicked);
  }

  /**
   * The inner loop of CheckCollisions for row i: the pairs (i, j) with
   * i < j, in order of j, each resolved before the next is checked.  The
   * row computes the fold over its pairs; a panic ends it where it happened.
   */
  method CheckRow(objs0: seq<Body>, count0: int, i: nat, m: Math, getEdges: CubeBoundary -> seq<Line>, ghost frame: set<object>)
    returns (objs: seq<Body>, count: int, panicked: bool)
    requires i < |objs0| && Framed(objs0, frame) && WallsReady(objs0, m, frame)
    ensures TickState(objs, count, panicked) == FoldPairs(TickState(objs0, count0, false), Row(i, 0, |objs0|), m, getEdges, frame)
  {
    var n := |objs0|;
    var st := TickState(objs0, count0, false);
    ghost var final := FoldPairs(st, Row(i, 0, n), m, getEdges, frame);
    for j := 0 to n
      invariant |st.objs| == n && Framed(st.objs, frame) && WallsReady(st.objs, m, frame) && !st.panicked
      invariant FoldPairs(st, Row(i, j, n), m, getEdges, frame) == final
    {
      st := VisitPair(st, i, j, m, getEdges, frame, final);
      if st.panicked {
        return st.objs, st.count, st.panicked;
      }
    }
    FoldRowEnd(st, i, m, getEdges, frame);
    return st.objs, st.count, st.panicked;
  }

  /** At the end of a row nothing is left to fold. */
  lemma FoldRowEnd(st: TickState, i: nat, m: Math, getEdges: CubeBoundary -> seq<Line>, frame: set<object>)
    requires Framed(st.objs, frame) && WallsReady(st.objs, m, frame)
    ensures FoldPairs(st, Row(i, |st.objs|, |st.objs|), m, getEdges, frame) == st
  {}

  /** The outer loop's step: the fold from row i on is the fold over row i, then the fold from row i + 1 on. */
  lemma FoldRowThenRest(st: TickState, i: nat, n: nat, m: Math, getEdges: CubeBoundary -> seq<Line>, frame: set<object>)
    requires i < n == |st.objs| && Framed(st.objs, frame) && WallsReady(st.objs, m, frame)
    ensures var mid := FoldPairs(st, Row(i, 0, n), m, getEdges, frame);
            FoldPairs(st, PairsFrom(i, n), m, getEdges, frame) == FoldPairs(mid, PairsFrom(i + 1, n), m, getEdges, frame)
            && (mid.panicked ==> FoldPairs(mid, PairsFrom(i + 1, n), m, getEdges, frame) == mid)
  {
    FoldPairsAppend(st, Row(i, 0, n), PairsFrom(i + 1, n), m, getEdges, frame);
  }

  /**
   * The outer loop of CheckCollisions, over the objects and count given:
   * row after row, stopping at a panic.  It computes the whole tick.
   */
  method CheckAllPairs(objs0: seq<Body>, count0: int, m: Math, getEdges: CubeBoundary -> seq<Line>, ghost frame: set<object>)
    returns (objs: seq<Body>, count: int, panicked: bool)
    requires Framed(objs0, frame) && WallsReady(objs0, m, frame)
    ensures TickState(objs, count, panicked) == Tick(objs0, count0, m, getEdges, frame)
  {
    objs, count, panicked := objs0, count0, false;
    var n := |objs|;
    ghost var final := Tick(objs, count, m, getEdges, frame);
    for i := 0 to n
      invariant |objs| == n && Framed(objs, frame) && WallsReady(objs, m, frame)
      invariant FoldPairs(TickState(objs, count, false), PairsFrom(i, n), m, getEdges, frame) == final
    {
      FoldRowThenRest(TickState(objs, count, false), i, n, m, getEdges, frame);
      objs, count, panicked := CheckRow(objs, count, i, m, getEdges, frame);
      if panicked {
        return;
      }
    }
  }

  // ---------------------------------------------------------------- the game

  class Game {
    var Objects: seq<Body>
    /** The package-level collisionCount. */
    var CollisionCount: int

    /**
     * CheckCollisions: one collision pass over Objects, updating the circles
     * in it and the count.  The result says whether a type assertion
     * panicked, which ends the pass where it happened.
     */
    method CheckCollisions(delta: real, m: Math, getEdges: CubeBoundary -> seq<Line>, ghost frame: set<object>)
      returns (panicked: bool)
      requires Framed(Objects, frame) && WallsReady(Objects, m, frame) && this !in frame
      modifies this
      ensures var t := Tick(old(Objects), old(CollisionCount), m, getEdges, frame);
              Objects == t.objs && CollisionCount == t.count && panicked == t.panicked
    {
      Objects, CollisionCount, panicked := CheckAllPairs(Objects, CollisionCount, m, getEdges, frame);
    }
  }

  /** A tick over the level as built, one boundary and circles, never panics, and counts at most one hit per pair. */
  lemma TickNoCubes(objs: seq<Body>, count: int, m: Math, getEdges: CubeBoundary -> seq<Line>, frame: set<object>)
    requires Framed(objs, frame) && WallsReady(objs, m, frame) && NoCubes(objs)
    ensures var t := Tick(objs, count, m, getEdges, frame);
            !t.panicked && count <= t.count <= count + |objs| * (|objs| - 1) / 2
  {
    PairsExactlyOnce(|objs|);
    FoldPairsNoCubes(TickState(objs, count, false), Pairs(|objs|), m, getEdges, frame);
    FoldPairsBounds(TickState(objs, count, false), Pairs(|objs|), m, getEdges, frame);
  }
}

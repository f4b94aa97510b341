/**
 * The 2D value algebra of levels/types.go: points, sizes and vectors.
 * Every operation takes its receiver by value and returns a fresh value.
 */
module Types {

  import opened GoMath
  import opened RealFacts

  /** A position.  `Vector` has the same fields but is used as a direction. */
  datatype Point = Point(X: real, Y: real)
  {
    function Add(v: Point): Point {
      Point(X + v.X, Y + v.Y)
    }

    function Sub(v: Point): Point {
      Point(X - v.X, Y - v.Y)
    }

    function Dot(u: Vector): real {
      X * u.X + Y * u.Y
    }

    function Scale(scalar: real): Point {
      Point(X * scalar, Y * scalar)
    }

    /** Rotates this point by `angle` radians about `origin`. */
    function RotateAround(origin: Point, angle: real, m: Math): Point {
      var sin, cos := m.Sin(angle), m.Cos(angle);
      var translated := Sub(origin);
      var rotated := Point(translated.X * cos - translated.Y * sin,
                           translated.X * sin + translated.Y * cos);
      rotated.Add(origin)
    }

    /** Go's conversion `Vector(p)`. */
    function AsVector(): Vector {
      Vector(X, Y)
    }
  }

  datatype Size = Size(W: real, H: real)
  {
    function Scale(scalar: real): Size {
      Size(W * scalar, H * scalar)
    }
  }

  /**
   * Scaling a size composes multiplicatively, 1 is the identity, and the
   * aspect ratio W : H is kept (cross-multiplied, so a zero side is allowed).
   */
  lemma SizeScaleCompose(s: Size, a: real, b: real)
    ensures s.Scale(a).Scale(b) == s.Scale(a * b)
    ensures s.Scale(1.0) == s
    ensures s.Scale(a).W * s.H == s.W * s.Scale(a).H
  {
    assert (s.W * a) * b == s.W * (a * b);
    assert (s.H * a) * b == s.H * (a * b);
  }

  datatype Vector = Vector(X: real, Y: real)
  {
    function Add(u: Vector): Vector {
      Vector(X + u.X, Y + u.Y)
    }

    /** Elastic reflection off the line whose normal is `normal`. */
    function Reflect(normal: Vector): Vector {
      var dotProduct := Dot(normal);
      Vector(X - 2.0 * dotProduct * normal.X, Y - 2.0 * dotProduct * normal.Y)
    }

    function Sub(u: Vector): Vector {
      Vector(X - u.X, Y - u.Y)
    }

    function Scale(scalar: real): Vector {
      Vector(X * scalar, Y * scalar)
    }

    function Length(m: Math): real {
      m.Sqrt(Sq(X) + Sq(Y))
    }

    function Dot(u: Vector): real {
      X * u.X + Y * u.Y
    }

    /** This vector scaled to unit length; the zero vector when the length is 0. */
    function Normalize(m: Math): Vector {
      var length := Length(m);
      if length == 0.0 then Vector(0.0, 0.0) else Scale(1.0 / length)
    }

    /** Go's conversion `Point(v)`. */
    function AsPoint(): Point {
      Point(X, Y)
    }
  }

  /** `n` has unit length. */
  predicate IsUnit(n: Vector) {
    n.Dot(n) == 1.0
  }

  /** Adding and then subtracting the same point gives back the original, in either order. */
  lemma PointAddSub(p: Point, v: Point)
    ensures p.Add(v).Sub(v) == p
    ensures p.Sub(v).Add(v) == p
  {}

  /** Adding and then subtracting the same vector gives back the original, in either order. */
  lemma VectorAddSub(v: Vector, u: Vector)
    ensures v.Add(u).Sub(u) == v
    ensures v.Sub(u).Add(u) == v
  {}

  /** The dot product is symmetric. */
  lemma DotSymmetric(v: Vector, u: Vector)
    ensures v.Dot(u) == u.Dot(v)
  {}

  /** Normalising the zero vector returns the zero vector, whatever the square root gives. */
  lemma NormalizeZero(m: Math)
    ensures Vector(0.0, 0.0).Normalize(m) == Vector(0.0, 0.0)
  {}

  /** A nonzero vector has a positive length, normalises to a unit vector, and is its normal form scaled by its length. */
  lemma NormalizeUnit(v: Vector, m: Math)
    requires m.SqrtLaws() && v != Vector(0.0, 0.0)
    ensures 0.0 < v.Length(m)
    ensures IsUnit(v.Normalize(m))
    ensures v.Normalize(m).Scale(v.Length(m)) == v
  {
    SumOfSqPos(v.X, v.Y);
    var length := v.Length(m);
    SqrtPos(m, Sq(v.X) + Sq(v.Y));
    assert Sq(length) == Sq(v.X) + Sq(v.Y);
    UnitAfterDivision(v.X, v.Y, length, 1.0 / length);
  }

  /** The arithmetic of NormalizeUnit: (x*k, y*k) has unit length when k = 1/l and l^2 = x^2 + y^2. */
  lemma UnitAfterDivision(x: real, y: real, l: real, k: real)
    requires 0.0 < l && k == 1.0 / l && Sq(l) == Sq(x) + Sq(y)
    ensures (x * k) * (x * k) + (y * k) * (y * k) == 1.0
    ensures x * k * l == x && y * k * l == y
  {
    assert k * l == 1.0;
    calc {
      (x * k) * (x * k) + (y * k) * (y * k);
      (Sq(x) + Sq(y)) * (k * k);
      Sq(l) * (k * k);
      (l * k) * (l * k);
    }
  }

  /** Scaling a vector scales its dot product with any other. */
  lemma ScaleDot(u: Vector, k: real, w: Vector)
    ensures u.Scale(k).Dot(w) == k * u.Dot(w)
  {
    assert (u.X * k) * w.X == k * (u.X * w.X);
    assert (u.Y * k) * w.Y == k * (u.Y * w.Y);
  }

  /** The dot product distributes over a difference. */
  lemma SubDot(v: Vector, s: Vector, w: Vector)
    ensures v.Sub(s).Dot(w) == v.Dot(w) - s.Dot(w)
  {
    assert (v.X - s.X) * w.X == v.X * w.X - s.X * w.X;
    assert (v.Y - s.Y) * w.Y == v.Y * w.Y - s.Y * w.Y;
  }

  /** The dot product distributes over a sum. */
  lemma AddDot(v: Vector, s: Vector, w: Vector)
    ensures v.Add(s).Dot(w) == v.Dot(w) + s.Dot(w)
  {
    assert (v.X + s.X) * w.X == v.X * w.X + s.X * w.X;
    assert (v.Y + s.Y) * w.Y == v.Y * w.Y + s.Y * w.Y;
  }

  /** The squared length of v - k n, expanded. */
  lemma SubScaledSquare(v: Vector, n: Vector, k: real)
    ensures var d := v.Sub(n.Scale(k));
            d.Dot(d) == v.Dot(v) - 2.0 * k * v.Dot(n) + k * k * n.Dot(n)
  {
    var d := v.Sub(n.Scale(k));
    assert d.X * d.X == v.X * v.X - 2.0 * k * (v.X * n.X) + k * k * (n.X * n.X);
    assert d.Y * d.Y == v.Y * v.Y - 2.0 * k * (v.Y * n.Y) + k * k * (n.Y * n.Y);
  }

  /** The squared length of v + k n, expanded. */
  lemma AddScaledSquare(v: Vector, n: Vector, k: real)
    ensures var d := v.Add(n.Scale(k));
            d.Dot(d) == v.Dot(v) + 2.0 * k * v.Dot(n) + k * k * n.Dot(n)
  {
    var d := v.Add(n.Scale(k));
    assert d.X * d.X == v.X * v.X + 2.0 * k * (v.X * n.X) + k * k * (n.X * n.X);
    assert d.Y * d.Y == v.Y * v.Y + 2.0 * k * (v.Y * n.Y) + k * k * (n.Y * n.Y);
  }

  /** Reflection subtracts the normal scaled by twice the component along it. */
  lemma ReflectIsSub(v: Vector, n: Vector)
    ensures v.Reflect(n) == v.Sub(n.Scale(2.0 * v.Dot(n)))
  {
    var a := 2.0 * v.Dot(n);
    assert a * n.X == n.X * a && a * n.Y == n.Y * a;
  }

  /** Measured along any w, reflection subtracts twice the normal component times n.w. */
  lemma ReflectDot(v: Vector, n: Vector, w: Vector)
    ensures v.Reflect(n).Dot(w) == v.Dot(w) - 2.0 * v.Dot(n) * n.Dot(w)
  {
    var a := 2.0 * v.Dot(n);
    ReflectIsSub(v, n);
    SubDot(v, n.Scale(a), w);
    ScaleDot(n, a, w);
  }

  /** Reflecting off a unit normal negates the component along the normal. */
  lemma ReflectFlipsNormal(v: Vector, n: Vector)
    requires IsUnit(n)
    ensures v.Reflect(n).Dot(n) == -v.Dot(n)
  {
    ReflectDot(v, n, n);
    assert 2.0 * v.Dot(n) * n.Dot(n) == 2.0 * v.Dot(n) * 1.0;
  }

  /** Reflecting twice off the same unit normal is the identity. */
  lemma ReflectInvolution(v: Vector, n: Vector)
    requires IsUnit(n)
    ensures v.Reflect(n).Reflect(n) == v
  {
    var r := v.Reflect(n);
    ReflectFlipsNormal(v, n);
    ReflectIsSub(v, n);
    ReflectIsSub(r, n);
    var a := 2.0 * v.Dot(n);
    assert r.Dot(n) == -v.Dot(n);
    assert 2.0 * r.Dot(n) == -a;
    assert r.Reflect(n) == r.Sub(n.Scale(-a));
    assert n.X * -a == -(n.X * a) && n.Y * -a == -(n.Y * a);
  }

  /** Reflection leaves unchanged the component along any direction perpendicular to the normal. */
  lemma ReflectKeepsTangent(v: Vector, n: Vector, t: Vector)
    requires t.Dot(n) == 0.0
    ensures v.Reflect(n).Dot(t) == v.Dot(t)
  {
    ReflectDot(v, n, t);
    DotSymmetric(n, t);
    assert 2.0 * v.Dot(n) * n.Dot(t) == 2.0 * v.Dot(n) * 0.0;
  }

  /** Reflecting off a normal or off its negation gives the same vector. */
  lemma ReflectNegatedNormal(v: Vector, n: Vector)
    ensures v.Reflect(n.Scale(-1.0)) == v.Reflect(n)
  {
    var d := v.Dot(n);
    var neg := n.Scale(-1.0);
    assert neg == Vector(-n.X, -n.Y);
    assert v.Dot(neg) == -d;
    assert (2.0 * -d) * -n.X == (2.0 * d) * n.X;
    assert (2.0 * -d) * -n.Y == (2.0 * d) * n.Y;
  }

  /** The pivot of a rotation does not move, for any angle and any sine and cosine. */
  lemma RotateAroundPivot(origin: Point, angle: real, m: Math)
    ensures origin.RotateAround(origin, angle, m) == origin
  {}

  /** With sin^2 + cos^2 = 1, rotation keeps the squared distance to the pivot. */
  lemma RotateAroundKeepsDistance(p: Point, origin: Point, angle: real, m: Math)
    requires m.TrigLaws()
    ensures var d := p.RotateAround(origin, angle, m).Sub(origin);
            var e := p.Sub(origin);
            d.X * d.X + d.Y * d.Y == e.X * e.X + e.Y * e.Y
  {
    var s, c := m.Sin(angle), m.Cos(angle);
    assert Sq(s) + Sq(c) == 1.0;
    var t := p.Sub(origin);
    RotationIsometry(t.X, t.Y, s, c);
  }

  /** The arithmetic of RotateAroundKeepsDistance. */
  lemma RotationIsometry(x: real, y: real, s: real, c: real)
    requires Sq(s) + Sq(c) == 1.0
    ensures (x * c - y * s) * (x * c - y * s) + (x * s + y * c) * (x * s + y * c) == x * x + y * y
  {
    calc {
      (x * c - y * s) * (x * c - y * s) + (x * s + y * c) * (x * s + y * c);
      x * x * (Sq(s) + Sq(c)) + y * y * (Sq(s) + Sq(c));
    }
  }
}

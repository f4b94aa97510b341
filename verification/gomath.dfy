/**
 * The three functions of Go's `math` package that the collision code calls.
 * They are foreign code, so every operation that needs them takes them as a
 * parameter; a lemma that depends on what they mean asks for the laws below.
 */
module GoMath {

  import opened RealFacts

  /** `math.Sqrt`, `math.Sin` and `math.Cos`, as functions on the reals. */
  datatype Math = Math(Sqrt: real -> real, Sin: real -> real, Cos: real -> real)
  {
    /** Sqrt is the non-negative square root on the non-negative reals. */
    ghost predicate SqrtLaws() {
      forall x: real :: 0.0 <= x ==> 0.0 <= Sqrt(x) && Sq(Sqrt(x)) == x
    }

    /** Sin and Cos lie on the unit circle, and angle 0 is the identity rotation. */
    ghost predicate TrigLaws() {
      (forall a: real :: Sq(Sin(a)) + Sq(Cos(a)) == 1.0)
      && Sin(0.0) == 0.0 && Cos(0.0) == 1.0
    }
  }

  /** Under the square-root law, Sqrt(x) is zero exactly when x is. */
  lemma SqrtZeroIff(m: Math, x: real)
    requires m.SqrtLaws() && 0.0 <= x
    ensures m.Sqrt(x) == 0.0 <==> x == 0.0
  {
    var r := m.Sqrt(x);
    assert 0.0 <= r && Sq(r) == x;
    SqZero(r);
  }

  /** Under the square-root law, the root of a positive number is positive. */
  lemma SqrtPos(m: Math, x: real)
    requires m.SqrtLaws() && 0.0 < x
    ensures 0.0 < m.Sqrt(x)
  {
    SqrtZeroIff(m, x);
  }

  /** Under the square-root law, the root of a perfect square Sq(s) (s >= 0) is s. */
  lemma SqrtOfSquare(m: Math, s: real)
    requires m.SqrtLaws() && 0.0 <= s
    ensures m.Sqrt(Sq(s)) == s
  {
    SqNonneg(s);
    var r := m.Sqrt(Sq(s));
    assert 0.0 <= r && Sq(r) == Sq(s);
    SqInjective(r, s);
  }

  /** Under the square-root law, a root is below a positive bound exactly when its radicand is below the bound squared. */
  lemma SqrtLess(m: Math, x: real, b: real)
    requires m.SqrtLaws() && 0.0 <= x && 0.0 < b
    ensures m.Sqrt(x) < b <==> x < Sq(b)
  {
    var r := m.Sqrt(x);
    assert 0.0 <= r && Sq(r) == x;
    if r < b {
      SqLess(r, b);
    } else {
      SqLessEq(b, r);
    }
  }

  /** The unit-circle law at one angle. */
  lemma SinCosUnit(m: Math, angle: real)
    requires m.TrigLaws()
    ensures Sq(m.Sin(angle)) + Sq(m.Cos(angle)) == 1.0
  {}
}

/**
 * Small facts of real arithmetic, each proved on its own so that larger
 * proofs only ever combine them linearly.  Squares are written with `Sq`
 * so that the solver treats them as atoms outside this module.
 */
module RealFacts {

  /** The square of a real. */
  function Sq(a: real): real {
    a * a
  }

  lemma ZeroProduct(a: real, b: real)
    requires a * b == 0.0
    ensures a == 0.0 || b == 0.0
  {}

  lemma ProductNonneg(a: real, b: real)
    requires 0.0 <= a && 0.0 <= b
    ensures 0.0 <= a * b
  {}

  lemma ProductPos(a: real, b: real)
    requires 0.0 < a && 0.0 < b
    ensures 0.0 < a * b
  {}

  lemma NegativeProductPos(a: real, b: real)
    requires a < 0.0 && b < 0.0
    ensures 0.0 < a * b
  {}

  lemma SqNonneg(a: real)
    ensures 0.0 <= Sq(a)
  {
    if a < 0.0 {
      NegativeProductPos(a, a);
    } else if 0.0 < a {
      ProductPos(a, a);
    }
  }

  lemma SqZero(a: real)
    ensures Sq(a) == 0.0 <==> a == 0.0
  {
    if Sq(a) == 0.0 {
      ZeroProduct(a, a);
    }
  }

  lemma SqPos(a: real)
    requires a != 0.0
    ensures 0.0 < Sq(a)
  {
    SqNonneg(a);
    SqZero(a);
  }

  lemma SumOfSqPos(a: real, b: real)
    requires a != 0.0 || b != 0.0
    ensures 0.0 < Sq(a) + Sq(b)
  {
    SqNonneg(a);
    SqNonneg(b);
    if a != 0.0 {
      SqPos(a);
    } else {
      SqPos(b);
    }
  }

  /** Two non-negative reals with the same square are equal. */
  lemma SqInjective(a: real, b: real)
    requires 0.0 <= a && 0.0 <= b && Sq(a) == Sq(b)
    ensures a == b
  {
    assert (a - b) * (a + b) == Sq(a) - Sq(b);
    ZeroProduct(a - b, a + b);
  }

  lemma SqLess(a: real, b: real)
    requires 0.0 <= a < b
    ensures Sq(a) < Sq(b)
  {
    ProductNonneg(a, b - a);
    ProductPos(b, b - a);
    OrderedAtoms(Sq(a), a * b, Sq(b), a * (b - a), b * (b - a));
  }

  lemma SqLessEq(a: real, b: real)
    requires 0.0 <= a <= b
    ensures Sq(a) <= Sq(b)
  {
    if a < b {
      SqLess(a, b);
    }
  }

  /** The linear step of SqLess, over atoms. */
  lemma OrderedAtoms(aa: real, ab: real, bb: real, p: real, q: real)
    requires p == ab - aa && q == bb - ab && 0.0 <= p && 0.0 < q
    ensures aa < bb
  {}
}

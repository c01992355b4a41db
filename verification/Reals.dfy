// Facts about products and quotients of reals that the solver does not find on its own.

module Reals {

  ghost function Product(a: real, b: real): real { a * b }

  lemma Stretch(a: real, b: real, t: real)
    requires a <= b && 0.0 <= t
    ensures a * t <= b * t
  {
    assert (b - a) * t >= 0.0;
  }

  lemma Cancel(a: real, b: real, t: real)
    requires t > 0.0
    ensures a * t <= b * t <==> a <= b
    ensures a * t == b * t <==> a == b
  {
    if a <= b {
      Stretch(a, b, t);
    } else {
      assert (a - b) * t > 0.0;
    }
  }

  lemma ProductOrder(a: real, b: real, t: real)
    requires a <= b && 0.0 <= t
    ensures Product(a, t) <= Product(b, t)
    ensures Product(0.0, t) == 0.0 && Product(100.0, t) == 100.0 * t
  {
    Stretch(a, b, t);
  }

  lemma ProductLess(a: real, b: real, t: real)
    requires a < b && 0.0 < t
    ensures Product(a, t) < Product(b, t)
  {
    var d := b - a;
    PositiveProduct(d, t);
    assert Product(b, t) == (a + d) * t == a * t + d * t == Product(a, t) + d * t;
  }

  lemma PositiveProduct(a: real, t: real)
    requires a > 0.0 && t > 0.0
    ensures a * t > 0.0
  {
  }

  /** A quotient compared with r is its numerator compared with r times the denominator. */
  lemma Scaled(r: real, a: real, t: real)
    requires t > 0.0
    ensures a / t * t == a
    ensures a / t <= r <==> a <= r * t
    ensures r <= a / t <==> r * t <= a
  {
    Cancel(a / t, r, t);
    Cancel(r, a / t, t);
  }

  lemma Quotient(a: real, b: real, t: real)
    requires a <= b && t > 0.0
    ensures a / t <= b / t
  {
    Scaled(b / t, a, t);
    Scaled(b / t, b, t);
  }

  lemma Distribute(c: real, a: real, b: real)
    ensures c * (a + b) == c * a + c * b
  {
  }

  lemma CancelOne(s: real, t: real, x: real)
    requires t > 0.0 && x == t * s && x == t
    ensures s == 1.0
  {
    Cancel(s, 1.0, t);
  }

  lemma QuotientIs(q: real, a: real, t: real)
    requires t > 0.0 && t * q == a
    ensures q == a / t
  {
    Scaled(q, a, t);
    Cancel(q, a / t, t);
  }
}

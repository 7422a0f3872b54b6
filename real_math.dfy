/** Real-number helpers standing in for the math library.
    Doubles are modelled as `real`; the square root is passed around as a
    function value and every proof that needs its meaning requires `IsSqrt`. */
module RealMath {

  type RealFn = real -> real

  /** `sqrt` behaves as the square root on the non-negative reals. */
  ghost predicate IsSqrt(sqrt: RealFn) {
    forall x :: 0.0 <= x ==> 0.0 <= sqrt(x) && sqrt(x) * sqrt(x) == x
  }

  function Abs(x: real): (r: real)
    ensures 0.0 <= r && (r == x || r == -x)
  {
    if x < 0.0 then -x else x
  }

  function Min(a: real, b: real): (r: real)
    ensures r <= a && r <= b && (r == a || r == b)
  {
    if a <= b then a else b
  }

  function Max(a: real, b: real): (r: real)
    ensures a <= r && b <= r && (r == a || r == b)
  {
    if a <= b then b else a
  }

  /** An upper bound that may be +infinity (Python's float('inf'), C++'s `infinity`). */
  datatype Bound = Finite(value: real) | Infinity {
    predicate Admits(t: real) {
      Infinity? || t <= value
    }
  }

  /** The only square root of a non-negative square is the absolute value. */
  lemma SqrtOfSquare(sqrt: RealFn, a: real)
    requires IsSqrt(sqrt)
    ensures sqrt(a * a) == Abs(a)
  {
    var s := sqrt(a * a);
    assert 0.0 <= s && s * s == a * a;
    ZeroProduct(s - Abs(a), s + Abs(a));
  }

  lemma ZeroProduct(a: real, b: real)
    requires a * b == 0.0
    ensures a == 0.0 || b == 0.0
  {
    if a != 0.0 {
      assert b == (a * b) / a;
    }
  }

  lemma SqrtOne(sqrt: RealFn)
    requires IsSqrt(sqrt)
    ensures sqrt(1.0) == 1.0
  {
    SqrtOfSquare(sqrt, 1.0);
  }

  lemma SqrtPositive(sqrt: RealFn, x: real)
    requires IsSqrt(sqrt) && 0.0 < x
    ensures 0.0 < sqrt(x)
  {
  }

  /** `sqrt` is monotone: this is what bounds a gamma-corrected channel. */
  lemma SqrtBelowOne(sqrt: RealFn, x: real)
    requires IsSqrt(sqrt) && 0.0 <= x <= 1.0
    ensures sqrt(x) <= 1.0
  {
    var s := sqrt(x);
    assert (s - 1.0) * (s + 1.0) == s * s - 1.0;
    NonPositiveFactor(s - 1.0, s + 1.0);
  }

  lemma ProductPositiveIf(a: real, b: real)
    ensures 0.0 < a && 0.0 < b ==> 0.0 < a * b
  {
    if 0.0 < a && 0.0 < b {
      PositiveProduct(a, b);
    }
  }

  /** A factor whose product with a positive number is not positive is not
      positive. */
  lemma NonPositiveFactor(p: real, q: real)
    requires 0.0 < q && p * q <= 0.0
    ensures p <= 0.0
  {
    ProductPositiveIf(p, q);
  }

  lemma SquareNonNegative(a: real)
    ensures 0.0 <= a * a
  {
  }

  lemma PositiveProduct(a: real, b: real)
    requires 0.0 < a && 0.0 < b
    ensures 0.0 < a * b
  {
  }
}

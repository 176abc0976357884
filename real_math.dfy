/**
 * The square root and natural logarithm of Python's math module, reduced
 * to the laws this model relies on. Both are passed around as function
 * values; every result that depends on them states the law it needs.
 */
module RealMath {

  /** math.sqrt on non-negative arguments: a non-negative square root. */
  ghost predicate IsSqrt(sqrt: real -> real) {
    forall x :: 0.0 <= x ==> 0.0 <= sqrt(x) && sqrt(x) * sqrt(x) == x
  }

  /** math.log: log(1) is 0 and the logarithm of anything above 1 is positive. */
  ghost predicate IsLog(log: real -> real) {
    log(1.0) == 0.0 && forall x :: 1.0 < x ==> 0.0 < log(x)
  }

  lemma SqrtZeroIff(sqrt: real -> real, x: real)
    requires IsSqrt(sqrt) && 0.0 <= x
    ensures sqrt(x) == 0.0 <==> x == 0.0
    ensures 0.0 < x ==> 0.0 < sqrt(x)
  {
    var r := sqrt(x);
    assert 0.0 <= r && r * r == x;
    if 0.0 < r {
      calc { x; == r * r; > 0.0; }
    }
  }

  /** The logarithm of a ratio n / d with 0 < d <= n is zero exactly when d == n, and never negative. */
  lemma LogOfRatio(log: real -> real, n: real, d: real)
    requires IsLog(log) && 0.0 < d <= n
    ensures 0.0 <= log(n / d)
    ensures log(n / d) == 0.0 <==> d == n
  {
    if d < n {
      assert 1.0 < n / d;
    } else {
      assert n / d == 1.0;
    }
  }
}

/** includes/ConstSqrt.hpp: integer square root by Newton's method. */
module ConstSqrt {
  /** C++ integer division, which truncates toward zero (Dafny's `/` is Euclidean). */
  function TruncDiv(a: int, b: int): (q: int)
    requires b > 0
    ensures a >= 0 ==> q == a / b
    ensures a < 0 ==> q == -((-a) / b)
  {
    if a >= 0 then a / b else -((-a) / b)
  }

  /** Multiplying by a non-negative number keeps the order. */
  lemma MulMonotone(a: int, b: int, x: int)
    requires x >= 0
    ensures a >= b ==> a * x >= b * x
  {
    if a >= b {
      assert a * x - b * x == (a - b) * x;
    }
  }

  /** Squares of non-negative numbers are ordered like the numbers. */
  lemma SquareMonotone(a: int, b: int)
    requires a >= 0 && b >= 0
    ensures a <= b ==> a * a <= b * b
  {
    if a <= b {
      MulMonotone(b, a, b);
      MulMonotone(b, a, a);
    }
  }

  /** A square is at least the product (2s - x) * x: the difference is (s - x) * (s - x). */
  lemma SquareAboveTangent(s: int, x: int)
    ensures s * s >= (2 * s - x) * x
  {
    assert (2 * s - x) * x == 2 * s * x - x * x;
    assert s * s - (2 * s * x - x * x) == (s - x) * (s - x);
  }

  /** n is less than (n / x + 1) * x. */
  lemma BelowNextMultiple(n: int, x: int)
    requires n >= 0 && x >= 1
    ensures n < (n / x + 1) * x
  {
    var q := n / x;
    assert n == q * x + n % x && n % x < x;
    assert (q + 1) * x == q * x + x;
  }

  /** The Newton step (x + n / x) / 2 never falls below a square root from below (AM-GM for integers). */
  lemma StepStaysAbove(n: int, x: int, s: int)
    requires n >= 0 && x >= 1 && s >= 0 && s * s <= n
    ensures (x + n / x) / 2 >= s
  {
    var q := n / x;
    BelowNextMultiple(n, x);
    SquareAboveTangent(s, x);
    MulMonotone(2 * s - x, q + 1, x);
    var above, tangent := (q + 1) * x, (2 * s - x) * x;
    assert n < above && tangent <= s * s;
    assert 2 * s - x < q + 1;
  }

  /** Every Newton estimate is at least the floor of the square root. */
  lemma StepAboveRoot(n: int, x: int)
    requires n >= 0 && x >= 1
    ensures var y := (x + n / x) / 2; (y + 1) * (y + 1) > n
  {
    var y := (x + n / x) / 2;
    assert y >= 0;
    if (y + 1) * (y + 1) <= n {
      StepStaysAbove(n, x, y + 1);
    }
  }

  /** While the estimate is above the root, the Newton step strictly decreases it. */
  lemma StepDecreases(n: int, x: int)
    requires n >= 0 && x >= 1 && x * x > n
    ensures (x + n / x) / 2 < x
  {
    var q := n / x;
    assert q * x <= n by {
      assert n == q * x + n % x;
    }
    MulMonotone(q, x, x);
  }

  /**
   * ConstSqrt(number): the floor of the square root of a non-negative number (the exact root of a
   * perfect square); a negative number is returned unchanged.
   */
  method ConstSqrt(number: int) returns (r: int)
    ensures number >= 0 ==> r >= 0 && r * r <= number < (r + 1) * (r + 1)
    ensures number < 0 ==> r == number
  {
    var currentEstimate := number;
    var nextEstimate := TruncDiv(currentEstimate + 1, 2);
    while nextEstimate < currentEstimate
      invariant number <= 0 ==> currentEstimate == number && nextEstimate >= currentEstimate
      invariant number >= 1 ==> currentEstimate >= 1
      invariant number >= 1 ==> nextEstimate == (currentEstimate + number / currentEstimate) / 2
      invariant number >= 1 ==> (currentEstimate + 1) * (currentEstimate + 1) > number
      invariant number >= 1 ==> (nextEstimate + 1) * (nextEstimate + 1) > number
      decreases currentEstimate
    {
      currentEstimate := nextEstimate;
      StepAboveRoot(number, currentEstimate);
      nextEstimate := TruncDiv(currentEstimate + TruncDiv(number, currentEstimate), 2);
    }
    if number >= 1 && currentEstimate * currentEstimate > number {
      StepDecreases(number, currentEstimate);
    }
    return currentEstimate;
  }

  /** The result for a perfect square k * k is k. */
  lemma RootOfSquare(k: int, r: int)
    requires k >= 0 && r >= 0 && r * r <= k * k < (r + 1) * (r + 1)
    ensures r == k
  {
    SquareMonotone(r + 1, k);
    SquareMonotone(k + 1, r);
  }
}

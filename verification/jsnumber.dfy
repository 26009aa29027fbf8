/** The JavaScript number operations the views use, on exact integers and
    rationals: `Math.round(n / d)`, `Math.ceil(n / d)` and the remainder `%`,
    which truncates toward zero. */
module JsNumber {

  /** `Math.round(n / d)` for a positive divisor: the nearest integer, halves rounded up. */
  function RoundDiv(n: int, d: int): (r: int)
    requires d > 0
    ensures 2 * r * d - d <= 2 * n < 2 * r * d + d
  {
    var q := (2 * n + d) / (2 * d);
    assert (2 * n + d) == q * (2 * d) + (2 * n + d) % (2 * d);
    q
  }

  /** `Math.ceil(n / d)` for a positive divisor: the least integer `r` with `n <= r * d`. */
  function CeilDiv(n: int, d: int): (r: int)
    requires d > 0
    ensures (r - 1) * d < n <= r * d
  {
    var q := (n + d - 1) / d;
    assert n + d - 1 == q * d + (n + d - 1) % d;
    q
  }

  /** The integer part of `a / b` in JavaScript, truncated toward zero. */
  function TruncQuot(a: int, b: int): int
    requires b > 0
  {
    if a >= 0 then a / b else -((-a) / b)
  }

  /** `a % b` in JavaScript for a positive `b`: `a` minus the truncated multiple of `b`,
      so the remainder carries the sign of `a`. */
  function TruncRem(a: int, b: int): (r: int)
    requires b > 0
    ensures -b < r < b
    ensures a >= 0 ==> 0 <= r
    ensures a <= 0 ==> r <= 0
  {
    var q := TruncQuot(a, b);
    if a >= 0 then
      assert a == b * (a / b) + a % b;
      a - b * q
    else
      assert -a == b * ((-a) / b) + (-a) % b;
      a - b * q
  }

  /** `Math.ceil` is monotonic in the numerator. */
  lemma CeilDivMonotonic(n1: int, n2: int, d: int)
    requires d > 0 && n1 <= n2
    ensures CeilDiv(n1, d) <= CeilDiv(n2, d)
  {
    var r1, r2 := CeilDiv(n1, d), CeilDiv(n2, d);
    var x := r2 + 1 - r1;
    assert x * d == r2 * d - (r1 - 1) * d;
    MulPositive(x, d);
  }

  /** A rounded percentage `Math.round(100 * part / whole)` of a positive whole is
      non-negative for a non-negative part and at most 100 for a part not above the whole. */
  lemma RoundPercentBounds(part: int, whole: int)
    requires whole > 0
    ensures 0 <= part ==> 0 <= RoundDiv(100 * part, whole)
    ensures part <= whole ==> RoundDiv(100 * part, whole) <= 100
  {
    var r := RoundDiv(100 * part, whole);
    if 0 <= part {
      assert (r + 1) * (2 * whole) > 0;
      MulPositive(r + 1, 2 * whole);
    }
    if part <= whole {
      assert (r - 100) * (2 * whole) < 2 * whole;
      MulBelowDivisor(r - 100, 2 * whole);
    }
  }

  /** A positive product with a positive factor has a positive other factor. */
  lemma MulPositive(x: int, d: int)
    requires d > 0 && x * d > 0
    ensures x > 0
  {
  }

  /** A product below its positive factor `d` has its other factor below 1. */
  lemma MulBelowDivisor(x: int, d: int)
    requires d > 0 && x * d < d
    ensures x < 1
  {
    assert (1 - x) * d == d - x * d;
    MulPositive(1 - x, d);
  }
}

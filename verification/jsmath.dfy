/** The JavaScript arithmetic the dashboard relies on, over exact numbers. */
module JsMath {

  /** `Math.round`: the integer nearest to `x`, halves going up. */
  function Round(x: real): (r: int)
    ensures -0.5 <= x - r as real < 0.5
  {
    (x + 0.5).Floor
  }

  /** `Math.round(a / b * 100)`: `a` as a whole percentage of `b`. */
  function Percent(a: int, b: int): (r: int)
    requires b != 0
    ensures -0.5 <= (a as real) / (b as real) * 100.0 - r as real < 0.5
  {
    Round((a as real) / (b as real) * 100.0)
  }

  /** Rounding is monotone, so bounds on `x` carry over to `Round(x)`. */
  lemma RoundMonotone(x: real, y: real)
    requires x <= y
    ensures Round(x) <= Round(y)
  {
  }

  /** A whole number rounds to itself. */
  lemma RoundWhole(n: int)
    ensures Round(n as real) == n
  {
  }

  /** Dividing by a positive number keeps the sign, and compares with 1 as
      the dividend compares with the divisor. */
  lemma QuotientSigns(a: real, b: real)
    requires b > 0.0
    ensures a / b >= 0.0 <==> a >= 0.0
    ensures a / b <= 1.0 <==> a <= b
    ensures a / b >= 1.0 <==> a >= b
  {
    var q := a / b;
    assert a == q * b;
    ProductSign(q, b);
    assert a - b == (q - 1.0) * b;
    ProductSign(q - 1.0, b);
  }

  /** Multiplying by a positive number keeps the sign. */
  lemma ProductSign(x: real, b: real)
    requires b > 0.0
    ensures x >= 0.0 <==> x * b >= 0.0
    ensures x <= 0.0 <==> x * b <= 0.0
  {
    if x > 0.0 {
      assert x * b > 0.0;
    } else if x < 0.0 {
      assert x * b < 0.0;
    }
  }

  /** A part between zero and a positive whole is between 0 and 100 percent of it. */
  lemma PercentBounds(a: int, b: int)
    requires 0 <= a <= b && b > 0
    ensures 0 <= Percent(a, b) <= 100
  {
    var q := (a as real) / (b as real);
    QuotientSigns(a as real, b as real);
    RoundMonotone(0.0, q * 100.0);
    RoundMonotone(q * 100.0, 100.0);
    RoundWhole(0);
    RoundWhole(100);
  }

  /** A part at least as large as a positive whole is at least 100 percent of it. */
  lemma PercentAtLeastWhole(a: int, b: int)
    requires a >= b > 0
    ensures Percent(a, b) >= 100
  {
    var q := (a as real) / (b as real);
    QuotientSigns(a as real, b as real);
    RoundMonotone(100.0, q * 100.0);
    RoundWhole(100);
  }

  /** The whole is 100 percent of itself. */
  lemma PercentOfWhole(b: int)
    requires b != 0
    ensures Percent(b, b) == 100
  {
    assert (b as real) / (b as real) == 1.0;
    RoundWhole(100);
  }
}

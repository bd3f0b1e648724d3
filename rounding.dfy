// Rounding a balance to two decimal places, as `round(saldo, 2)` does when a
// day's balance is stored. Balances are exact reals here, so the rounding is
// to the nearest cent with ties going to the even cent.
module Rounding {

  /** `c` cents is a nearest cent to `x`, and on an exact tie it is the even one. */
  ghost predicate IsNearestCent(x: real, c: int) {
    && -0.5 <= c as real - x * 100.0 <= 0.5
    && (c as real - x * 100.0 == 0.5 || c as real - x * 100.0 == -0.5 ==> c % 2 == 0)
  }

  /** The amount `x` rounded to a whole number of cents. */
  function RoundCents(x: real): (c: int)
    ensures -0.5 <= c as real - x * 100.0 <= 0.5
    ensures c as real - x * 100.0 == 0.5 || c as real - x * 100.0 == -0.5 ==> c % 2 == 0
  {
    var y := x * 100.0;
    var f := y.Floor;
    var d := y - f as real;
    if d < 0.5 then f
    else if d > 0.5 then f + 1
    else if f % 2 == 0 then f
    else f + 1
  }

  /** `round(x, 2)`: the amount `x` rounded to two decimal places. */
  function Round2(x: real): (r: real)
    ensures -0.005 <= r - x <= 0.005
    ensures r * 100.0 == RoundCents(x) as real
  {
    RoundCents(x) as real / 100.0
  }

  /** Only one whole number of cents is nearest to `x` under the ties-to-even rule. */
  lemma RoundCentsUnique(x: real, c: int)
    requires IsNearestCent(x, c)
    ensures c == RoundCents(x)
  {
  }

  /** Rounding to cents never reverses the order of two amounts. */
  lemma RoundCentsMonotone(x: real, y: real)
    requires x <= y
    ensures RoundCents(x) <= RoundCents(y)
  {
  }

  /** Rounding to two places never reverses the order of two amounts. */
  lemma Round2Monotone(x: real, y: real)
    requires x <= y
    ensures Round2(x) <= Round2(y)
  {
    RoundCentsMonotone(x, y);
  }

  /** A non-negative amount rounds to a non-negative number of cents. */
  lemma RoundCentsNonNegative(x: real)
    requires x >= 0.0
    ensures RoundCents(x) >= 0
  {
  }

  /** Rounding an amount that is already a whole number of cents changes nothing. */
  lemma RoundCentsOfCents(c: int)
    ensures RoundCents(c as real / 100.0) == c
  {
    assert (c as real / 100.0) * 100.0 == c as real;
    assert c % 2 == 0 || c % 2 != 0;
    RoundCentsUnique(c as real / 100.0, c);
  }

  /** Rounding twice to two places is the same as rounding once. */
  lemma Round2Idempotent(x: real)
    ensures Round2(Round2(x)) == Round2(x)
  {
    RoundCentsOfCents(RoundCents(x));
  }
}

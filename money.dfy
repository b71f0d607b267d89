/** Exact decimal arithmetic of BigDecimal as the transfer uses it: amounts
    are reals, and `divide(d, 0, RoundingMode.HALF_UP)` rounds to a whole
    number, ties away from zero. */
module Money {

  function RoundHalfUp(x: real): (n: int)
    ensures (n as real) - x <= 0.5 && x - (n as real) <= 0.5
    ensures (n as real) - x == 0.5 ==> x > 0.0
    ensures x - (n as real) == 0.5 ==> x < 0.0
  {
    if x >= 0.0 then (x + 0.5).Floor else -((-x + 0.5).Floor)
  }

  /** Rounding is symmetric about zero. */
  lemma RoundHalfUpOdd(x: real)
    ensures RoundHalfUp(-x) == -RoundHalfUp(x)
  {
  }

  /** The contract pins the result down: any whole number within one half of
      `x` that breaks a tie away from zero is RoundHalfUp(x). */
  lemma {:induction false} RoundHalfUpUnique(x: real, m: int)
    requires (m as real) - x <= 0.5 && x - (m as real) <= 0.5
    requires (m as real) - x == 0.5 ==> x > 0.0
    requires x - (m as real) == 0.5 ==> x < 0.0
    ensures m == RoundHalfUp(x)
  {
    var n := RoundHalfUp(x);
    assert -1.0 <= (m as real) - (n as real) <= 1.0;
  }

  /** Whole numbers are left alone. */
  lemma RoundHalfUpWhole(k: int)
    ensures RoundHalfUp(k as real) == k
  {
  }
}

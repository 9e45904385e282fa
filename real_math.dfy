/** Exact real-number stand-ins for the two JavaScript Math functions the
    calculator uses: Math.round and Math.pow with a whole exponent. */
module RealMath {

  /** Math.round: the nearest integer, a tie going up (toward +infinity). */
  function Round(x: real): (n: int)
    ensures n as real - 0.5 <= x < n as real + 0.5
  {
    (x + 0.5).Floor
  }

  /** Rounding never reverses the order of two numbers. */
  lemma RoundMonotone(x: real, y: real)
    requires x <= y
    ensures Round(x) <= Round(y)
  {
  }

  /** Adding a whole number commutes with rounding. */
  lemma RoundShift(x: real, k: int)
    ensures Round(x + k as real) == Round(x) + k
  {
  }

  /** Rounding two addends separately loses at most one unit on their sum. */
  lemma RoundSumWithinOne(a: real, b: real)
    ensures -1 <= Round(a + b) - Round(a) - Round(b) <= 1
  {
  }

  /** The smaller of two numbers. */
  function Min(a: int, b: int): (m: int)
    ensures m <= a && m <= b
    ensures m == a || m == b
  {
    if a <= b then a else b
  }

  /** b raised to a whole power n: Math.pow(b, n) for a whole exponent. */
  function Pow(b: real, n: nat): (p: real)
    ensures b >= 1.0 ==> p >= 1.0
    ensures b > 0.0 ==> p > 0.0
  {
    if n == 0 then 1.0 else b * Pow(b, n - 1)
  }

  /** Bernoulli's inequality: (1 + r)^n >= 1 + n r for r >= 0. */
  lemma {:induction false} PowBernoulli(r: real, n: nat)
    requires r >= 0.0
    ensures Pow(1.0 + r, n) >= 1.0 + n as real * r
    decreases n
  {
    if n > 0 {
      PowBernoulli(r, n - 1);
      var p := Pow(1.0 + r, n - 1);
      var gain := r * p;
      assert Pow(1.0 + r, n) == p + gain;
      assert gain >= r by {
        assert p >= 1.0;
      }
      calc {
        1.0 + n as real * r;
        1.0 + (n - 1) as real * r + r;
      <= p + r;
      <= p + gain;
      }
    }
  }
}

/** JavaScript's `Math.round` applied to a quotient, in exact integer
    arithmetic: the nearest integer, a half rounding up. */
module Rounding {
  /** `Math.round(num / den)` for a positive `den`: the nearest integer, a
      half rounding up. */
  function RoundDiv(num: int, den: int): (r: int)
    requires den > 0
    ensures 2 * den * r <= 2 * num + den < 2 * den * (r + 1)
  {
    (2 * num + den) / (2 * den)
  }

  /** `Math.round(num / den)` for any non-zero `den`. */
  function Round(num: int, den: int): int
    requires den != 0
  {
    if den > 0 then RoundDiv(num, den) else RoundDiv(-num, -den)
  }

  lemma MulLessCancel(d: int, a: int, b: int)
    requires d > 0 && d * a < d * b
    ensures a < b
  {
  }

  /** Two integers both within half a unit of `num / den` are equal. */
  lemma RoundDivUnique(num: int, den: int, r: int)
    requires den > 0
    requires 2 * den * r <= 2 * num + den < 2 * den * (r + 1)
    ensures RoundDiv(num, den) == r
  {
    var q := RoundDiv(num, den);
    MulLessCancel(2 * den, q, r + 1);
    MulLessCancel(2 * den, r, q + 1);
  }

  lemma RoundDivBounds(num: int, den: int, hi: int)
    requires den > 0 && 0 <= num <= hi * den && hi >= 0
    ensures 0 <= RoundDiv(num, den) <= hi
  {
    var r := RoundDiv(num, den);
    MulLessCancel(2 * den, r, hi + 1);
    MulLessCancel(2 * den, 0, r + 1);
  }

  lemma RoundDivMonotone(a: int, b: int, den: int)
    requires den > 0 && a <= b
    ensures RoundDiv(a, den) <= RoundDiv(b, den)
  {
    MulLessCancel(2 * den, RoundDiv(a, den), RoundDiv(b, den) + 1);
  }

  lemma MulLeft(d: int, a: int, b: int)
    requires d >= 0 && a <= b
    ensures d * a <= d * b
  {
  }

  /** For a fixed non-negative numerator, a larger denominator never rounds
      to a larger quotient. */
  lemma RoundDivAntitone(num: int, den1: int, den2: int)
    requires num >= 0 && 0 < den1 <= den2
    ensures RoundDiv(num, den2) <= RoundDiv(num, den1)
  {
    var r1, r2 := RoundDiv(num, den1), RoundDiv(num, den2);
    MulLessCancel(2 * den1, -1, r1);
    MulLeft(2 * r1 + 1, den1, den2);
    assert (2 * r2 - 1) * den2 < (2 * r1 + 1) * den2;
    MulLessCancel(den2, 2 * r2 - 1, 2 * r1 + 1);
  }

  /** A percentage `100 * d / t` rounded: nothing or less rounds to at most
      0, everything or more to at least 100, and a share in between to a
      value in [0, 100]. */
  lemma RoundPercent(d: int, t: int)
    requires t > 0
    ensures d <= 0 ==> RoundDiv(100 * d, t) <= 0
    ensures d >= t ==> RoundDiv(100 * d, t) >= 100
    ensures 0 <= d <= t ==> 0 <= RoundDiv(100 * d, t) <= 100
  {
    RoundDivUnique(0, t, 0);
    RoundDivUnique(100 * t, t, 100);
    if d <= 0 {
      RoundDivMonotone(100 * d, 0, t);
    }
    if d >= t {
      RoundDivMonotone(100 * t, 100 * d, t);
    }
    if 0 <= d <= t {
      RoundDivBounds(100 * d, t, 100);
    }
  }
}

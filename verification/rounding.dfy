/** `Math.round(sum / n)` for an integer sum over `n > 0` items. */
module Rounding {

  /** `Math.round(sum / n)`, computed exactly on integers. */
  function RoundHalfUpMean(sum: int, n: int): int
    requires n > 0
  {
    (2 * sum + n) / (2 * n)
  }

  /** The result is the integer nearest the mean `sum / n`, halves rounded
      up (toward positive infinity, as `Math.round` does):
      `r - 1/2 <= sum / n < r + 1/2`. */
  lemma RoundHalfUpMeanIsNearest(sum: int, n: int)
    requires n > 0
    ensures var r := RoundHalfUpMean(sum, n);
      2 * n * r <= 2 * sum + n < 2 * n * (r + 1)
  {
    var q := (2 * sum + n) / (2 * n);
    assert 2 * sum + n == q * (2 * n) + (2 * sum + n) % (2 * n);
  }

  /** A rounded mean of values within `[lo, hi]` stays within `[lo, hi]`. */
  lemma RoundedMeanWithin(sum: int, n: int, lo: int, hi: int)
    requires n > 0
    requires n * lo <= sum <= n * hi
    ensures lo <= RoundHalfUpMean(sum, n) <= hi
  {
    var r := RoundHalfUpMean(sum, n);
    RoundHalfUpMeanIsNearest(sum, n);
    assert (2 * n) * r < (2 * n) * (hi + 1);
    CancelPositiveFactor(2 * n, r, hi + 1);
    assert (2 * n) * lo < (2 * n) * (r + 1);
    CancelPositiveFactor(2 * n, lo, r + 1);
  }

  lemma CancelPositiveFactor(c: int, a: int, b: int)
    requires c > 0 && c * a < c * b
    ensures a < b
  {
    assert c * (b - a) > 0;
  }

  /** Three values 10, 20 and 33 have mean 21, which rounds to 21; a mean of
      exactly one half rounds up, also for negative sums. */
  lemma RoundingExamples()
    ensures RoundHalfUpMean(10 + 20 + 33, 3) == 21
    ensures RoundHalfUpMean(5, 2) == 3
    ensures RoundHalfUpMean(-5, 2) == -2
  {
  }
}

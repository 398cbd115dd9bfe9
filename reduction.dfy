/** `reduceSize`: the payload length a record gets when it is rewritten. */
module Reduction {
  import opened Numerics
  import opened Config

  /** Multiplication: `(int) Math.ceil(curSize * REDUCTION)`; subtraction:
      `Math.max(1, curSize - (int) REDUCTION)`. */
  function ReduceSize(s: Settings, curSize: int): int
  {
    if s.reduceByMultiplication then Ceil(curSize as real * s.reduction)
    else Max(1, curSize - Trunc(s.reduction))
  }

  /** With the factor 0.5 of the default settings the reduction halves and
      rounds up; sizes of at least 2 strictly shrink and size 1 stays 1. */
  lemma HalvingReduction(s: Settings, n: int)
    requires s.reduceByMultiplication && s.reduction == 0.5
    ensures ReduceSize(s, n) == (n + 1) / 2
    ensures n >= 1 ==> 1 <= ReduceSize(s, n) <= n
    ensures n >= 2 ==> ReduceSize(s, n) < n
  {
    var h := (n + 1) / 2;
    if n % 2 == 0 {
      assert n as real * 0.5 == (n / 2) as real;
    } else {
      assert n as real * 0.5 + 0.5 == h as real;
    }
    CeilUnique(n as real * 0.5, h);
  }

  /** The subtractive policy never yields less than 1, and a step below 1
      (such as 0.5, which the cast truncates to 0) leaves a positive size
      unchanged. */
  lemma SubtractiveReduction(s: Settings, n: int)
    requires !s.reduceByMultiplication
    ensures ReduceSize(s, n) >= 1
    ensures ReduceSize(s, n) == Max(1, n - Trunc(s.reduction))
    ensures 0.0 <= s.reduction < 1.0 && n >= 1 ==> ReduceSize(s, n) == n
  {
  }

  /** Under valid settings a reduced size stays in `[1, n]`. */
  lemma ReduceSizeBounds(s: Settings, n: int)
    requires ValidSettings(s) && n >= 1
    ensures 1 <= ReduceSize(s, n) <= n
  {
    if s.reduceByMultiplication {
      var x := n as real * s.reduction;
      assert 0.0 < x by {
        assert n as real >= 1.0;
      }
      assert x <= n as real by {
        var m, d := n as real, 1.0 - s.reduction;
        assert m >= 0.0 && d >= 0.0;
        assert m * d >= 0.0;
        assert x == m - m * d;
      }
    }
  }
}

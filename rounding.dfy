/** Post-processing of predicted values: `clip(lower=0).round().astype(int)`.
    Values are exact reals here; `round` follows pandas (numpy) in rounding a value that
    lies exactly halfway between two integers to the even one. */
module Rounding {
  /** `clip(lower=0)`: negative values become 0; the result is the least non-negative value
      not below `v`. */
  function Clip(v: real): (r: real)
    ensures r >= 0.0 && r >= v
    ensures r == v || r == 0.0
  {
    if v < 0.0 then 0.0 else v
  }

  /** `round()` to 0 decimals, ties to even; the float-to-int cast after it is exact. */
  function RoundHalfEven(v: real): (r: int)
    ensures -0.5 <= r as real - v <= 0.5
    ensures r as real - v == 0.5 || v - r as real == 0.5 ==> r % 2 == 0
  {
    var f := v.Floor;
    var frac := v - f as real;
    if frac < 0.5 then f
    else if frac > 0.5 then f + 1
    else if f % 2 == 0 then f
    else f + 1
  }

  /** The two properties of RoundHalfEven determine it: there is exactly one integer within
      one half of `v` that, in case of a tie, is even. */
  lemma RoundHalfEvenUnique(v: real, n: int)
    requires -0.5 <= n as real - v <= 0.5
    requires n as real - v == 0.5 || v - n as real == 0.5 ==> n % 2 == 0
    ensures n == RoundHalfEven(v)
  {
  }

  /** An integer rounds to itself. */
  lemma {:induction false} RoundHalfEvenOfInteger(n: int)
    ensures RoundHalfEven(n as real) == n
  {
    RoundHalfEvenUnique(n as real, n);
  }

  /** `y_pred.clip(lower=0).round().astype(int)`: a non-negative integer; 0 for a value that
      is not positive; otherwise the integer nearest to the value. */
  function PostProcess(v: real): (r: int)
    ensures r >= 0
    ensures v <= 0.0 ==> r == 0
    ensures v >= 0.0 ==> -0.5 <= r as real - v <= 0.5
  {
    RoundHalfEven(Clip(v))
  }

  /** Post-processing a post-processed value changes nothing. */
  lemma {:induction false} PostProcessIdempotent(v: real)
    ensures PostProcess(PostProcess(v) as real) == PostProcess(v)
  {
    RoundHalfEvenOfInteger(PostProcess(v));
  }

  /** A mean of 7.4 becomes 7, a tie at 2.5 goes to 2 and at 3.5 to 4, and a negative
      value becomes 0. */
  lemma PostProcessExamples()
    ensures PostProcess(7.4) == 7
    ensures PostProcess(2.5) == 2 && PostProcess(3.5) == 4
    ensures PostProcess(-1.5) == 0
  {
    RoundHalfEvenUnique(7.4, 7);
    RoundHalfEvenUnique(2.5, 2);
    RoundHalfEvenUnique(3.5, 4);
  }
}

/**
 * The quarter-point quantiser applied to every scraped price
 * (`round_to_quarter`): the fractional part is mapped to .0, .25, .5, .75
 * or carried to the next integer, using the fixed thresholds
 * 0.125, 0.375, 0.625 and 0.875.
 */
module Quantizer {

  /** Python's `int(x)` on a float: truncation toward zero. */
  function Trunc(x: real): (n: int)
    ensures 0.0 <= x ==> 0 <= n && n as real <= x < n as real + 1.0
    ensures x < 0.0 ==> n <= 0 && n as real - 1.0 < x <= n as real
  {
    if x >= 0.0 then x.Floor else -((-x).Floor)
  }

  /** `x` is a whole multiple of 0.25. */
  predicate IsQuarter(x: real) {
    (4.0 * x).Floor as real == 4.0 * x
  }

  /** Every whole number of quarters is a quarter point. */
  lemma QuarterOf(k: int)
    ensures IsQuarter(k as real / 4.0)
  {
    assert 4.0 * (k as real / 4.0) == k as real;
  }

  /**
   * `round_to_quarter`. For a non-negative value the result is the quarter
   * point in the half-open window (value - 0.125, value + 0.125]; for a
   * negative value the fractional part is never >= 0.125, so the result is
   * the value truncated toward zero.
   */
  function RoundToQuarter(value: real): (r: real)
    ensures IsQuarter(r)
    ensures 0.0 <= value ==> 0.0 <= r && value - 0.125 < r <= value + 0.125
    ensures value < 0.0 ==> r == Trunc(value) as real
  {
    var whole := Trunc(value);
    var fraction := value - whole as real;
    if fraction < 0.125 then
      QuarterOf(4 * whole); whole as real
    else if fraction < 0.375 then
      QuarterOf(4 * whole + 1); whole as real + 0.25
    else if fraction < 0.625 then
      QuarterOf(4 * whole + 2); whole as real + 0.5
    else if fraction < 0.875 then
      QuarterOf(4 * whole + 3); whole as real + 0.75
    else
      QuarterOf(4 * whole + 4); (whole + 1) as real
  }

  /** Two quarter points strictly less than 0.25 apart are equal. */
  lemma QuartersApart(a: real, b: real)
    requires IsQuarter(a) && IsQuarter(b)
    requires -0.25 < a - b < 0.25
    ensures a == b
  {
    var ka, kb := (4.0 * a).Floor, (4.0 * b).Floor;
    assert -1.0 < (ka - kb) as real < 1.0;
    assert ka == kb;
  }

  /**
   * An independent characterisation: on non-negative input the result is the
   * ONLY quarter point in (value - 0.125, value + 0.125].
   */
  lemma QuarterWindowUnique(value: real, q: real)
    requires 0.0 <= value
    requires IsQuarter(q) && value - 0.125 < q <= value + 0.125
    ensures RoundToQuarter(value) == q
  {
    QuartersApart(RoundToQuarter(value), q);
  }

  /** On non-negative input no quarter point is closer to the value than the result. */
  lemma RoundToQuarterNearest(value: real, q: real)
    requires 0.0 <= value && IsQuarter(q)
    ensures var r := RoundToQuarter(value);
      (if r >= value then r - value else value - r) <= (if q >= value then q - value else value - q)
  {
    var r := RoundToQuarter(value);
    if q != r {
      if -0.25 < q - r < 0.25 {
        QuartersApart(q, r);
      }
    }
  }

  /** Quantising twice is quantising once, for non-negative input. */
  lemma RoundToQuarterIdempotent(value: real)
    requires 0.0 <= value
    ensures RoundToQuarter(RoundToQuarter(value)) == RoundToQuarter(value)
  {
    var r := RoundToQuarter(value);
    QuarterWindowUnique(r, r);
  }

  /** The thresholds on the boundary cases and the documented examples. */
  lemma RoundToQuarterExamples()
    ensures RoundToQuarter(1637.12) == 1637.0
    ensures RoundToQuarter(1637.13) == 1637.25
    ensures RoundToQuarter(1637.99) == 1638.0
    ensures RoundToQuarter(1637.125) == 1637.25
    ensures RoundToQuarter(1637.875) == 1638.0
    ensures RoundToQuarter(1637.625) == 1637.75
    ensures RoundToQuarter(-5.9) == -5.0
  {
  }
}

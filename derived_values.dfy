/**
 * The futures values derived from the index price (`calculate_tx_price` and
 * `calculate_tx_change`): the TAIEX futures price is the index price times a
 * fixed conversion factor, rounded to a whole number, and the futures change
 * is its distance from a fixed base price. Arithmetic is exact over `real`;
 * Python's `round(x, 0)` is modelled as rounding to the nearest integer with
 * ties to the even neighbour.
 */
module DerivedValues {

  /** Futures points per index point. */
  const ConversionFactor: real := 12.28065515714918
  /** The base futures price the change is measured from. */
  const BaseTx: int := 27556

  /** Python's `round(x, 0)`: the nearest integer, ties going to the even one. */
  function RoundHalfEven(x: real): (n: int)
    ensures -0.5 <= n as real - x <= 0.5
    ensures (n as real - x == 0.5 || x - n as real == 0.5) ==> n % 2 == 0
  {
    var f := x.Floor;
    var d := x - f as real;
    if d < 0.5 then f
    else if d > 0.5 then f + 1
    else if f % 2 == 0 then f
    else f + 1
  }

  /** The two conditions above pin the rounded value down: no other integer meets them. */
  lemma RoundHalfEvenUnique(x: real, k: int)
    requires -0.5 <= k as real - x <= 0.5
    requires (k as real - x == 0.5 || x - k as real == 0.5) ==> k % 2 == 0
    ensures k == RoundHalfEven(x)
  {
  }

  /** Rounding never reverses the order of two values. */
  lemma RoundHalfEvenMonotone(x: real, y: real)
    requires x <= y
    ensures RoundHalfEven(x) <= RoundHalfEven(y)
  {
  }

  /** Ties go to the even neighbour, on both sides of zero. */
  lemma RoundHalfEvenTies()
    ensures RoundHalfEven(0.5) == 0 && RoundHalfEven(1.5) == 2 && RoundHalfEven(2.5) == 2
    ensures RoundHalfEven(-0.5) == 0 && RoundHalfEven(-1.5) == -2 && RoundHalfEven(-2.5) == -2
  {
    RoundHalfEvenUnique(0.5, 0);
    RoundHalfEvenUnique(1.5, 2);
    RoundHalfEvenUnique(2.5, 2);
    RoundHalfEvenUnique(-0.5, 0);
    RoundHalfEvenUnique(-1.5, -2);
    RoundHalfEvenUnique(-2.5, -2);
  }

  /** `calculate_tx_price`: the whole number nearest to the price times the factor. */
  function TxPrice(price: real): (t: int)
    ensures -0.5 <= t as real - price * ConversionFactor <= 0.5
  {
    RoundHalfEven(price * ConversionFactor)
  }

  /**
   * `calculate_tx_change`: the futures price recomputed from the same index
   * price, minus the base, rounded again; the second rounding changes nothing.
   */
  function TxChange(price: real): (c: int)
    ensures c == TxPrice(price) - BaseTx
  {
    RoundHalfEven((TxPrice(price) - BaseTx) as real)
  }

  /** A higher index price never gives a lower futures price (the factor is positive). */
  lemma TxPriceMonotone(p: real, q: real)
    requires p <= q
    ensures TxPrice(p) <= TxPrice(q)
    ensures TxChange(p) <= TxChange(q)
  {
    assert p * ConversionFactor <= q * ConversionFactor;
    RoundHalfEvenMonotone(p * ConversionFactor, q * ConversionFactor);
  }

  /** The futures values of the fallback price 1637.5 (1637.5 times the factor is 20109.57...). */
  lemma DefaultTxValues()
    ensures TxPrice(1637.5) == 20110
    ensures TxChange(1637.5) == -7446
  {
    RoundHalfEvenUnique(1637.5 * ConversionFactor, 20110);
  }
}

/**
 * The exchange-rate table the currency service is built with.
 *
 * A rate is how many units of a currency one common base unit is worth, so
 * `rate(JPY) / rate(C)` yen buy one unit of `C`. Rates are exact reals here;
 * the program stores them as `float64`.
 */
module Rates {

  type RateTable = map<string, real>

  /** The currency every answer is expressed in. */
  const Reference: string := "JPY"

  /** The table's invariant: every code is three bytes long and every rate
      is strictly positive, and the reference currency is present. The
      handler relies on the last two: its lookup of the reference rate is
      defined and no division is by zero. */
  predicate ValidTable(t: RateTable) {
    && Reference in t
    && forall c | c in t :: |c| == 3 && t[c] > 0.0
  }

  /** `currencies()`: the fixed table built once at start-up. */
  function Currencies(): (t: RateTable)
    ensures ValidTable(t)
    ensures |t| == 5
    ensures t.Keys == {"JPY", "USD", "EUR", "BRL", "AUD"}
  {
    map["JPY" := 100.0, "USD" := 0.82, "EUR" := 0.74, "BRL" := 3.96, "AUD" := 1.09]
  }
}

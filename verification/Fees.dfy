/** Fee arithmetic and the decimal scales of the orders table.
    Prices, quantities and fee rates are integers in millionths, so that a product of
    three of them is an integer number of 1e-18 units; double arithmetic is taken as exact. */
module Fees {

  /// Fees are rounded to 8 decimals: 1e-8 is 1e10 units of 1e-18.
  const FEE_UNIT: int := 10_000_000_000

  /// The fee_rate column keeps 4 decimals: 1e-4 is 100 millionths.
  const RATE_UNIT: int := 100

  lemma Quotient(a: int, d: int)
    requires d > 0 && a >= 0
    ensures a / d >= 0
    ensures d * (a / d) <= a < d * (a / d) + d
  {
  }

  lemma Nearest(a: int, unit: int)
    requires unit > 0 && a >= 0
    ensures var n := (2 * a + unit) / (2 * unit);
            n >= 0 && 2 * (n * unit - a) <= unit && 2 * (a - n * unit) < unit && -n * unit == -(n * unit)
  {
    var n := (2 * a + unit) / (2 * unit);
    Quotient(2 * a + unit, 2 * unit);
    assert (2 * unit) * n == 2 * (n * unit);
  }

  /** The number of whole units nearest to value, ties away from zero (as std::round). */
  function RoundHalfAway(value: int, unit: int): (n: int)
    requires unit > 0
    ensures -unit <= 2 * (n * unit - value) <= unit
    ensures value >= 0 ==> n >= 0 && 2 * (value - n * unit) < unit
    ensures value <= 0 ==> n <= 0 && 2 * (n * unit - value) < unit
  {
    if value >= 0 then
      Nearest(value, unit);
      (2 * value + unit) / (2 * unit)
    else
      Nearest(-value, unit);
      -((2 * -value + unit) / (2 * unit))
  }

  /** buyerFee and sellerFee of a trade record, in 1e-8 units. */
  function Fee(feeRate: int, quantity: int, price: int): int {
    RoundHalfAway(feeRate * quantity * price, FEE_UNIT)
  }

  /** What the fee_rate column holds after a rate has been inserted. */
  function StoredRate(feeRate: int): int {
    RoundHalfAway(feeRate, RATE_UNIT) * RATE_UNIT
  }

  /// A fee is sent and stored as text with 6 decimals: 1e-6 is 100 units of 1e-8.
  const TEXT_UNIT: int := 100

  /** What a fee has become in the trade_records table, in 1e-8 units. */
  function StoredFee(fee: int): int {
    RoundHalfAway(fee, TEXT_UNIT) * TEXT_UNIT
  }

  predicate Representable(feeRate: int) {
    feeRate % RATE_UNIT == 0
  }

  /** Distinct multiples of unit are at least a unit apart. */
  lemma MultiplesApart(a: int, b: int, unit: int)
    requires unit > 0
    requires a < b
    ensures a * unit + unit <= b * unit
  {
    var d := b - a - 1;
    assert d * unit >= 0;
    assert b * unit == a * unit + unit + d * unit;
  }

  lemma RoundMonotone(v: int, w: int, unit: int)
    requires unit > 0
    requires v <= w
    ensures RoundHalfAway(v, unit) <= RoundHalfAway(w, unit)
  {
    var n, k := RoundHalfAway(v, unit), RoundHalfAway(w, unit);
    if n > k {
      MultiplesApart(k, n, unit);
    }
  }

  lemma RoundOdd(v: int, unit: int)
    requires unit > 0
    ensures RoundHalfAway(-v, unit) == -RoundHalfAway(v, unit)
  {
  }

  /** Rounding a value that is already a multiple of the unit gives that multiple back. */
  lemma RoundIdempotent(k: int, unit: int)
    requires unit > 0
    ensures RoundHalfAway(k * unit, unit) == k
  {
    var n := RoundHalfAway(k * unit, unit);
    if n < k {
      MultiplesApart(n, k, unit);
    } else if k < n {
      MultiplesApart(k, n, unit);
    }
  }

  /** The fee_rate column holds the rate rounded to four decimals, halves away from zero; it keeps
      a rate as it is exactly when the rate has at most four decimals. */
  lemma StoredRateExact(feeRate: int)
    ensures var kept := StoredRate(feeRate);
            && kept % 100 == 0
            && -50 <= kept - feeRate <= 50
            && (feeRate >= 0 ==> feeRate - kept < 50) && (feeRate <= 0 ==> kept - feeRate < 50)
            && (kept == feeRate <==> feeRate % 100 == 0)
    ensures Representable(feeRate) <==> feeRate % 100 == 0
  {
    if Representable(feeRate) {
      RoundIdempotent(feeRate / 100, 100);
    }
  }

  /** A fee is the exact product in 1e-18 units, rounded to 8 decimals, halves away from zero. */
  lemma FeeNearest(feeRate: int, quantity: int, price: int)
    ensures var exact := feeRate * quantity * price;
            var rounded := Fee(feeRate, quantity, price) * 10_000_000_000;
            && -5_000_000_000 <= rounded - exact <= 5_000_000_000
            && (exact >= 0 ==> exact - rounded < 5_000_000_000)
            && (exact <= 0 ==> rounded - exact < 5_000_000_000)
  {
  }

  /** The text of a fee keeps six decimals, halves away from zero. */
  lemma StoredFeeNearest(fee: int)
    ensures var kept := StoredFee(fee);
            && kept % 100 == 0
            && -50 <= kept - fee <= 50
            && (fee >= 0 ==> fee - kept < 50) && (fee <= 0 ==> kept - fee < 50)
  {
  }

  /** The fee of a larger fill is at least as large. */
  lemma FeeMonotone(feeRate: int, q: int, r: int, price: int)
    requires feeRate >= 0 && price >= 0
    requires q <= r
    ensures Fee(feeRate, q, price) <= Fee(feeRate, r, price)
  {
    assert feeRate * r * price - feeRate * q * price == (feeRate * price) * (r - q);
    assert (feeRate * price) * (r - q) >= 0;
    RoundMonotone(feeRate * q * price, feeRate * r * price, FEE_UNIT);
  }

  lemma FeeOdd(feeRate: int, quantity: int, price: int)
    ensures Fee(feeRate, quantity, -price) == -Fee(feeRate, quantity, price)
  {
    assert feeRate * quantity * -price == -(feeRate * quantity * price);
    RoundOdd(feeRate * quantity * price, FEE_UNIT);
  }

  /** The two roundings of a stored fee together lose at most 50.5 units of 1e-8. */
  lemma DoubleRounding(feeRate: int, quantity: int, price: int)
    ensures var exact := feeRate * quantity * price;
            var stored := StoredFee(Fee(feeRate, quantity, price));
            -505_000_000_000 <= stored * 10_000_000_000 - exact <= 505_000_000_000
  {
  }
}

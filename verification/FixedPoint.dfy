/** Exact fixed-point money.

    Amounts, prices and quantities are integers counting units of 1e-10, the ten
    decimal places of the account and order columns. The product of two of them
    counts units of 1e-20. */
module FixedPoint {

  // One whole coin or dollar, in units.
  const ONE: int := 10_000_000_000
  const HALF: int := 5_000_000_000

  /** Rounds a product (units of 1e-20) to a whole unit, midpoints away from zero. */
  function BalanceAmount(product: int): (amount: int)
    ensures -HALF <= ONE * amount - product <= HALF
    ensures product >= 0 ==> amount >= 0
  {
    if product >= 0 then (product + HALF) / ONE else -((-product + HALF) / ONE)
  }

  /** The amount due on a product counted in units of 1e-22, which is what an unrounded
      1.05 * reference price times a quantity has. */
  function BalanceAmountFine(product: int): (amount: int)
    ensures -50 * ONE <= 100 * ONE * amount - product <= 50 * ONE
    ensures product >= 0 ==> amount >= 0
  {
    if product >= 0 then (product + 50 * ONE) / (100 * ONE) else -((-product + 50 * ONE) / (100 * ONE))
  }

  /** How a value of two further decimals is stored in a ten-decimal column. */
  function ColumnValue(hundredths: int): (value: int)
    ensures -50 <= 100 * value - hundredths <= 50
  {
    if hundredths >= 0 then (hundredths + 50) / 100 else -((-hundredths + 50) / 100)
  }

  lemma DivisionFacts(n: int, d: int)
    requires n >= 0 && d > 0
    ensures n == d * (n / d) + n % d && 0 <= n % d < d && n / d >= 0
    ensures d * (n / d + 1) == d * (n / d) + d
  {
    if n / d < 0 { MultiplyMonotone(d, n / d, -1); }
  }

  /** Nearest integer to a ratio, midpoints to the even neighbour. */
  function RoundHalfEven(n: int, d: int): (r: int)
    requires n >= 0 && d > 0
    ensures -d <= 2 * (d * r - n) <= d
    ensures r >= 0
  {
    DivisionFacts(n, d);
    var q, m := n / d, n % d;
    if 2 * m < d || (2 * m == d && q % 2 == 0) then q else q + 1
  }

  // Whether rounding to whole units goes up.
  predicate RoundsUp(product: int) {
    product % ONE >= HALF
  }

  // Both amounts round up, but their sum not by as much.
  predicate RoundTooHigh(a: int, b: int) {
    RoundsUp(a) && RoundsUp(b) && a % ONE + b % ONE < ONE + HALF
  }

  /** Splitting a product and rounding the parts loses or gains at most one unit. */
  lemma BalanceAmountSplit(a: int, b: int)
    requires a >= 0 && b >= 0
    ensures BalanceAmount(a) + BalanceAmount(b) - 1 <= BalanceAmount(a + b) <= BalanceAmount(a) + BalanceAmount(b) + 1
    ensures BalanceAmount(a + b) < BalanceAmount(a) + BalanceAmount(b)
       <==> RoundTooHigh(a, b)
  {
  }

  lemma BalanceAmountMonotone(a: int, b: int)
    requires 0 <= a <= b
    ensures BalanceAmount(a) <= BalanceAmount(b)
  {
  }

  lemma MultiplyMonotone(q: int, p: int, limit: int)
    requires q >= 0 && p <= limit
    ensures q * p <= q * limit
  {
    assert q * limit == q * p + q * (limit - p);
  }

  lemma MultiplyNonNegative(a: int, b: int)
    requires a >= 0 && b >= 0
    ensures a * b >= 0
  {
  }

  function Pow10(n: nat): (p: int)
    ensures p >= 1
  {
    if n == 0 then 1 else 10 * Pow10(n - 1)
  }

  // --- What rounding means ---------------------------------------------------------------------------

  /** The rounded amount is the one nearest unit, and of two the one further from zero. */
  lemma BalanceAmountIff(product: int, amount: int)
    ensures amount == BalanceAmount(product) <==>
              if product >= 0 then ONE * amount - HALF <= product < ONE * amount + HALF
              else ONE * amount - HALF < product <= ONE * amount + HALF
  {
  }

  lemma BalanceAmountFineIff(product: int, amount: int)
    ensures amount == BalanceAmountFine(product) <==>
              if product >= 0 then 100 * ONE * amount - 50 * ONE <= product < 100 * ONE * amount + 50 * ONE
              else 100 * ONE * amount - 50 * ONE < product <= 100 * ONE * amount + 50 * ONE
  {
  }

  lemma ColumnValueIff(hundredths: int, value: int)
    ensures value == ColumnValue(hundredths) <==>
              if hundredths >= 0 then 100 * value - 50 <= hundredths < 100 * value + 50
              else 100 * value - 50 < hundredths <= 100 * value + 50
  {
  }

  // A nearest integer to the ratio, even at a midpoint.
  predicate NearestEven(n: int, d: int, r: int) {
    -d <= 2 * (d * r - n) <= d && (2 * (d * r - n) == d || 2 * (d * r - n) == -d ==> r % 2 == 0)
  }

  lemma RoundHalfEvenNearest(n: int, d: int)
    requires n >= 0 && d > 0
    ensures NearestEven(n, d, RoundHalfEven(n, d))
  {
    DivisionFacts(n, d);
  }

  lemma OneNearestEven(n: int, d: int, r: int, r': int)
    requires d > 0 && NearestEven(n, d, r) && NearestEven(n, d, r')
    ensures r >= r'
  {
    assert d * (r + 1) == d * r + d && d * (r + 2) == d * r + 2 * d;
    if r + 1 < r' {
      MultiplyMonotone(d, r + 2, r');
    }
  }

  lemma RoundHalfEvenIff(n: int, d: int, r: int)
    requires n >= 0 && d > 0
    ensures r == RoundHalfEven(n, d) <==> NearestEven(n, d, r)
  {
    RoundHalfEvenNearest(n, d);
    if NearestEven(n, d, r) {
      OneNearestEven(n, d, r, RoundHalfEven(n, d));
      OneNearestEven(n, d, RoundHalfEven(n, d), r);
    }
  }
}

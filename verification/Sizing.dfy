/** Order sizes that placement can always afford
    (crates/frontend/src/sizing.rs, crates/simulator/src/trader.rs). */
module Sizing {
  import opened FixedPoint
  import opened Domain
  import opened State
  import opened Trading

  // Steps of 1e-8, the precision sizes are cut to, and the cap of a million.
  const MAX_STEPS: int := 100_000_000_000_000

  // The cost of one whole coin in units of 1e-12: exact also for 1.05 * reference.
  function UnitCost(price: Option<int>, reference: Option<int>, buy: bool, market: bool): Option<int> {
    if !buy then Some(100 * ONE)
    else if market then (if reference.None? then None else Some(reference.value * 105))
    else if price.None? then None else Some(price.value * 100)
  }

  /** quantity, in steps of 1e-8; None in place of a text that does not parse. */
  function Quantity(available: Option<int>, price: Option<int>, reference: Option<int>, buy: bool, market: bool, percent: nat): Option<int> {
    if percent !in {25, 50, 75, 100} then None
    else if available.None? || available.value <= 0 then None
    else
      var unit := UnitCost(price, reference, buy, market);
      if unit.None? || unit.value <= 0 then None else
        MultiplyNonNegative(available.value, percent);
        var steps := Min(available.value * percent * 100_000_000 / unit.value, MAX_STEPS);
        if steps <= 0 then None else Some(steps)
  }

  // The sized quantity as the order that is submitted.
  function SizedOrder(clientOrderId: string, instrument: string, buy: bool, market: bool, steps: nat, price: Decimal): NewOrder {
    NewOrder(clientOrderId, instrument, if buy then Buy else Sell, if market then Market else Limit,
             Decimal(steps, 8), if market then None else Some(price))
  }

  lemma DivisionBounds(n: int, d: int)
    requires n >= 0 && d > 0
    ensures d * (n / d) <= n < d * (n / d) + d
  {
  }

  /** A sized quantity costs at most its share of the balance; and unless the cap cut it,
      one step of 1e-8 more would cost more than that share. Costs are exact, in units of
      1e-22 times a hundred percent. */
  lemma SizeFillsTheBudget(available: int, price: Option<int>, reference: Option<int>, buy: bool, market: bool, percent: nat)
    requires Quantity(Some(available), price, reference, buy, market, percent).Some?
    ensures var steps := Quantity(Some(available), price, reference, buy, market, percent).value;
            var unit := UnitCost(price, reference, buy, market).value;
            && 0 < steps <= MAX_STEPS
            && unit * steps <= available * percent * 100_000_000
            && (steps < MAX_STEPS ==> unit * (steps + 1) > available * percent * 100_000_000)
  {
    var unit := UnitCost(price, reference, buy, market).value;
    var budget := available * percent * 100_000_000;
    MultiplyNonNegative(available, percent);
    DivisionBounds(budget, unit);
    var steps := Quantity(Some(available), price, reference, buy, market, percent).value;
    MultiplyMonotone(unit, steps, budget / unit);
    assert unit * (steps + 1) == unit * steps + unit;
  }

  /** A size exists exactly for an offered percentage of a positive balance that pays for
      at least one step of 1e-8. */
  lemma SizeExistsIff(available: int, unit: int, price: Option<int>, reference: Option<int>, buy: bool, market: bool, percent: nat)
    requires UnitCost(price, reference, buy, market) == Some(unit)
    ensures Quantity(Some(available), price, reference, buy, market, percent).Some?
       <==> percent in {25, 50, 75, 100} && available > 0 && 0 < unit <= available * percent * 100_000_000
  {
    if available > 0 && unit > 0 {
      var budget := available * percent * 100_000_000;
      MultiplyNonNegative(available, percent);
      DivisionBounds(budget, unit);
      if budget / unit >= 1 {
        MultiplyMonotone(unit, 1, budget / unit);
      } else {
        MultiplyMonotone(unit, budget / unit, 0);
      }
    }
  }

  // The cost of a number of steps of 1e-8 at a hundred percent of the unrounded price,
  // in units of 1e-22: a hundred units a step of a sell, of a price, or of 1.05 times a
  // reference.
  function Cost(price: int, reference: int, buy: bool, market: bool, steps: int): int {
    if !buy then (100 * steps) * (100 * ONE)
    else if market then (100 * steps) * (105 * reference)
    else (100 * steps) * (100 * price)
  }

  // Steps whose cost is within the share of the balance, and no more than a million coins.
  predicate Affordable(available: int, price: int, reference: int, buy: bool, market: bool, percent: nat, steps: int) {
    0 < steps <= 100_000_000_000_000 && Cost(price, reference, buy, market, steps) <= available * percent * ONE
  }

  lemma CostIs(price: int, reference: int, buy: bool, market: bool, steps: int)
    ensures UnitCost(Some(price), Some(reference), buy, market).Some?
    ensures Cost(price, reference, buy, market, steps) == 100 * (UnitCost(Some(price), Some(reference), buy, market).value * steps)
  {
  }

  lemma AffordableIff(available: int, unit: int, percent: nat, steps: int, cost: int)
    requires unit > 0 && available >= 0 && cost == 100 * (unit * steps)
    ensures cost <= available * percent * ONE <==> steps <= (available * percent * 100_000_000) / unit
  {
    var budget := available * percent * 100_000_000;
    MultiplyNonNegative(available, percent);
    assert available * percent * ONE == 100 * budget;
    DivisionBounds(budget, unit);
    if steps <= budget / unit {
      MultiplyMonotone(unit, steps, budget / unit);
    } else {
      MultiplyMonotone(unit, budget / unit + 1, steps);
      assert unit * (budget / unit + 1) == unit * (budget / unit) + unit;
    }
  }

  /** A size is the greatest affordable number of steps, and there is one exactly when an
      offered percentage of the balance affords a step. */
  lemma SizeIsGreatest(available: int, price: int, reference: int, buy: bool, market: bool, percent: nat, steps: int)
    requires buy ==> if market then reference > 0 else price > 0
    ensures Quantity(Some(available), Some(price), Some(reference), buy, market, percent) == Some(steps) <==>
              && percent in {25, 50, 75, 100} && available > 0
              && Affordable(available, price, reference, buy, market, percent, steps)
              && !Affordable(available, price, reference, buy, market, percent, steps + 1)
  {
    if percent in {25, 50, 75, 100} && available > 0 {
      AffordsUpTo(available, price, reference, buy, market, percent, steps);
      AffordsUpTo(available, price, reference, buy, market, percent, steps + 1);
    }
  }

  lemma AffordsUpTo(available: int, price: int, reference: int, buy: bool, market: bool, percent: nat, steps: int)
    requires available > 0 && (buy ==> if market then reference > 0 else price > 0)
    ensures var unit := UnitCost(Some(price), Some(reference), buy, market).value;
            && unit > 0
            && (Affordable(available, price, reference, buy, market, percent, steps) <==>
                  0 < steps <= Min(available * percent * 100_000_000 / unit, MAX_STEPS))
  {
    CostIs(price, reference, buy, market, steps);
    AffordableIff(available, UnitCost(Some(price), Some(reference), buy, market).value, percent, steps,
                  Cost(price, reference, buy, market, steps));
  }

  /** Without a price or reference that the order needs, or with one that is not positive,
      there is no size; nor without a balance. */
  lemma SizeNeedsPrice(available: Option<int>, price: Option<int>, reference: Option<int>, buy: bool, market: bool, percent: nat)
    requires || available.None?
             || (buy && market && (reference.None? || reference.value <= 0))
             || (buy && !market && (price.None? || price.value <= 0))
    ensures Quantity(available, price, reference, buy, market, percent) == None
  {
  }

  lemma SharesFit(available: int, percent: nat, unit: int, steps: int)
    requires available > 0 && percent <= 100 && unit * steps <= available * percent * 100_000_000
    ensures 100 * (unit * steps) <= available * (100 * ONE)
  {
    MultiplyMonotone(available, percent, 100);
    assert available * 100 * 100_000_000 == available * ONE;
  }

  lemma CostRoundsWithin(cost: int, available: int)
    requires 0 <= cost <= available * (100 * ONE)
    ensures BalanceAmountFine(cost) <= available
  {
  }

  lemma StepsAreUnits(steps: int)
    requires steps >= 0
    ensures Units(Decimal(steps, 8)) == 100 * steps
  {
    assert Pow10(2) == 10 * Pow10(1) == 100;
  }

  /** The submitted order is for the sized quantity, on the side and of the type it was
      sized for, at the limit if it has one. */
  lemma SizedOrderIs(clientOrderId: string, instrument: string, buy: bool, market: bool, steps: nat, price: Decimal)
    ensures var order := SizedOrder(clientOrderId, instrument, buy, market, steps, price);
            && order.clientOrderId == clientOrderId && order.instrument == instrument
            && (order.side == Buy <==> buy) && (order.orderType == Market <==> market)
            && order.quantity.scale <= 10 && Units(order.quantity) == 100 * steps
            && order.limitPrice == (if market then None else Some(price))
  {
    StepsAreUnits(steps);
  }

  lemma SizedCost(unit: int, steps: int)
    ensures (100 * steps) * unit == 100 * (unit * steps)
  {
  }

  /** The reservation that place_order computes for a sized order never exceeds the
      balance it was sized from. */
  lemma SizedReserveIsAffordable(available: int, price: Decimal, reference: int, buy: bool, market: bool, percent: nat, order: NewOrder)
    requires price.scale <= 10 && reference > 0 && Validate(order) == Valid
    requires var size := Quantity(Some(available), Some(Units(price)), Some(reference), buy, market, percent);
             size.Some? && order == SizedOrder(order.clientOrderId, order.instrument, buy, market, size.value, price)
    ensures ReserveAmount(order, reference) <= available
  {
    ValidOrderIsBounded(order);
    SizeFillsTheBudget(available, Some(Units(price)), Some(reference), buy, market, percent);
    var steps := Quantity(Some(available), Some(Units(price)), Some(reference), buy, market, percent).value;
    var unit := UnitCost(Some(Units(price)), Some(reference), buy, market).value;
    SharesFit(available, percent, unit, steps);
    StepsAreUnits(steps);
    SizedCost(unit, steps);
    MultiplyNonNegative(unit, steps);
    CostRoundsWithin(100 * (unit * steps), available);
    if buy && !market {
      FineAndColumnAgree(100 * steps, Units(price));
      assert 100 * Units(price) == unit;
    }
  }

  /** So placing a sized order is never refused for lack of funds, whatever else changed
      since, as long as the balance it was sized from is still there. */
  lemma SizedOrderIsFunded(t: Tables, user: UserId, available: int, price: Decimal, buy: bool, market: bool, percent: nat, order: NewOrder)
    requires price.scale <= 10 && Validate(order) == Valid && order.instrument in t.markets && AccountsOk(t)
    requires var reference := t.markets[order.instrument].reference;
             var size := Quantity(Some(available), Some(Units(price)), Some(reference), buy, market, percent);
             size.Some? && order == SizedOrder(order.clientOrderId, order.instrument, buy, market, size.value, price)
    requires var row := NewRow(user, order, order.instrument, t.markets[order.instrument].reference, t.nextSequence);
             (user, ReserveCurrency(row)) in t.accounts && t.accounts[(user, ReserveCurrency(row))].available >= available
    ensures Place(t, user, order).1 != Err(InsufficientFunds)
  {
    var symbol: Symbol := order.instrument;
    assert t.markets[symbol].reference > 0;
    SizedReserveIsAffordable(available, price, t.markets[symbol].reference, buy, market, percent, order);
  }

  // --- The traders' own sizing ---------------------------------------------------------------------

  /** A trader spends between one and ten percent: available * fraction / unit cost, cut to
      eight decimals towards zero; a size of zero or less submits nothing. The fraction is
      in ten-thousandths. */
  function BotQuantity(available: int, fraction: nat, unit: int): Option<int>
    requires 100 <= fraction <= 1000 && unit > 0
  {
    if available <= 0 then None else
      MultiplyNonNegative(available, fraction);
      var steps := available * fraction * 1_000_000 / unit;
      if steps <= 0 then None else Some(steps)
  }

  /** A trader's size is the greatest number of steps that its fraction of the balance pays
      for, and there is one exactly when it pays for a step. */
  lemma BotSizeIsGreatest(available: int, fraction: nat, price: int, reference: int, buy: bool, market: bool, steps: int)
    requires 100 <= fraction <= 1000 && (buy ==> if market then reference > 0 else price > 0)
    ensures var unit := UnitCost(Some(price), Some(reference), buy, market).value;
            && unit > 0
            && (BotQuantity(available, fraction, unit) == Some(steps) <==>
                  && available > 0 && steps > 0
                  && 100 * Cost(price, reference, buy, market, steps) <= available * fraction * ONE
                  && 100 * Cost(price, reference, buy, market, steps + 1) > available * fraction * ONE)
  {
    var unit := UnitCost(Some(price), Some(reference), buy, market).value;
    if available > 0 {
      CostIs(price, reference, buy, market, steps);
      CostIs(price, reference, buy, market, steps + 1);
      BotAffordableIff(available, unit, fraction, steps);
      BotAffordableIff(available, unit, fraction, steps + 1);
    }
  }

  lemma BotAffordableIff(available: int, unit: int, fraction: nat, steps: int)
    requires unit > 0 && available >= 0
    ensures 10_000 * (unit * steps) <= available * fraction * ONE <==> steps <= (available * fraction * 1_000_000) / unit
  {
    var budget := available * fraction * 1_000_000;
    MultiplyNonNegative(available, fraction);
    assert available * fraction * ONE == 10_000 * budget;
    DivisionBounds(budget, unit);
    if steps <= budget / unit {
      MultiplyMonotone(unit, steps, budget / unit);
    } else {
      MultiplyMonotone(unit, budget / unit + 1, steps);
      assert unit * (budget / unit + 1) == unit * (budget / unit) + unit;
    }
  }

  /** A trader's order reserves at most a tenth of the balance plus rounding, and never
      more than the balance, whichever side and type it drew. */
  lemma BotReserveIsAffordable(available: int, fraction: nat, price: Decimal, reference: int, buy: bool, market: bool, order: NewOrder)
    requires 100 <= fraction <= 1000 && price.scale <= 10 && reference > 0 && Validate(order) == Valid
    requires var unit := UnitCost(Some(Units(price)), Some(reference), buy, market);
             unit.value > 0 && var size := BotQuantity(available, fraction, unit.value);
             size.Some? && order == SizedOrder(order.clientOrderId, order.instrument, buy, market, size.value, price)
    ensures ReserveAmount(order, reference) <= available
    ensures 10 * ReserveAmount(order, reference) <= available + 10
  {
    ValidOrderIsBounded(order);
    var unit := UnitCost(Some(Units(price)), Some(reference), buy, market).value;
    var budget := available * fraction * 1_000_000;
    MultiplyNonNegative(available, fraction);
    DivisionBounds(budget, unit);
    var steps := BotQuantity(available, fraction, unit).value;
    MultiplyMonotone(available, fraction, 1000);
    assert 100 * (unit * steps) <= available * (10 * ONE);
    StepsAreUnits(steps);
    SizedCost(unit, steps);
    MultiplyNonNegative(unit, steps);
    CostRoundsWithin(100 * (unit * steps), available);
    if buy && !market {
      FineAndColumnAgree(100 * steps, Units(price));
      assert 100 * Units(price) == unit;
    }
  }
}

/** The market simulator: reference prices and system liquidity
    (crates/simulator/src/main.rs and generator.rs). */
module Simulator {
  import opened FixedPoint
  import opened Sums
  import opened Domain
  import opened State
  import opened Settlement
  import opened Trading

  const CENT: int := 100_000_000

  // --- Reference prices ------------------------------------------------------------------------

  function Max(a: int, b: int): int {
    if a >= b then a else b
  }

  /** next_price in units of 1e-14, for any noise the generator can draw: a step of up to
      0.15 percent and a pull of 0.02 percent towards the anchor, rounded to a cent and
      clamped between half and one and a half times the anchor. */
  function NextPrice(current: int, anchor: int, noise: int): int
    requires current > 0 && anchor > 0 && -15 <= noise <= 15
  {
    var next := current * (10_000 + noise) + (anchor - current) * 2;
    var cents := RoundHalfEven(next, 10_000 * CENT);
    Min(Max(cents * (10_000 * CENT), Max(anchor * 5_000, 10_000 * CENT)), Max(anchor * 15_000, 10_000 * CENT))
  }

  // The reference price as the column stores it.
  function StoredReference(price: int): int {
    ColumnValue(price / 100)
  }

  /** Generated prices stay within the band around the anchor for every noise, so they
      never fall below a cent; and the generated walk can start again from them. */
  lemma NextPriceStaysInBand(current: int, anchor: int, noise: int)
    requires current > 0 && anchor > 0 && -15 <= noise <= 15
    ensures var price := NextPrice(current, anchor, noise);
            && 10_000 * CENT <= price && anchor * 5_000 <= price
            && (anchor * 3 >= 2 * CENT ==> price <= anchor * 15_000)
            && StoredReference(price) >= CENT
  {
  }

  lemma StepIsPositive(current: int, anchor: int, noise: int)
    requires current > 0 && anchor > 0 && -15 <= noise <= 15
    ensures current * (10_000 + noise) + (anchor - current) * 2 > 0
  {
    MultiplyMonotone(current, 9_985, 10_000 + noise);
  }

  /** Away from the band's ends the next price is the cent nearest the step: the current
      price moved by the noise, in ten-thousandths, and by two ten-thousandths of its
      distance to the anchor. Beyond an end it is that end. */
  lemma NextPriceIs(current: int, anchor: int, noise: int)
    requires current > 0 && anchor > 0 && -15 <= noise <= 15
    ensures var step, price := current * (10_000 + noise) + (anchor - current) * 2, NextPrice(current, anchor, noise);
            var low, high, half := Max(anchor * 5_000, 10_000 * CENT), Max(anchor * 15_000, 10_000 * CENT), 5_000 * CENT;
            && (low + half <= step <= high - half ==>
                  -half <= price - step <= half && price % (10_000 * CENT) == 0
                  && NearestEven(step, 10_000 * CENT, price / (10_000 * CENT)))
            && (step < low - half ==> price == low)
            && (step > high + half ==> price == high)
  {
    StepIsPositive(current, anchor, noise);
    var step := current * (10_000 + noise) + (anchor - current) * 2;
    RoundHalfEvenNearest(step, 10_000 * CENT);
    NearestClamped(step, RoundHalfEven(step, 10_000 * CENT), Max(anchor * 5_000, 10_000 * CENT), Max(anchor * 15_000, 10_000 * CENT));
  }

  lemma NearestClamped(step: int, cents: int, low: int, high: int)
    requires NearestEven(step, 10_000 * CENT, cents) && low <= high
    ensures var price, half := Min(Max(cents * (10_000 * CENT), low), high), 5_000 * CENT;
            && (low + half <= step <= high - half ==>
                  -half <= price - step <= half && price % (10_000 * CENT) == 0
                  && NearestEven(step, 10_000 * CENT, price / (10_000 * CENT)))
            && (step < low - half ==> price == low)
            && (step > high + half ==> price == high)
  {
    assert (cents * (10_000 * CENT)) / (10_000 * CENT) == cents;
  }

  /** Without noise the step only closes in on the anchor. */
  lemma PullsToAnchor(current: int, anchor: int)
    requires current > 0 && anchor > 0
    ensures var step := current * 10_000 + (anchor - current) * 2;
            && (current < anchor ==> current * 10_000 < step < anchor * 10_000)
            && (current > anchor ==> anchor * 10_000 < step < current * 10_000)
            && (current == anchor ==> step == anchor * 10_000)
  {
  }

  // --- System liquidity --------------------------------------------------------------------------

  datatype Quoted = Quoted(symbol: Symbol, price: int)

  // price * permille / 1000, rounded to a cent with ties to even.
  function LevelPrice(price: int, permille: int): int
    requires price > 0 && permille > 0
  {
    MultiplyNonNegative(price, permille);
    CENT * RoundHalfEven(price * permille, 1_000 * CENT)
  }

  // notional / price, rounded to eight decimals with ties to even.
  function LevelQuantity(notional: int, price: int): (q: int)
    requires price > 0 && notional > 0
    ensures q >= 0
  {
    100 * RoundHalfEven(notional * 100_000_000, price)
  }

  function SystemRow(q: Quoted, side: Side, permille: int, notional: int, sequence: nat): Order
    requires q.price > 0 && permille > 0 && notional > 0
  {
    var quantity := LevelQuantity(notional, q.price);
    Order(MARKET_MAKER, q.symbol, side, Limit, quantity, quantity, LevelPrice(q.price, permille), Open, sequence, true)
  }

  function InsertSystem(t: Tables, row: Order): Tables {
    t.(orders := t.orders[SystemOrder(t.nextSequence) := row], nextSequence := t.nextSequence + 1)
  }

  // UPDATE orders SET status='cancelled' WHERE is_system AND open, for one instrument.
  function WithdrawSystem(t: Tables, symbol: Symbol): Tables {
    t.(orders := map id | id in t.orders ::
         if t.orders[id].system && t.orders[id].instrument == symbol && IsOpen(t.orders[id])
         then t.orders[id].(status := Cancelled) else t.orders[id])
  }

  function InsertLevel(t: Tables, q: Quoted, side: Side, permille: int, notional: int): Tables
    requires q.price > 0 && permille > 0 && notional > 0
  {
    InsertSystem(t, SystemRow(q, side, permille, notional, t.nextSequence))
  }

  /** One market's part of the simulator's transaction. */
  function SimMarket(t: Tables, q: Quoted, liquidity: int): Tables
    requires q.price > 0 && liquidity > 0
  {
    var quoted := t.(markets := t.markets[q.symbol := MarketState(q.price, true)]);
    var withdrawn := WithdrawSystem(quoted, q.symbol);
    var a := InsertLevel(withdrawn, q, Buy, 998, liquidity);
    var b := InsertLevel(a, q, Buy, 995, 5 * liquidity);
    var c := InsertLevel(b, q, Sell, 1002, liquidity);
    InsertLevel(c, q, Sell, 1005, 5 * liquidity)
  }

  predicate AllPositive(quotes: seq<Quoted>) {
    forall q :: q in quotes ==> q.price > 0
  }

  function SimTick(t: Tables, quotes: seq<Quoted>, liquidity: int): Tables
    requires liquidity > 0 && AllPositive(quotes)
    decreases |quotes|
  {
    if quotes == [] then t else
      assert quotes[0] in quotes;
      SimTick(SimMarket(t, quotes[0], liquidity), quotes[1..], liquidity)
  }

  /** The simulator's order prices are all positive exactly when the quote is above half
      a cent by enough for the widest level; every quote of a cent or more is. */
  lemma LevelsPositiveIff(price: int)
    requires price > 0
    ensures (LevelPrice(price, 998) > 0 && LevelPrice(price, 995) > 0 && LevelPrice(price, 1002) > 0 && LevelPrice(price, 1005) > 0)
       <==> price > 50_251_256
    ensures price >= CENT ==> price > 50_251_256
  {
    RoundsUpIff(price * 998, 1_000 * CENT);
    RoundsUpIff(price * 995, 1_000 * CENT);
    RoundsUpIff(price * 1002, 1_000 * CENT);
    RoundsUpIff(price * 1005, 1_000 * CENT);
  }

  lemma RoundsUpIff(n: int, d: int)
    requires n >= 0 && d > 0
    ensures RoundHalfEven(n, d) > 0 <==> 2 * n > d
  {
    var q, m := n / d, n % d;
    assert n == d * q + m;
    if q > 0 {
      assert d * q >= d;
      assert RoundHalfEven(n, d) >= q;
    } else {
      assert q == 0;
    }
  }

  /** A smaller quote would post a bid at zero, and a market sell meeting it would have
      the zero execution price that makes the matching transaction abort. */
  lemma TinyQuotePostsFreeBid(sell: BookOrder, id: OrderId, reference: int)
    requires sell.side == Sell && sell.price == 0
    ensures var bid := BookOrder(id, Buy, LevelPrice(50_251_256, 995), 1, 0);
            Crosses(bid, sell) && ExecutionPrice(bid, sell, Limit, Market, reference) == 0
  {
    RoundsUpIff(50_251_256 * 995, 1_000 * CENT);
  }

  // Quotes the simulator may publish: positive prices of markets that exist.
  predicate AllListed(t: Tables, quotes: seq<Quoted>) {
    AllPositive(quotes) && forall q :: q in quotes ==> q.symbol in t.markets
  }

  // Quotes whose levels all round to something positive.
  predicate AllQuotable(quotes: seq<Quoted>) {
    forall q :: q in quotes ==> q.price > 50_251_256
  }

  // --- What the simulator keeps --------------------------------------------------------------------

  // Users' rows, accounts and fills are untouched; system rows may only be withdrawn.
  ghost predicate LeavesUsersAlone(t: Tables, r: Tables) {
    && r.accounts == t.accounts && r.fills == t.fills && r.traders == t.traders && r.users == t.users
    && Evolves(t.orders, r.orders)
    && (forall id :: id in t.orders && !t.orders[id].system ==> r.orders[id] == t.orders[id])
    && (forall id :: id in t.orders && !IsOpen(t.orders[id]) ==> r.orders[id] == t.orders[id])
    && (forall id :: id in r.orders && id !in t.orders ==> id.SystemOrder? && r.orders[id].system)
    && r.markets.Keys == t.markets.Keys
  }

  lemma UsersAloneTransitive(a: Tables, b: Tables, c: Tables)
    requires LeavesUsersAlone(a, b) && LeavesUsersAlone(b, c)
    ensures LeavesUsersAlone(a, c)
  {
  }

  /** Reservations and user orders do not depend on system liquidity. */
  lemma UsersAloneKeepsResidual(t: Tables, r: Tables, key: AccountKey)
    requires LeavesUsersAlone(t, r) && key in t.accounts
    ensures Residual(r, key) == Residual(t, key)
  {
    var f := ReserveOf(r.orders, key);
    forall id | id in r.orders.Keys && id !in t.orders.Keys ensures f(id) == 0 { assert r.orders[id].system; }
    SumSubset(r.orders.Keys, t.orders.Keys, f);
    forall id | id in t.orders ensures f(id) == ReserveOf(t.orders, key)(id) {
      assert t.orders[id].system ==> r.orders[id].system;
    }
    SumEqual(t.orders.Keys, f, ReserveOf(t.orders, key));
  }

  // The same rows with some of the system's closed.
  ghost predicate Withdraws(t: Tables, r: Tables) {
    && LeavesUsersAlone(t, r) && r.orders.Keys == t.orders.Keys && r.markets == t.markets
    && (forall id :: id in t.orders ==> r.orders[id].remaining == t.orders[id].remaining)
    && (forall id :: id in t.orders && IsOpen(r.orders[id]) ==> IsOpen(t.orders[id]))
  }

  lemma WithdrawLeavesUsersAlone(t: Tables, symbol: Symbol)
    ensures Withdraws(t, WithdrawSystem(t, symbol))
  {
  }

  lemma WithdrawnLimitOk(t: Tables, r: Tables)
    requires OpenLimitOk(t) && LeavesUsersAlone(t, r) && r.orders.Keys == t.orders.Keys
    requires forall id :: id in t.orders && IsOpen(r.orders[id]) ==> IsOpen(t.orders[id])
    ensures OpenLimitOk(r)
  {
    forall user | user != MARKET_MAKER ensures |OpenOrdersOf(r.orders, user)| <= MAX_OPEN {
      FewerOpen(t.orders, r.orders, user);
    }
  }

  lemma WithdrawKeepsInvariant(t: Tables, symbol: Symbol)
    requires Invariant(t)
    ensures Invariant(WithdrawSystem(t, symbol)) && LeavesUsersAlone(t, WithdrawSystem(t, symbol))
  {
    var r := WithdrawSystem(t, symbol);
    WithdrawLeavesUsersAlone(t, symbol);
    WithdrawnRowsOk(t, symbol);
    WithdrawnOk(t, r);
  }

  lemma WithdrawnOk(t: Tables, r: Tables)
    requires Invariant(t) && Withdraws(t, r) && OrdersOk(r) && SequencesDistinct(r.orders)
    ensures Invariant(r)
  {
    WithdrawnFillsOk(t, r);
    SystemBalancesOk(t, r);
    WithdrawnLimitOk(t, r);
    AccountsStayOk(t, r);
  }

  lemma WithdrawnRowsOk(t: Tables, symbol: Symbol)
    requires OrdersOk(t) && SequencesDistinct(t.orders)
    ensures OrdersOk(WithdrawSystem(t, symbol)) && SequencesDistinct(WithdrawSystem(t, symbol).orders)
  {
    var r := WithdrawSystem(t, symbol);
    forall id | id in r.orders ensures Lifecycle(r.orders[id]) { assert Lifecycle(t.orders[id]); }
  }

  lemma WithdrawnFillsOk(t: Tables, r: Tables)
    requires FillsOk(t) && QuantitiesOk(t) && LeavesUsersAlone(t, r) && r.orders.Keys == t.orders.Keys
    requires forall id :: id in t.orders ==> r.orders[id].remaining == t.orders[id].remaining
    ensures FillsOk(r) && QuantitiesOk(r)
  {
    forall f | f in r.fills ensures FillOk(r.orders, f) { assert FillOk(t.orders, f); }
  }

  // A row the simulator may insert now.
  predicate Insertable(t: Tables, row: Order) {
    && row.system && row.user == MARKET_MAKER && row.status == Open && row.sequence == t.nextSequence
    && row.orderType == Limit && row.limitPrice >= 0 && row.quantity == row.remaining >= 0 && row.instrument in t.markets
  }

  lemma InsertSystemInserts(t: Tables, row: Order)
    requires OrdersOk(t) && Insertable(t, row)
    ensures Inserts(t, InsertSystem(t, row), SystemOrder(t.nextSequence), row)
    ensures LeavesUsersAlone(t, InsertSystem(t, row))
  {
    var id := SystemOrder(t.nextSequence);
    assert id !in t.orders;
  }

  lemma InsertSystemKeepsInvariant(t: Tables, row: Order)
    requires Invariant(t) && Insertable(t, row)
    ensures Invariant(InsertSystem(t, row)) && LeavesUsersAlone(t, InsertSystem(t, row))
  {
    var r, id := InsertSystem(t, row), SystemOrder(t.nextSequence);
    InsertSystemInserts(t, row);
    SystemRowsOk(t, r, id, row);
    SystemBalancesOk(t, r);
    assert AccountsOk(r);
  }

  lemma SystemRowsOk(t: Tables, r: Tables, id: OrderId, row: Order)
    requires OrdersOk(t) && SequencesDistinct(t.orders) && FillsOk(t) && QuantitiesOk(t) && OpenLimitOk(t) && AccountsOk(t)
    requires Insertable(t, row) && id == SystemOrder(t.nextSequence) && Inserts(t, r, id, row)
    ensures OrdersOk(r) && SequencesDistinct(r.orders) && FillsOk(r) && QuantitiesOk(r) && OpenLimitOk(r)
  {
    InsertedRowsOk(t, r, id, row);
    InsertedOpenLimitOk(t, r, id, row);
  }

  lemma SystemBalancesOk(t: Tables, r: Tables)
    requires FillsOk(t) && HoldingsOk(t) && AvailableOk(t) && LeavesUsersAlone(t, r)
    ensures HoldingsOk(r) && AvailableOk(r)
  {
    BalancesFollow(t, r);
  }

  lemma LevelKeepsInvariant(t: Tables, q: Quoted, side: Side, permille: int, notional: int)
    requires Invariant(t) && q.symbol in t.markets && q.price > 0 && permille > 0 && notional > 0
    ensures var r := InsertLevel(t, q, side, permille, notional);
            Invariant(r) && LeavesUsersAlone(t, r) && q.symbol in r.markets
  {
    InsertSystemKeepsInvariant(t, SystemRow(q, side, permille, notional, t.nextSequence));
  }

  lemma QuoteKeepsInvariant(t: Tables, symbol: Symbol, market: MarketState)
    requires Invariant(t) && symbol in t.markets && market.reference > 0
    ensures var r := t.(markets := t.markets[symbol := market]);
            Invariant(r) && LeavesUsersAlone(t, r)
  {
    var r := t.(markets := t.markets[symbol := market]);
    assert r.markets.Keys == t.markets.Keys;
    QuotedRowsOk(t, r);
    SystemBalancesOk(t, r);
    QuotedAccountsOk(t, r);
  }

  lemma QuotedAccountsOk(t: Tables, r: Tables)
    requires AccountsOk(t) && r == t.(markets := r.markets) && r.markets.Keys == t.markets.Keys
    requires forall m :: m in r.markets ==> r.markets[m].reference > 0
    ensures AccountsOk(r)
  {
  }

  lemma QuotedRowsOk(t: Tables, r: Tables)
    requires OrdersOk(t) && FillsOk(t) && QuantitiesOk(t) && OpenLimitOk(t)
    requires r == t.(markets := r.markets) && r.markets.Keys == t.markets.Keys
    ensures OrdersOk(r) && FillsOk(r) && QuantitiesOk(r) && OpenLimitOk(r)
  {
  }

  /** One market's step keeps the invariant and every user row. */
  lemma SimMarketKeepsInvariant(t: Tables, q: Quoted, liquidity: int)
    requires Invariant(t) && q.symbol in t.markets && q.price > 0 && liquidity > 0
    ensures var r := SimMarket(t, q, liquidity);
            Invariant(r) && LeavesUsersAlone(t, r)
  {
    var quoted := t.(markets := t.markets[q.symbol := MarketState(q.price, true)]);
    QuoteKeepsInvariant(t, q.symbol, MarketState(q.price, true));
    var withdrawn := WithdrawSystem(quoted, q.symbol);
    WithdrawKeepsInvariant(quoted, q.symbol);
    UsersAloneTransitive(t, quoted, withdrawn);
    var a := InsertLevel(withdrawn, q, Buy, 998, liquidity);
    LevelKeepsInvariant(withdrawn, q, Buy, 998, liquidity);
    UsersAloneTransitive(t, withdrawn, a);
    var b := InsertLevel(a, q, Buy, 995, 5 * liquidity);
    LevelKeepsInvariant(a, q, Buy, 995, 5 * liquidity);
    UsersAloneTransitive(t, a, b);
    var c := InsertLevel(b, q, Sell, 1002, liquidity);
    LevelKeepsInvariant(b, q, Sell, 1002, liquidity);
    UsersAloneTransitive(t, b, c);
    LevelKeepsInvariant(c, q, Sell, 1005, 5 * liquidity);
    UsersAloneTransitive(t, c, InsertLevel(c, q, Sell, 1005, 5 * liquidity));
  }

  /** A simulator transaction keeps the invariant, never touches a user's row, and leaves
      every reservation where it was. */
  lemma {:induction false} SimTickKeepsInvariant(t: Tables, quotes: seq<Quoted>, liquidity: int)
    requires Invariant(t) && liquidity > 0 && AllListed(t, quotes)
    ensures Invariant(SimTick(t, quotes, liquidity)) && LeavesUsersAlone(t, SimTick(t, quotes, liquidity))
    decreases |quotes|
  {
    if quotes != [] {
      assert quotes[0] in quotes;
      var mid := SimMarket(t, quotes[0], liquidity);
      SimMarketKeepsInvariant(t, quotes[0], liquidity);
      assert AllListed(mid, quotes[1..]) by { assert forall q :: q in quotes[1..] ==> q in quotes; }
      SimTickKeepsInvariant(mid, quotes[1..], liquidity);
      UsersAloneTransitive(t, mid, SimTick(t, quotes, liquidity));
    }
  }
}

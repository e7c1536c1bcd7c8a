/** Reference prices over runs: which quotes keep every matching transaction committing,
    and what the default price mode guarantees. */
module Prices {
  import opened FixedPoint
  import opened Domain
  import opened State
  import opened Matching
  import opened Tick
  import opened Trading
  import opened Simulator
  import opened Commands
  import opened Runs
  import opened Identity
  import opened History

  // --- Runs in which no order is at zero -----------------------------------------------------------

  ghost predicate LevelsPriced(t: Tables) {
    forall id :: id in t.orders && t.orders[id].system ==> t.orders[id].limitPrice > 0
  }

  lemma LevelStaysPriced(t: Tables, q: Quoted, side: Side, permille: int, notional: int)
    requires LevelsPriced(t) && q.price > 0 && permille > 0 && notional > 0 && LevelPrice(q.price, permille) > 0
    ensures LevelsPriced(InsertLevel(t, q, side, permille, notional))
  {
  }

  lemma SimMarketPriced(t: Tables, q: Quoted, liquidity: int)
    requires LevelsPriced(t) && q.price > 50_251_256 && liquidity > 0
    ensures LevelsPriced(SimMarket(t, q, liquidity))
  {
    LevelsPositiveIff(q.price);
    var withdrawn := WithdrawSystem(t.(markets := t.markets[q.symbol := MarketState(q.price, true)]), q.symbol);
    assert LevelsPriced(withdrawn);
    LevelStaysPriced(withdrawn, q, Buy, 998, liquidity);
    var a := InsertLevel(withdrawn, q, Buy, 998, liquidity);
    LevelStaysPriced(a, q, Buy, 995, 5 * liquidity);
    var b := InsertLevel(a, q, Buy, 995, 5 * liquidity);
    LevelStaysPriced(b, q, Sell, 1002, liquidity);
    LevelStaysPriced(InsertLevel(b, q, Sell, 1002, liquidity), q, Sell, 1005, 5 * liquidity);
  }

  lemma {:induction false} SimTickPriced(t: Tables, quotes: seq<Quoted>, liquidity: int)
    requires LevelsPriced(t) && AllPositive(quotes) && AllQuotable(quotes) && liquidity > 0
    ensures LevelsPriced(SimTick(t, quotes, liquidity))
    decreases |quotes|
  {
    if quotes != [] {
      assert quotes[0] in quotes && forall q :: q in quotes[1..] ==> q in quotes;
      SimMarketPriced(t, quotes[0], liquidity);
      SimTickPriced(SimMarket(t, quotes[0], liquidity), quotes[1..], liquidity);
    }
  }

  // Only the simulator's tick inserts system orders.
  ghost predicate InsertsNoLevels(t: Tables, r: Tables) {
    forall id :: id in r.orders && id !in t.orders ==> id.UserOrder?
  }

  lemma PlaceInsertsNoLevels(t: Tables, user: UserId, order: NewOrder)
    ensures InsertsNoLevels(t, Place(t, user, order).0)
  {
    PlaceChangesOnlyByCreating(t, user, order);
    if Places(t, user, order) { PlaceInserts(t, user, order); }
  }

  lemma CommandInsertsNoLevels(t: Tables, c: Command)
    requires OrdersOk(t) && AccountsOk(t)
    ensures InsertsNoLevels(t, Apply(t, c).0)
  {
    if Owns(t, c) && c.action.PlaceOrder? { PlaceInsertsNoLevels(t, c.user, c.action.order); }
  }

  lemma StepInsertsNoLevels(t: Tables, step: Step)
    requires OrdersOk(t) && AccountsOk(t) && Enabled(t, step) && !step.SimulateStep?
    ensures InsertsNoLevels(t, Next(t, step))
  {
    match step {
      case PlaceStep(user, order) => PlaceInsertsNoLevels(t, user, order);
      case ConsumeStep(c) => CommandInsertsNoLevels(t, c);
      case _ =>
    }
  }

  lemma RowsStayPriced(t: Tables, r: Tables)
    requires LevelsPriced(t) && OrdersOk(r) && Follows(t, r) && InsertsNoLevels(t, r)
    ensures LevelsPriced(r)
  {
    forall id | id in r.orders && r.orders[id].system ensures r.orders[id].limitPrice > 0 {
      assert OwnedBy(id, r.orders[id]);
      assert id in t.orders && OrderFollows(t, r, id);
    }
  }

  predicate QuotesPriced(step: Step) {
    step.SimulateStep? ==> AllQuotable(step.quotes)
  }

  lemma StepStaysPriced(t: Tables, step: Step)
    requires Invariant(t) && Enabled(t, step) && LevelsPriced(t) && QuotesPriced(step)
    ensures LevelsPriced(Next(t, step))
  {
    if step.SimulateStep? {
      SimTickPriced(t, step.quotes, step.liquidity);
    } else {
      StepKeepsInvariant(t, step);
      StepFollows(t, step);
      StepInsertsNoLevels(t, step);
      RowsStayPriced(t, Next(t, step));
    }
  }

  ghost predicate AllCommit(t: Tables) {
    forall m :: m in t.markets ==> Commits(t, m)
  }

  lemma PricedCommits(t: Tables)
    requires Invariant(t) && LevelsPriced(t)
    ensures AllCommit(t)
  {
    forall m | m in t.markets ensures Commits(t, m) {
      forall id | id in OpenIds(t.orders, m)
        ensures t.orders[id].limitPrice > 0 || (t.orders[id].side == Sell && t.orders[id].orderType == Market)
      {
        assert PriceOk(t.orders[id]);
      }
      PricesStatedCommits(t, m);
    }
  }

  /** In every state of every run whose quotes exceed half a cent by enough for the widest
      level, a matching transaction on any market commits. */
  lemma {:induction false} RunAlwaysCommits(t: Tables, steps: seq<Step>)
    requires Invariant(t) && LevelsPriced(t) && Possible(t, steps)
    requires forall step :: step in steps ==> QuotesPriced(step)
    ensures AllCommit(After(t, steps))
    decreases |steps|
  {
    if steps == [] {
      PricedCommits(t);
    } else {
      assert steps[0] in steps && forall step :: step in steps[1..] ==> step in steps;
      StepKeepsInvariant(t, steps[0]);
      StepStaysPriced(t, steps[0]);
      RunAlwaysCommits(Next(t, steps[0]), steps[1..]);
    }
  }

  // --- Quotes that stop a market ---------------------------------------------------------------------

  // All open bids of the market are at zero.
  predicate OnlyFreeBids(orders: map<OrderId, Order>, symbol: Symbol) {
    forall id :: id in OpenIds(orders, symbol) && orders[id].side == Buy ==> orders[id].limitPrice == 0
  }

  // At most this, every level rounds to zero.
  lemma TinyLevels(price: int)
    requires 0 < price <= 49_900_199
    ensures LevelPrice(price, 998) == 0 && LevelPrice(price, 995) == 0 && LevelPrice(price, 1002) == 0
  {
    RoundsUpIff(price * 998, 1_000 * CENT);
    RoundsUpIff(price * 995, 1_000 * CENT);
    RoundsUpIff(price * 1002, 1_000 * CENT);
  }

  lemma LevelInserted(t: Tables, q: Quoted, side: Side, permille: int, notional: int, r: Tables)
    requires q.price > 0 && permille > 0 && notional > 0 && r == InsertLevel(t, q, side, permille, notional)
    requires OnlyFreeBids(t.orders, q.symbol) && (side == Buy ==> LevelPrice(q.price, permille) == 0)
    ensures var id := SystemOrder(t.nextSequence);
            && id in r.orders && r.orders[id] == SystemRow(q, side, permille, notional, t.nextSequence)
            && (forall other :: other in t.orders && other != id ==> other in r.orders && r.orders[other] == t.orders[other])
    ensures r.nextSequence == t.nextSequence + 1 && OnlyFreeBids(r.orders, q.symbol)
  {
  }

  lemma WithdrawnHasNoBids(t: Tables, q: Quoted, r: Tables)
    requires forall id :: id in OpenIds(t.orders, q.symbol) && t.orders[id].side == Buy ==> t.orders[id].system
    requires r == WithdrawSystem(t.(markets := t.markets[q.symbol := MarketState(q.price, true)]), q.symbol)
    ensures OnlyFreeBids(r.orders, q.symbol) && r.nextSequence == t.nextSequence
  {
  }

  // The bids go in first, the asks after them.
  lemma FreeBidsPosted(t: Tables, q: Quoted, liquidity: int, a: Tables, b: Tables)
    requires 0 < q.price <= 49_900_199 && liquidity > 0 && OnlyFreeBids(t.orders, q.symbol)
    requires a == InsertLevel(t, q, Buy, 998, liquidity) && b == InsertLevel(a, q, Buy, 995, 5 * liquidity)
    ensures OnlyFreeBids(b.orders, q.symbol) && b.nextSequence == t.nextSequence + 2
    ensures SystemOrder(t.nextSequence) in b.orders
    ensures b.orders[SystemOrder(t.nextSequence)] == SystemRow(q, Buy, 998, liquidity, t.nextSequence)
  {
    TinyLevels(q.price);
    LevelInserted(t, q, Buy, 998, liquidity, a);
    LevelInserted(a, q, Buy, 995, 5 * liquidity, b);
  }

  lemma FreeLevelsPosted(b: Tables, q: Quoted, liquidity: int, c: Tables, r: Tables, n: nat)
    requires q.price > 0 && liquidity > 0 && OnlyFreeBids(b.orders, q.symbol) && b.nextSequence == n + 2
    requires SystemOrder(n) in b.orders && b.orders[SystemOrder(n)] == SystemRow(q, Buy, 998, liquidity, n)
    requires c == InsertLevel(b, q, Sell, 1002, liquidity) && r == InsertLevel(c, q, Sell, 1005, 5 * liquidity)
    ensures Posts(n, q, liquidity, r)
  {
    LevelInserted(b, q, Sell, 1002, liquidity, c);
    LevelInserted(c, q, Sell, 1005, 5 * liquidity, r);
  }

  // What the simulator's tick leaves: a bid and an ask at zero, and no other bids.
  ghost predicate Posts(n: nat, q: Quoted, liquidity: int, r: Tables)
    requires q.price > 0 && liquidity > 0
  {
    var bid, ask := SystemOrder(n), SystemOrder(n + 2);
    && OnlyFreeBids(r.orders, q.symbol)
    && bid in r.orders && r.orders[bid] == SystemRow(q, Buy, 998, liquidity, n)
    && ask in r.orders && r.orders[ask] == SystemRow(q, Sell, 1002, liquidity, n + 2)
  }

  lemma TinyQuotePosts(t: Tables, q: Quoted, liquidity: int)
    requires 0 < q.price <= 49_900_199 && liquidity > 0
    requires forall id :: id in OpenIds(t.orders, q.symbol) && t.orders[id].side == Buy ==> t.orders[id].system
    ensures Posts(t.nextSequence, q, liquidity, SimMarket(t, q, liquidity))
  {
    var withdrawn := WithdrawSystem(t.(markets := t.markets[q.symbol := MarketState(q.price, true)]), q.symbol);
    WithdrawnHasNoBids(t, q, withdrawn);
    var a := InsertLevel(withdrawn, q, Buy, 998, liquidity);
    var b := InsertLevel(a, q, Buy, 995, 5 * liquidity);
    var c := InsertLevel(b, q, Sell, 1002, liquidity);
    FreeBidsPosted(withdrawn, q, liquidity, a, b);
    FreeLevelsPosted(b, q, liquidity, c, SimMarket(t, q, liquidity), t.nextSequence);
  }

  // Though two orders of the market meet, matching it changes nothing.
  ghost predicate Stuck(t: Tables, symbol: Symbol) {
    && symbol in t.markets && !Commits(t, symbol) && MatchTick(t, symbol) == t
    && exists buy, sell :: Meet(t.orders, symbol, buy, sell)
  }

  lemma FreeLevelsMeet(r: Tables, q: Quoted, liquidity: int, n: nat)
    requires 0 < q.price <= 49_900_199 && liquidity > 0 && LevelQuantity(liquidity, q.price) > 0
    requires Posts(n, q, liquidity, r)
    ensures Meet(r.orders, q.symbol, SystemOrder(n), SystemOrder(n + 2))
  {
    TinyLevels(q.price);
  }

  lemma PostsStick(r: Tables, q: Quoted, liquidity: int, n: nat)
    requires 0 < q.price <= 49_900_199 && liquidity > 0 && LevelQuantity(liquidity, q.price) > 0
    requires Invariant(r) && q.symbol in r.markets && Posts(n, q, liquidity, r)
    ensures Stuck(r, q.symbol)
  {
    FreeLevelsMeet(r, q, liquidity, n);
    FreeBidsAbort(r, q.symbol, SystemOrder(n), SystemOrder(n + 2));
  }

  /** In any state in which no user has an open buy on a market, a quote of at most
      49900199 units makes its matching transaction abort, although its own bid and ask at
      zero meet; the market does not trade until the book changes. */
  lemma TinyQuoteStopsMarket(t: Tables, q: Quoted, liquidity: int)
    requires Invariant(t) && q.symbol in t.markets && liquidity > 0
    requires 0 < q.price <= 49_900_199 && LevelQuantity(liquidity, q.price) > 0
    requires forall id :: id in OpenIds(t.orders, q.symbol) && t.orders[id].side == Buy ==> t.orders[id].system
    ensures Stuck(SimMarket(t, q, liquidity), q.symbol)
  {
    SimMarketKeepsInvariant(t, q, liquidity);
    TinyQuotePosts(t, q, liquidity);
    PostsStick(SimMarket(t, q, liquidity), q, liquidity, t.nextSequence);
  }

  // --- The default price mode ------------------------------------------------------------------------

  // The price a market was created with, which the generator keeps as its anchor.
  function Anchor(symbol: Symbol): int
    requires symbol in Genesis().markets
  {
    Genesis().markets[symbol].reference
  }

  // The quote is the generator's next price from the market's stored one.
  ghost predicate Generated(t: Tables, q: Quoted) {
    && q.symbol in Genesis().markets && q.symbol in t.markets && t.markets[q.symbol].reference > 0
    && exists noise | -15 <= noise <= 15 :: q.price == StoredReference(NextPrice(t.markets[q.symbol].reference, Anchor(q.symbol), noise))
  }

  ghost predicate GeneratedRun(t: Tables, steps: seq<Step>)
    requires Possible(t, steps)
    decreases |steps|
  {
    steps == []
    || (&& (steps[0].SimulateStep? ==> forall q :: q in steps[0].quotes ==> Generated(t, q))
        && GeneratedRun(Next(t, steps[0]), steps[1..]))
  }

  // A generated price, in units of 1e-14, that the column stores as a multiple of twenty.
  predicate StoresEvenly(price: int) {
    StoredReference(price) % 20 == 0
  }

  lemma StoredMultiple(price: int, n: int)
    requires n >= 0 && price == 200_000 * n
    ensures StoresEvenly(price)
  {
    assert price / 100 == 2_000 * n;
    assert (2_000 * n + 50) / 100 == 20 * n;
  }

  lemma ClampStoresEvenly(cents: int, low: int, high: int, cent: int)
    requires StoresEvenly(cents) && StoresEvenly(low) && StoresEvenly(high) && StoresEvenly(cent)
    ensures StoresEvenly(Min(Max(cents, Max(low, cent)), Max(high, cent)))
  {
  }

  lemma BandStoresEvenly(cents: int, anchor: int)
    requires cents >= 0 && anchor > 0 && anchor % 40 == 0
    ensures StoresEvenly(Min(Max(cents * (10_000 * CENT), Max(anchor * 5_000, 10_000 * CENT)), Max(anchor * 15_000, 10_000 * CENT)))
  {
    StoredMultiple(cents * (10_000 * CENT), 5_000_000 * cents);
    StoredMultiple(anchor * 5_000, anchor / 40);
    StoredMultiple(anchor * 15_000, 3 * (anchor / 40));
    StoredMultiple(10_000 * CENT, 5_000_000);
    ClampStoresEvenly(cents * (10_000 * CENT), anchor * 5_000, anchor * 15_000, 10_000 * CENT);
  }

  /** From an anchor of at most eight decimals every generated price is storable in the
      sense of the reservation equation. */
  lemma GeneratedIsStorable(current: int, anchor: int, noise: int)
    requires current > 0 && anchor > 0 && anchor % 40 == 0 && -15 <= noise <= 15
    ensures StoresEvenly(NextPrice(current, anchor, noise))
  {
    StepIsPositive(current, anchor, noise);
    BandStoresEvenly(RoundHalfEven(current * (10_000 + noise) + (anchor - current) * 2, 10_000 * CENT), anchor);
  }

  lemma AnchorOk(symbol: Symbol)
    requires symbol in Genesis().markets
    ensures Anchor(symbol) > 0 && Anchor(symbol) % 40 == 0 && Anchor(symbol) * 3 >= 2 * CENT
  {
  }

  lemma BandIsStored(price: int, anchor: int)
    requires anchor > 0 && anchor % 40 == 0 && anchor * 5_000 <= price <= anchor * 15_000
    ensures anchor <= 2 * StoredReference(price) && 2 * StoredReference(price) <= 3 * anchor
  {
    assert anchor * 50 <= price / 100 <= anchor * 150;
  }

  lemma GeneratedPriceOk(current: int, anchor: int, noise: int)
    requires current > 0 && anchor > 0 && anchor % 40 == 0 && anchor * 3 >= 2 * CENT && -15 <= noise <= 15
    ensures var price := StoredReference(NextPrice(current, anchor, noise));
            price > 50_251_256 && price % 20 == 0 && anchor <= 2 * price && 2 * price <= 3 * anchor
  {
    NextPriceStaysInBand(current, anchor, noise);
    GeneratedIsStorable(current, anchor, noise);
    BandIsStored(NextPrice(current, anchor, noise), anchor);
  }

  lemma GeneratedQuoteOk(t: Tables, q: Quoted)
    requires Generated(t, q)
    ensures q.price > 50_251_256 && q.price % 20 == 0
    ensures Anchor(q.symbol) <= 2 * q.price && 2 * q.price <= 3 * Anchor(q.symbol)
  {
    AnchorOk(q.symbol);
    var noise :| -15 <= noise <= 15 && q.price == StoredReference(NextPrice(t.markets[q.symbol].reference, Anchor(q.symbol), noise));
    GeneratedPriceOk(t.markets[q.symbol].reference, Anchor(q.symbol), noise);
  }

  lemma {:induction false} GeneratedQuotesOk(t: Tables, steps: seq<Step>)
    requires Possible(t, steps) && GeneratedRun(t, steps)
    ensures forall step :: step in steps ==> QuotesStorable(step) && QuotesPriced(step)
    decreases |steps|
  {
    if steps != [] {
      GeneratedQuotesOk(Next(t, steps[0]), steps[1..]);
      if steps[0].SimulateStep? {
        forall q | q in steps[0].quotes ensures q.price > 50_251_256 && q.price % 20 == 0 { GeneratedQuoteOk(t, q); }
      }
      assert steps == [steps[0]] + steps[1..];
    }
  }

  lemma GeneratedRunIsExact(t: Tables, steps: seq<Step>)
    requires Invariant(t) && Storable(t) && ReservationsExact(t) && LevelsPriced(t)
    requires Possible(t, steps) && GeneratedRun(t, steps)
    ensures ReservationsExact(After(t, steps)) && AllCommit(After(t, steps)) && OrdersOk(After(t, steps))
  {
    GeneratedQuotesOk(t, steps);
    RunKeepsReservations(t, steps);
    RunAlwaysCommits(t, steps);
    RunKeepsInvariant(t, steps);
  }

  lemma GenesisStorable()
    ensures Storable(Genesis()) && LevelsPriced(Genesis())
  {
  }

  lemma NoneReservedBelowZero(t: Tables)
    requires OrdersOk(t) && ReservationsExact(t)
    ensures forall key :: key in t.accounts ==> t.accounts[key].reserved >= 0
  {
    forall key | key in t.accounts ensures t.accounts[key].reserved >= 0 { ReservedMatchesOpenOrders(t, key); }
  }

  /** With generated prices, as by default, every state the exchange can reach from its
      migrated database satisfies the reservation equation, has no negative reserved
      balance, and lets the matching transaction of every market commit. */
  lemma DefaultModeIsExact(steps: seq<Step>)
    requires Possible(Genesis(), steps) && GeneratedRun(Genesis(), steps)
    ensures var r := After(Genesis(), steps);
            && ReservationsExact(r) && AllCommit(r)
            && (forall key :: key in r.accounts ==> r.accounts[key].reserved >= 0)
  {
    GenesisOk();
    GenesisStorable();
    GeneratedRunIsExact(Genesis(), steps);
    NoneReservedBelowZero(After(Genesis(), steps));
  }
}

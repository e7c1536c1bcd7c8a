/** What a simulator's tick leaves in the tables: every market shows its quote, with exactly
    four levels around it. */
module Liquidity {
  import opened FixedPoint
  import opened Domain
  import opened State
  import opened Simulator

  // One level around a quote: a price to the nearest cent and a size to the nearest 1e-8,
  // midpoints to even.
  ghost predicate LevelAt(o: Order, q: Quoted, side: Side, permille: int, notional: int, number: nat) {
    && o.user == MARKET_MAKER && o.system && o.instrument == q.symbol && o.side == side && o.orderType == Limit
    && o.status == Open && o.remaining == o.quantity && o.sequence == number
    && o.limitPrice % CENT == 0 && NearestEven(q.price * permille, 1_000 * CENT, o.limitPrice / CENT)
    && o.quantity % 100 == 0 && NearestEven(notional * 100_000_000, q.price, o.quantity / 100)
  }

  /** So a level's price is within half a cent of its share of the quote, and the cost of
      its size at the quote is within half a step of its notional. */
  lemma LevelIsClose(o: Order, q: Quoted, side: Side, permille: int, notional: int, number: nat)
    requires LevelAt(o, q, side, permille, notional, number)
    ensures -500 * CENT <= 1_000 * o.limitPrice - q.price * permille <= 500 * CENT
    ensures -q.price <= 2 * (q.price * (o.quantity / 100) - notional * 100_000_000) <= q.price
  {
    assert o.limitPrice == CENT * (o.limitPrice / CENT);
  }

  lemma SystemRowIsLevel(q: Quoted, side: Side, permille: int, notional: int, number: nat)
    requires q.price > 0 && permille > 0 && notional > 0
    ensures LevelAt(SystemRow(q, side, permille, notional, number), q, side, permille, notional, number)
  {
    MultiplyNonNegative(q.price, permille);
    var cents, steps := RoundHalfEven(q.price * permille, 1_000 * CENT), RoundHalfEven(notional * 100_000_000, q.price);
    RoundHalfEvenNearest(q.price * permille, 1_000 * CENT);
    RoundHalfEvenNearest(notional * 100_000_000, q.price);
    assert (CENT * cents) / CENT == cents && (CENT * cents) % CENT == 0;
    assert (100 * steps) / 100 == steps && (100 * steps) % 100 == 0;
  }

  // The four orders that stand for a quote.
  ghost predicate FourLevels(orders: map<OrderId, Order>, q: Quoted, liquidity: int, n: nat) {
    && SystemOrder(n) in orders && SystemOrder(n + 1) in orders && SystemOrder(n + 2) in orders && SystemOrder(n + 3) in orders
    && LevelAt(orders[SystemOrder(n)], q, Buy, 998, liquidity, n)
    && LevelAt(orders[SystemOrder(n + 1)], q, Buy, 995, 5 * liquidity, n + 1)
    && LevelAt(orders[SystemOrder(n + 2)], q, Sell, 1002, liquidity, n + 2)
    && LevelAt(orders[SystemOrder(n + 3)], q, Sell, 1005, 5 * liquidity, n + 3)
  }

  predicate OpenSystem(o: Order, symbol: Symbol) {
    o.system && o.instrument == symbol && o.status in {Open, PartiallyFilled}
  }

  // Every old row as it was, but for the market's open system orders, which are cancelled.
  ghost predicate LiquidityReplaced(t: Tables, r: Tables, symbol: Symbol) {
    && r.orders.Keys == t.orders.Keys + {SystemOrder(t.nextSequence), SystemOrder(t.nextSequence + 1),
                                         SystemOrder(t.nextSequence + 2), SystemOrder(t.nextSequence + 3)}
    && forall id :: id in t.orders ==>
         r.orders[id] == if OpenSystem(t.orders[id], symbol) then t.orders[id].(status := Cancelled) else t.orders[id]
  }

  lemma NumberIsNew(t: Tables, n: nat)
    requires OrdersOk(t) && n >= t.nextSequence
    ensures SystemOrder(n) !in t.orders
  {
    if SystemOrder(n) in t.orders { assert false; }
  }

  lemma InsertedLevel(t: Tables, q: Quoted, side: Side, permille: int, notional: int, r: Tables) returns (o: Order)
    requires q.price > 0 && permille > 0 && notional > 0 && r == InsertLevel(t, q, side, permille, notional)
    ensures r == t.(orders := t.orders[SystemOrder(t.nextSequence) := o], nextSequence := t.nextSequence + 1)
    ensures LevelAt(o, q, side, permille, notional, t.nextSequence)
  {
    o := SystemRow(q, side, permille, notional, t.nextSequence);
    SystemRowIsLevel(q, side, permille, notional, t.nextSequence);
  }

  // Four rows under the next four numbers.
  ghost function WithFour(orders: map<OrderId, Order>, n: nat, a: Order, b: Order, c: Order, d: Order): map<OrderId, Order> {
    orders[SystemOrder(n) := a][SystemOrder(n + 1) := b][SystemOrder(n + 2) := c][SystemOrder(n + 3) := d]
  }

  lemma LevelsInserted(w: Tables, q: Quoted, liquidity: int, r: Tables) returns (a: Order, b: Order, c: Order, d: Order)
    requires q.price > 0 && liquidity > 0
    requires r == InsertLevel(InsertLevel(InsertLevel(InsertLevel(w, q, Buy, 998, liquidity), q, Buy, 995, 5 * liquidity),
                                          q, Sell, 1002, liquidity), q, Sell, 1005, 5 * liquidity)
    ensures r == w.(orders := WithFour(w.orders, w.nextSequence, a, b, c, d), nextSequence := w.nextSequence + 4)
    ensures LevelAt(a, q, Buy, 998, liquidity, w.nextSequence) && LevelAt(b, q, Buy, 995, 5 * liquidity, w.nextSequence + 1)
    ensures LevelAt(c, q, Sell, 1002, liquidity, w.nextSequence + 2) && LevelAt(d, q, Sell, 1005, 5 * liquidity, w.nextSequence + 3)
  {
    var x := InsertLevel(w, q, Buy, 998, liquidity);
    var y := InsertLevel(x, q, Buy, 995, 5 * liquidity);
    var z := InsertLevel(y, q, Sell, 1002, liquidity);
    a := InsertedLevel(w, q, Buy, 998, liquidity, x);
    b := InsertedLevel(x, q, Buy, 995, 5 * liquidity, y);
    c := InsertedLevel(y, q, Sell, 1002, liquidity, z);
    d := InsertedLevel(z, q, Sell, 1005, 5 * liquidity, r);
  }

  lemma FourRows(orders: map<OrderId, Order>, n: nat, a: Order, b: Order, c: Order, d: Order)
    ensures var r := WithFour(orders, n, a, b, c, d);
            && r.Keys == orders.Keys + {SystemOrder(n), SystemOrder(n + 1), SystemOrder(n + 2), SystemOrder(n + 3)}
            && r[SystemOrder(n)] == a && r[SystemOrder(n + 1)] == b && r[SystemOrder(n + 2)] == c && r[SystemOrder(n + 3)] == d
            && (forall id :: id in orders && id !in {SystemOrder(n), SystemOrder(n + 1), SystemOrder(n + 2), SystemOrder(n + 3)} ==>
                  r[id] == orders[id])
  {
  }

  lemma Withdrawn(t: Tables, symbol: Symbol, w: Tables)
    requires w == WithdrawSystem(t, symbol)
    ensures w == t.(orders := w.orders) && w.orders.Keys == t.orders.Keys
    ensures forall id :: id in t.orders ==>
              w.orders[id] == if OpenSystem(t.orders[id], symbol) then t.orders[id].(status := Cancelled) else t.orders[id]
  {
  }

  lemma FourReplace(t: Tables, w: Tables, r: Tables, symbol: Symbol, n: nat, a: Order, b: Order, c: Order, d: Order)
    requires OrdersOk(t) && n == t.nextSequence && w.orders.Keys == t.orders.Keys
    requires forall id :: id in t.orders ==>
               w.orders[id] == if OpenSystem(t.orders[id], symbol) then t.orders[id].(status := Cancelled) else t.orders[id]
    requires r.orders == WithFour(w.orders, n, a, b, c, d)
    ensures LiquidityReplaced(t, r, symbol)
    ensures r.orders[SystemOrder(n)] == a && r.orders[SystemOrder(n + 1)] == b
    ensures r.orders[SystemOrder(n + 2)] == c && r.orders[SystemOrder(n + 3)] == d
  {
    FourRows(w.orders, n, a, b, c, d);
    NumberIsNew(t, n);
    NumberIsNew(t, n + 1);
    NumberIsNew(t, n + 2);
    NumberIsNew(t, n + 3);
  }

  lemma LevelsReplace(t: Tables, w: Tables, r: Tables, q: Quoted, liquidity: int)
    requires OrdersOk(t) && q.price > 0 && liquidity > 0 && w.nextSequence == t.nextSequence && w.orders.Keys == t.orders.Keys
    requires forall id :: id in t.orders ==>
               w.orders[id] == if OpenSystem(t.orders[id], q.symbol) then t.orders[id].(status := Cancelled) else t.orders[id]
    requires r == InsertLevel(InsertLevel(InsertLevel(InsertLevel(w, q, Buy, 998, liquidity), q, Buy, 995, 5 * liquidity),
                                          q, Sell, 1002, liquidity), q, Sell, 1005, 5 * liquidity)
    ensures r == w.(orders := r.orders, nextSequence := t.nextSequence + 4)
    ensures LiquidityReplaced(t, r, q.symbol) && FourLevels(r.orders, q, liquidity, t.nextSequence)
  {
    var a, b, c, d := LevelsInserted(w, q, liquidity, r);
    FourReplace(t, w, r, q.symbol, t.nextSequence, a, b, c, d);
  }

  /** A quote: the reference is the quote and fresh, the market's old liquidity is
      cancelled on both sides, the four levels are posted, and nothing else changes. */
  lemma QuoteOutcome(t: Tables, q: Quoted, liquidity: int)
    requires OrdersOk(t) && q.price > 0 && liquidity > 0
    ensures var r := SimMarket(t, q, liquidity);
            && r == t.(orders := r.orders, markets := t.markets[q.symbol := MarketState(q.price, true)],
                       nextSequence := t.nextSequence + 4)
            && LiquidityReplaced(t, r, q.symbol) && FourLevels(r.orders, q, liquidity, t.nextSequence)
  {
    var quoted := t.(markets := t.markets[q.symbol := MarketState(q.price, true)]);
    var w := WithdrawSystem(quoted, q.symbol);
    Withdrawn(quoted, q.symbol, w);
    LevelsReplace(t, w, SimMarket(t, q, liquidity), q, liquidity);
  }

  // Rows that were not there before are the market's.
  ghost predicate NewRowsAt(t: Tables, r: Tables, symbol: Symbol) {
    forall id :: id in r.orders && id !in t.orders ==> r.orders[id].instrument == symbol
  }

  lemma LevelsAreNewRows(t: Tables, r: Tables, q: Quoted, liquidity: int)
    requires LiquidityReplaced(t, r, q.symbol) && FourLevels(r.orders, q, liquidity, t.nextSequence)
    ensures NewRowsAt(t, r, q.symbol)
  {
  }

  // The market shows the quote, and its open system orders are exactly four levels.
  ghost predicate ShowsQuote(t: Tables, q: Quoted, liquidity: int, n: nat) {
    && q.symbol in t.markets && t.markets[q.symbol] == MarketState(q.price, true)
    && FourLevels(t.orders, q, liquidity, n)
    && (forall id :: id in t.orders && OpenSystem(t.orders[id], q.symbol) ==>
          id in {SystemOrder(n), SystemOrder(n + 1), SystemOrder(n + 2), SystemOrder(n + 3)})
  }

  lemma QuoteShown(t: Tables, q: Quoted, liquidity: int)
    requires OrdersOk(t) && q.price > 0 && liquidity > 0
    ensures ShowsQuote(SimMarket(t, q, liquidity), q, liquidity, t.nextSequence)
  {
    QuoteOutcome(t, q, liquidity);
    ReplacedShows(t, SimMarket(t, q, liquidity), q, liquidity);
  }

  lemma ReplacedShows(t: Tables, r: Tables, q: Quoted, liquidity: int)
    requires LiquidityReplaced(t, r, q.symbol) && FourLevels(r.orders, q, liquidity, t.nextSequence)
    requires q.symbol in r.markets && r.markets[q.symbol] == MarketState(q.price, true)
    ensures ShowsQuote(r, q, liquidity, t.nextSequence)
  {
  }

  lemma LevelsStay(before: map<OrderId, Order>, after: map<OrderId, Order>, q: Quoted, liquidity: int, n: nat)
    requires FourLevels(before, q, liquidity, n)
    requires forall id :: id in {SystemOrder(n), SystemOrder(n + 1), SystemOrder(n + 2), SystemOrder(n + 3)} ==>
               id in after && after[id] == before[id]
    ensures FourLevels(after, q, liquidity, n)
  {
  }

  lemma LevelsBelong(orders: map<OrderId, Order>, q: Quoted, liquidity: int, n: nat)
    requires FourLevels(orders, q, liquidity, n)
    ensures forall id :: id in {SystemOrder(n), SystemOrder(n + 1), SystemOrder(n + 2), SystemOrder(n + 3)} ==>
              id in orders && orders[id].instrument == q.symbol
  {
  }

  lemma ShownStays(t: Tables, r: Tables, q: Quoted, liquidity: int, n: nat, symbol: Symbol)
    requires ShowsQuote(t, q, liquidity, n) && symbol != q.symbol
    requires LiquidityReplaced(t, r, symbol) && NewRowsAt(t, r, symbol)
    requires q.symbol in r.markets && r.markets[q.symbol] == t.markets[q.symbol]
    ensures ShowsQuote(r, q, liquidity, n)
  {
    LevelsBelong(t.orders, q, liquidity, n);
    LevelsStay(t.orders, r.orders, q, liquidity, n);
  }

  lemma OtherQuoteKeepsLevels(t: Tables, q: Quoted, liquidity: int, n: nat, other: Quoted)
    requires OrdersOk(t) && ShowsQuote(t, q, liquidity, n) && other.symbol != q.symbol && other.price > 0 && liquidity > 0
    ensures ShowsQuote(SimMarket(t, other, liquidity), q, liquidity, n)
  {
    QuoteOutcome(t, other, liquidity);
    LevelsAreNewRows(t, SimMarket(t, other, liquidity), other, liquidity);
    ShownStays(t, SimMarket(t, other, liquidity), q, liquidity, n, other.symbol);
  }

  lemma {:induction false} OtherQuotesKeepLevels(t: Tables, quotes: seq<Quoted>, q: Quoted, liquidity: int, n: nat)
    requires Invariant(t) && liquidity > 0 && AllListed(t, quotes) && ShowsQuote(t, q, liquidity, n)
    requires forall other :: other in quotes ==> other.symbol != q.symbol
    ensures ShowsQuote(SimTick(t, quotes, liquidity), q, liquidity, n)
    decreases |quotes|
  {
    if quotes != [] {
      assert quotes[0] in quotes;
      SimMarketKeepsInvariant(t, quotes[0], liquidity);
      OtherQuoteKeepsLevels(t, q, liquidity, n, quotes[0]);
      RestListed(t, quotes, liquidity);
      OtherQuotesKeepLevels(SimMarket(t, quotes[0], liquidity), quotes[1..], q, liquidity, n);
    }
  }

  lemma RestListed(t: Tables, quotes: seq<Quoted>, liquidity: int)
    requires OrdersOk(t) && liquidity > 0 && AllListed(t, quotes) && quotes != []
    ensures quotes[0].price > 0 && AllListed(SimMarket(t, quotes[0], liquidity), quotes[1..])
  {
    assert quotes[0] in quotes && forall q :: q in quotes[1..] ==> q in quotes;
    QuoteOutcome(t, quotes[0], liquidity);
  }

  predicate DifferentMarkets(quotes: seq<Quoted>) {
    forall i, j :: 0 <= i < j < |quotes| ==> quotes[i].symbol != quotes[j].symbol
  }

  lemma OthersDiffer(quotes: seq<Quoted>)
    requires quotes != [] && DifferentMarkets(quotes)
    ensures DifferentMarkets(quotes[1..]) && forall other :: other in quotes[1..] ==> other.symbol != quotes[0].symbol
  {
    forall other | other in quotes[1..] ensures other.symbol != quotes[0].symbol {
      var i :| 0 <= i < |quotes[1..]| && quotes[1..][i] == other;
      assert quotes[i + 1] == other;
    }
  }

  lemma FirstQuoteShown(t: Tables, quotes: seq<Quoted>, liquidity: int)
    requires Invariant(t) && liquidity > 0 && AllListed(t, quotes) && quotes != []
    requires DifferentMarkets(quotes)
    ensures ShowsQuote(SimTick(t, quotes, liquidity), quotes[0], liquidity, t.nextSequence)
  {
    RestListed(t, quotes, liquidity);
    FirstKeepsInvariant(t, quotes, liquidity);
    QuoteShown(t, quotes[0], liquidity);
    OthersDiffer(quotes);
    OtherQuotesKeepLevels(SimMarket(t, quotes[0], liquidity), quotes[1..], quotes[0], liquidity, t.nextSequence);
  }

  lemma FirstKeepsInvariant(t: Tables, quotes: seq<Quoted>, liquidity: int)
    requires Invariant(t) && liquidity > 0 && AllListed(t, quotes) && quotes != []
    ensures quotes[0].price > 0 && Invariant(SimMarket(t, quotes[0], liquidity))
  {
    assert quotes[0] in quotes;
    SimMarketKeepsInvariant(t, quotes[0], liquidity);
  }

  /** After the simulator's tick over different markets every one of them shows its quote
      with exactly its four levels. */
  lemma {:induction false} TickShowsQuotes(t: Tables, quotes: seq<Quoted>, liquidity: int, k: nat) returns (n: nat)
    requires Invariant(t) && liquidity > 0 && AllListed(t, quotes) && k < |quotes|
    requires DifferentMarkets(quotes)
    ensures ShowsQuote(SimTick(t, quotes, liquidity), quotes[k], liquidity, n)
    decreases |quotes|
  {
    if k == 0 {
      FirstQuoteShown(t, quotes, liquidity);
      n := t.nextSequence;
    } else {
      RestListed(t, quotes, liquidity);
      FirstKeepsInvariant(t, quotes, liquidity);
      OthersDiffer(quotes);
      n := TickShowsQuotes(SimMarket(t, quotes[0], liquidity), quotes[1..], liquidity, k - 1);
    }
  }

  /** Above two dollars and a half the market's own bids stay below its own asks. */
  lemma OwnLevelsDoNotMeet(t: Tables, q: Quoted, liquidity: int, n: nat, bid: OrderId, ask: OrderId)
    requires ShowsQuote(t, q, liquidity, n) && q.price > 250 * CENT
    requires bid in t.orders && OpenSystem(t.orders[bid], q.symbol) && t.orders[bid].side == Buy
    requires ask in t.orders && OpenSystem(t.orders[ask], q.symbol) && t.orders[ask].side == Sell
    ensures t.orders[bid].limitPrice < t.orders[ask].limitPrice
  {
    LevelIsClose(t.orders[SystemOrder(n)], q, Buy, 998, liquidity, n);
    LevelIsClose(t.orders[SystemOrder(n + 1)], q, Buy, 995, 5 * liquidity, n + 1);
    LevelIsClose(t.orders[SystemOrder(n + 2)], q, Sell, 1002, liquidity, n + 2);
    LevelIsClose(t.orders[SystemOrder(n + 3)], q, Sell, 1005, 5 * liquidity, n + 3);
  }
}

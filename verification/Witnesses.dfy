/** Short runs from the migrated database that reach what the exchange was meant to rule
    out: a negative reserved balance, a negative available one, and a matching transaction
    that aborts. */
module Witnesses {
  import opened FixedPoint
  import opened Sums
  import opened Domain
  import opened Clearing
  import opened State
  import opened Settlement
  import opened Matching
  import opened Tick
  import opened Trading
  import opened Simulator
  import opened Members
  import opened Runs
  import opened History
  import opened Prices

  const ALICE: UserId := 2
  const BOT: UserId := 3

  // A step in front of a run.
  lemma StepThen(t: Tables, step: Step, mid: Tables, rest: seq<Step>, r: Tables)
    requires Enabled(t, step) && mid == Next(t, step) && Possible(mid, rest) && r == After(mid, rest)
    ensures Possible(t, [step] + rest) && After(t, [step] + rest) == r
  {
    assert ([step] + rest)[1..] == rest;
  }

  lemma Currencies()
    ensures Base(BTC_USD) == "BTC" && Quote(BTC_USD) == "USD" && Base(ETH_USD) == "ETH" && Quote(ETH_USD) == "USD"
  {
    SymbolParts(BTC_USD);
    SymbolParts(ETH_USD);
    assert BTC_USD[..3] == "BTC" && BTC_USD[4..] == "USD" && ETH_USD[..3] == "ETH" && ETH_USD[4..] == "USD";
  }

  lemma Powers()
    ensures Pow10(0) == 1 && Pow10(1) == 10 && Pow10(2) == 100 && Pow10(8) == 100_000_000 && Pow10(9) == 1_000_000_000 && Pow10(10) == ONE
  {
    assert Pow10(4) == 10_000;
    assert Pow10(6) == 1_000_000;
  }

  // --- Reserved below zero -------------------------------------------------------------------------

  // 65000.000000001, a reference of nine decimals, and a market buy of 1.25 coins.
  const FINE_REFERENCE: int := 650_000_000_000_010
  const FINE_BUY: NewOrder := NewOrder("fine", "BTC-USD", Buy, Market, Decimal(125, 2), None)

  lemma FineBuyDrifts()
    ensures Validate(FINE_BUY) == Valid && ReserveAmount(FINE_BUY, FINE_REFERENCE) == 853_125_000_000_013
    ensures PlacementDrift(FINE_BUY, FINE_REFERENCE) == -1
  {
    Powers();
    assert Units(FINE_BUY.quantity) == 12_500_000_000;
  }

  ghost predicate FineBuyReady(t: Tables) {
    && OpenOrdersOf(t.orders, ALICE) == {} && UserOrder(ALICE, "fine") !in t.orders
    && BTC_USD in t.markets && t.markets[BTC_USD] == MarketState(FINE_REFERENCE, true)
    && (ALICE, "USD") in t.accounts && t.accounts[(ALICE, "USD")].available == 100_000 * ONE
    && Residual(t, (ALICE, "USD")) == 0
  }

  lemma FineBuyPlaced(t: Tables)
    requires FineBuyReady(t)
    ensures Places(t, ALICE, FINE_BUY)
    ensures var r := Place(t, ALICE, FINE_BUY).0; (ALICE, "USD") in r.accounts && Residual(r, (ALICE, "USD")) == -1
  {
    FineBuyDrifts();
    Currencies();
    CanPlace(t, ALICE, FINE_BUY, "USD");
    PlaceResidual(t, ALICE, FINE_BUY, (ALICE, "USD"));
  }

  // What placement asks for, in one place.
  lemma CanPlace(t: Tables, user: UserId, order: NewOrder, currency: Currency)
    requires Validate(order) == Valid && UserOrder(user, order.clientOrderId) !in t.orders
    requires |OpenOrdersOf(t.orders, user)| < MAX_OPEN && order.instrument in t.markets && t.markets[order.instrument].live
    requires var symbol: Symbol := order.instrument;
             currency == if order.side == Buy then Quote(symbol) else Base(symbol)
    requires (user, currency) in t.accounts
    requires t.accounts[(user, currency)].available >= ReserveAmount(order, t.markets[order.instrument].reference)
    ensures Places(t, user, order)
  {
  }

  lemma RegisterGives(t: Tables, user: UserId, c: Currency)
    requires c in CURRENCIES
    ensures (user, c) in Register(t, user).accounts
    ensures Register(t, user).accounts[(user, c)] == Account(InitialFunding(c, false), 0, InitialFunding(c, false))
  {
    assert (user, c) in FundedRows({user}, false);
  }

  lemma BootstrapGives(t: Tables, trader: string, user: UserId, c: Currency)
    requires c in CURRENCIES && trader !in t.traders
    ensures var r := Bootstrap(t, trader, user);
            && (user, c) in r.accounts && r.accounts[(user, c)] == Account(InitialFunding(c, true), 0, InitialFunding(c, true))
            && (forall key :: key in t.accounts && key.0 != user ==> key in r.accounts && r.accounts[key] == t.accounts[key])
  {
    assert (user, c) in FundedRows({user}, true);
  }

  lemma AllCancellable(t: Tables, user: UserId)
    ensures Cancellable(t, user, None) == OpenOrdersOf(t.orders, user)
  {
  }

  lemma NoneLeftOpen(t: Tables, r: Tables, user: UserId)
    requires OrdersOk(t) && user != MARKET_MAKER && r == CancelOrders(t, user, None).0
    ensures OpenOrdersOf(r.orders, user) == {}
  {
    CancelTwice(t, user, None);
    AllCancellable(r, user);
  }

  lemma CancelKeepsResidual(t: Tables, r: Tables, key: AccountKey)
    requires Invariant(t) && key.0 != MARKET_MAKER && key in t.accounts && r == CancelOrders(t, key.0, None).0
    ensures OrdersOk(r) && key in r.accounts && Residual(r, key) == Residual(t, key)
  {
    CancelKeepsInvariant(t, key.0, None);
  }

  lemma CancelledLeavesResidual(t: Tables, r: Tables, key: AccountKey)
    requires Invariant(t) && key.0 != MARKET_MAKER && key in t.accounts && r == CancelOrders(t, key.0, None).0
    ensures key in r.accounts && r.accounts[key].reserved == Residual(t, key)
  {
    NoneLeftOpen(t, r, key.0);
    CancelKeepsResidual(t, r, key);
    ReservedIs(r, key);
  }

  // A quote of nine decimals on a market without orders.
  lemma FinelyQuoted(t: Tables, quotes: seq<Quoted>, r: Tables)
    requires t.orders == map[] && quotes == [Quoted(BTC_USD, FINE_REFERENCE)] && r == SimTick(t, quotes, ONE)
    requires OrdersOk(r) && LeavesUsersAlone(t, r)
    ensures OpenOrdersOf(r.orders, ALICE) == {} && UserOrder(ALICE, "fine") !in r.orders
    ensures BTC_USD in r.markets && r.markets[BTC_USD] == MarketState(FINE_REFERENCE, true)
  {
    assert quotes[1..] == [];
    assert r == SimMarket(t, quotes[0], ONE);
    forall id | id in r.orders ensures r.orders[id].user == MARKET_MAKER && id.SystemOrder? {
      assert OwnedBy(id, r.orders[id]);
    }
  }

  // A database without users, orders or fills, whose markets can be traded on.
  ghost predicate Untouched(t: Tables) {
    && t.orders == map[] && t.fills == {} && t.nextSequence == 0 && t.traders == map[] && t.users == {MARKET_MAKER}
    && BTC_USD in t.markets && ETH_USD in t.markets && t.markets[BTC_USD].live && t.markets[ETH_USD].live
  }

  lemma GenesisUntouched()
    ensures Untouched(Genesis())
  {
  }

  lemma AliceJoins(g: Tables, a: Tables)
    requires Untouched(g) && a == Register(g, ALICE)
    ensures ALICE !in g.users && BOT !in a.users && JustAlice(a)
  {
    RegisterGives(g, ALICE, "USD");
  }

  lemma AliceKeeps(g: Tables, a: Tables)
    requires Invariant(g) && ALICE !in g.users && a == Register(g, ALICE)
    ensures Invariant(a) && ((ALICE, "USD") in a.accounts ==> Residual(a, (ALICE, "USD")) == 0)
  {
    RegisterEnrols(g, ALICE);
    assert (ALICE, "USD") !in g.accounts;
  }

  ghost predicate JustAlice(t: Tables) {
    && t.orders == map[] && t.fills == {} && t.nextSequence == 0 && t.traders == map[]
    && BTC_USD in t.markets && ETH_USD in t.markets && t.markets[BTC_USD].live && t.markets[ETH_USD].live
    && (ALICE, "USD") in t.accounts && t.accounts[(ALICE, "USD")].available == 100_000 * ONE
  }

  lemma QuotedListed(a: Tables)
    requires BTC_USD in a.markets
    ensures AllListed(a, [Quoted(BTC_USD, FINE_REFERENCE)])
  {
  }

  lemma FineMarket(a: Tables, b: Tables, quotes: seq<Quoted>)
    requires Invariant(a) && JustAlice(a) && Residual(a, (ALICE, "USD")) == 0
    requires AllListed(a, quotes) && quotes == [Quoted(BTC_USD, FINE_REFERENCE)] && b == SimTick(a, quotes, ONE)
    ensures Invariant(b) && FineBuyReady(b)
  {
    SimTickKeepsInvariant(a, quotes, ONE);
    FineMarketReady(a, b, quotes);
  }

  lemma FineMarketReady(a: Tables, b: Tables, quotes: seq<Quoted>)
    requires JustAlice(a) && Residual(a, (ALICE, "USD")) == 0 && OrdersOk(b) && LeavesUsersAlone(a, b)
    requires quotes == [Quoted(BTC_USD, FINE_REFERENCE)] && b == SimTick(a, quotes, ONE)
    ensures FineBuyReady(b)
  {
    FinelyQuoted(a, quotes, b);
    UsersAloneKeepsResidual(a, b, (ALICE, "USD"));
  }

  lemma FinePlaced(b: Tables, c: Tables)
    requires Invariant(b) && FineBuyReady(b) && c == Place(b, ALICE, FINE_BUY).0
    ensures Invariant(c) && (ALICE, "USD") in c.accounts && Residual(c, (ALICE, "USD")) == -1
  {
    FineBuyPlaced(b);
    PlaceKeepsInvariant(b, ALICE, FINE_BUY);
  }

  lemma FineTables(a: Tables, b: Tables, c: Tables, d: Tables, quotes: seq<Quoted>)
    requires Invariant(a) && JustAlice(a) && Residual(a, (ALICE, "USD")) == 0
    requires AllListed(a, quotes) && quotes == [Quoted(BTC_USD, FINE_REFERENCE)] && b == SimTick(a, quotes, ONE)
    requires c == Place(b, ALICE, FINE_BUY).0 && d == CancelOrders(c, ALICE, None).0
    ensures (ALICE, "USD") in d.accounts && d.accounts[(ALICE, "USD")].reserved == -1
  {
    FineMarket(a, b, quotes);
    FineCancelled(b, c, d);
  }

  lemma FineCancelled(b: Tables, c: Tables, d: Tables)
    requires Invariant(b) && FineBuyReady(b)
    requires c == Place(b, ALICE, FINE_BUY).0 && d == CancelOrders(c, ALICE, None).0
    ensures (ALICE, "USD") in d.accounts && d.accounts[(ALICE, "USD")].reserved == -1
  {
    FinePlaced(b, c);
    CancelledLeavesResidual(c, d, (ALICE, "USD"));
  }

  lemma FineChain(g: Tables, a: Tables, b: Tables, c: Tables, d: Tables)
    requires ALICE !in g.users && a == Register(g, ALICE) && AllListed(a, [Quoted(BTC_USD, FINE_REFERENCE)])
    requires b == SimTick(a, [Quoted(BTC_USD, FINE_REFERENCE)], ONE)
    requires c == Place(b, ALICE, FINE_BUY).0 && d == CancelOrders(c, ALICE, None).0
    ensures Possible(g, FineSteps()) && After(g, FineSteps()) == d
  {
    var s3 := [CancelStep(ALICE, None)] + [];
    var s2 := [PlaceStep(ALICE, FINE_BUY)] + s3;
    var s1 := [SimulateStep([Quoted(BTC_USD, FINE_REFERENCE)], ONE)] + s2;
    StepThen(c, CancelStep(ALICE, None), d, [], d);
    StepThen(b, PlaceStep(ALICE, FINE_BUY), c, s3, d);
    StepThen(a, SimulateStep([Quoted(BTC_USD, FINE_REFERENCE)], ONE), b, s2, d);
    StepThen(g, RegisterStep(ALICE), a, s1, d);
  }

  function FineSteps(): seq<Step> {
    [RegisterStep(ALICE)] + ([SimulateStep([Quoted(BTC_USD, FINE_REFERENCE)], ONE)] + ([PlaceStep(ALICE, FINE_BUY)] + ([CancelStep(ALICE, None)] + [])))
  }

  lemma FineRun(g: Tables)
    requires Invariant(g) && Untouched(g)
    ensures Possible(g, FineSteps())
    ensures var r := After(g, FineSteps()); (ALICE, "USD") in r.accounts && r.accounts[(ALICE, "USD")].reserved == -1
  {
    var a := Register(g, ALICE);
    AliceJoins(g, a);
    AliceKeeps(g, a);
    FineFrom(g, a);
  }

  lemma FineFrom(g: Tables, a: Tables)
    requires ALICE !in g.users && a == Register(g, ALICE)
    requires Invariant(a) && JustAlice(a) && Residual(a, (ALICE, "USD")) == 0
    ensures Possible(g, FineSteps())
    ensures var r := After(g, FineSteps()); (ALICE, "USD") in r.accounts && r.accounts[(ALICE, "USD")].reserved == -1
  {
    QuotedListed(a);
    var b := SimTick(a, [Quoted(BTC_USD, FINE_REFERENCE)], ONE);
    var c := Place(b, ALICE, FINE_BUY).0;
    var d := CancelOrders(c, ALICE, None).0;
    FineTables(a, b, c, d, [Quoted(BTC_USD, FINE_REFERENCE)]);
    FineChain(g, a, b, c, d);
  }

  /** A new user buys 1.25 coins at market while the reference has nine decimals, cancels
      everything, and is left with a reserved balance of minus one unit. */
  lemma ReservedCanGoNegative()
    ensures Possible(Genesis(), FineSteps())
    ensures var r := After(Genesis(), FineSteps());
            (ALICE, "USD") in r.accounts && r.accounts[(ALICE, "USD")].reserved == -1
  {
    GenesisOk();
    GenesisUntouched();
    FineRun(Genesis());
  }

  // --- A tick with one order on each side ------------------------------------------------------------

  lemma EntriesApart(orders: map<OrderId, Order>, instrument: Symbol, book: seq<BookOrder>, side: Side, i: nat, j: nat)
    requires Mirrors(orders, instrument, book, side) && i < j < |book|
    ensures book[i].id != book[j].id
  {
  }

  lemma OnlyEntry(t: Tables, instrument: Symbol, side: Side, id: OrderId)
    requires OrdersOk(t) && SequencesDistinct(t.orders) && id in OpenIds(t.orders, instrument) && t.orders[id].side == side
    requires forall other :: other in OpenIds(t.orders, instrument) && t.orders[other].side == side ==> other == id
    ensures Book(t.orders, instrument, side) == [Entry(id, t.orders[id])]
  {
    var book := Book(t.orders, instrument, side);
    BookMirrors(t, instrument, side);
    assert Entry(id, t.orders[id]) in book;
    forall k | 0 <= k < |book| ensures book[k].id == id && book[k] == Entry(id, t.orders[id]) { assert book[k] in book; }
    if |book| > 1 {
      EntriesApart(t.orders, instrument, book, side, 0, 1);
      assert false;
    }
  }

  lemma OneAgainstOne(buy: BookOrder, sell: BookOrder)
    requires buy.side == Buy && Crosses(buy, sell) && 0 < sell.remaining <= buy.remaining
    ensures MatchBook([buy], [sell]).fills == [Match(sell.id, buy.id, sell.price, sell.remaining)]
  {
    var q := Min(buy.remaining, sell.remaining);
    assert [sell][1..] == [] && [buy][1..] == [] && [buy][0] == buy && [sell][0] == sell;
    assert SortByPriceTime([]) == [] && InsertByPriceTime(sell, []) == [sell];
    assert SortByPriceTime([sell]) == [sell];
    assert MatchSorted(Reduced(buy, q), []).fills == [];
    var r := MatchSorted(buy, [sell]);
    assert r.fills == [Match(sell.id, buy.id, sell.price, q)] + [];
    assert MatchBook([], r.makers).fills == [];
    assert MatchBook([buy], [sell]).fills == r.fills + [];
  }

  lemma PairPass(t: Tables, instrument: Symbol, buy: OrderId, sell: OrderId)
    requires OrdersOk(t) && SequencesDistinct(t.orders)
    requires Meet(t.orders, instrument, buy, sell) && t.orders[sell].remaining <= t.orders[buy].remaining
    requires forall id :: id in OpenIds(t.orders, instrument) ==> id == buy || id == sell
    ensures Pass(t.orders, instrument).fills == [Match(sell, buy, t.orders[sell].limitPrice, t.orders[sell].remaining)]
  {
    OnlyEntry(t, instrument, Buy, buy);
    OnlyEntry(t, instrument, Sell, sell);
    OneAgainstOne(Entry(buy, t.orders[buy]), Entry(sell, t.orders[sell]));
  }

  lemma PairTick(t: Tables, instrument: Symbol, buy: OrderId, sell: OrderId, f: Fill)
    requires OrdersOk(t) && SequencesDistinct(t.orders) && instrument in t.markets
    requires Meet(t.orders, instrument, buy, sell) && t.orders[sell].remaining <= t.orders[buy].remaining
    requires forall id :: id in OpenIds(t.orders, instrument) ==> id == buy || id == sell
    requires f == PriceMatch(t.orders, t.markets[instrument].reference, instrument,
                             Match(sell, buy, t.orders[sell].limitPrice, t.orders[sell].remaining))
    ensures TickFills(t, instrument) == [f]
  {
    var ms := [Match(sell, buy, t.orders[sell].limitPrice, t.orders[sell].remaining)];
    PairPass(t, instrument, buy, sell);
    PassNames(t.orders, instrument);
    assert ms[1..] == [];
    assert Priced(t.orders, t.markets[instrument].reference, instrument, ms) == [f];
  }

  lemma OneFillTick(t: Tables, instrument: Symbol, f: Fill)
    requires instrument in t.markets && TickFills(t, instrument) == [f] && f.price > 0
    ensures f.maker in t.orders && f.taker in t.orders && MatchTick(t, instrument) == ApplyFill(t, f)
  {
    var fills := TickFills(t, instrument);
    assert fills[0] in fills && fills[1..] == [];
    assert MatchTick(t, instrument) == ApplyFills(t, fills);
    assert ApplyFills(ApplyFill(t, f), []) == ApplyFill(t, f);
  }

  // --- Available below zero --------------------------------------------------------------------------

  // All but one unit of a new user's dollars, two units of a coin at half a dollar, and
  // one such unit offered.
  const BIG_BUY: NewOrder := NewOrder("big", "ETH-USD", Buy, Limit, Decimal(1, 0), Some(Decimal(999_999_999_999_999, 10)))
  const SMALL_BUY: NewOrder := NewOrder("small", "BTC-USD", Buy, Limit, Decimal(2, 10), Some(Decimal(5, 1)))
  const SMALL_SELL: NewOrder := NewOrder("sell", "BTC-USD", Sell, Limit, Decimal(1, 10), Some(Decimal(5, 1)))

  lemma WitnessAmounts(reference: int)
    ensures Validate(BIG_BUY) == Valid && Validate(SMALL_BUY) == Valid && Validate(SMALL_SELL) == Valid
    ensures ReserveAmount(BIG_BUY, reference) == 999_999_999_999_999
    ensures ReserveAmount(SMALL_BUY, reference) == 1 && ReserveAmount(SMALL_SELL, reference) == 1
    ensures Units(BIG_BUY.quantity) == ONE && Units(BIG_BUY.limitPrice.value) == 999_999_999_999_999
    ensures Units(SMALL_BUY.quantity) == 2 && Units(SMALL_SELL.quantity) == 1
    ensures Units(SMALL_BUY.limitPrice.value) == HALF == Units(SMALL_SELL.limitPrice.value)
  {
    Powers();
  }

  const BIG_ROW: Order := Order(ALICE, ETH_USD, Buy, Limit, ONE, ONE, 999_999_999_999_999, Open, 0, false)
  const SMALL_ROW: Order := Order(ALICE, BTC_USD, Buy, Limit, 2, 2, HALF, Open, 1, false)
  const SELL_ROW: Order := Order(BOT, BTC_USD, Sell, Limit, 1, 1, HALF, Open, 2, false)

  // The tables between the steps: these orders, no fill yet, and so many dollars free.
  ghost predicate Reached(t: Tables, orders: map<OrderId, Order>, next: nat, dollars: int) {
    && t.orders == orders && t.fills == {} && t.nextSequence == next
    && BTC_USD in t.markets && ETH_USD in t.markets && t.markets[BTC_USD].live && t.markets[ETH_USD].live
    && (ALICE, "USD") in t.accounts && t.accounts[(ALICE, "USD")].available == dollars
    && (BOT, "BTC") in t.accounts && t.accounts[(BOT, "BTC")].available == ONE
  }

  lemma BotEnrolled(u: Tables, t: Tables)
    requires JustAlice(u) && t == Bootstrap(u, "bot", BOT)
    ensures Reached(t, map[], 0, 100_000 * ONE)
  {
    BootstrapGives(u, "bot", BOT, "BTC");
  }

  lemma Enrolled(g: Tables, u: Tables, t: Tables)
    requires Invariant(g) && Untouched(g) && u == Register(g, ALICE) && t == Bootstrap(u, "bot", BOT)
    ensures ALICE !in g.users && BOT !in u.users && Invariant(t) && Reached(t, map[], 0, 100_000 * ONE)
  {
    AliceJoins(g, u);
    AliceKeeps(g, u);
    BotEnrolled(u, t);
    BootstrapEnrols(u, "bot", BOT);
  }

  lemma FewOpen(orders: map<OrderId, Order>, user: UserId)
    requires |orders.Keys| <= 2
    ensures |OpenOrdersOf(orders, user)| < MAX_OPEN
  {
    SubsetSize(OpenOrdersOf(orders, user), orders.Keys);
  }

  // Placing moves the reservation of the one account and inserts the one row.
  lemma PlacesNext(t: Tables, r: Tables, user: UserId, order: NewOrder, currency: Currency, row: Order, reserve: int)
    requires Validate(order) == Valid && |t.orders.Keys| <= 2
    requires UserOrder(user, order.clientOrderId) !in t.orders && order.instrument in t.markets && t.markets[order.instrument].live
    requires row == NewRow(user, order, order.instrument, t.markets[order.instrument].reference, t.nextSequence)
    requires currency == ReserveCurrency(row) && reserve == ReserveAmount(order, t.markets[order.instrument].reference)
    requires (user, currency) in t.accounts && t.accounts[(user, currency)].available >= reserve
    requires r == Place(t, user, order).0
    ensures Inserted(t, r, UserOrder(user, order.clientOrderId), row, (user, currency), reserve)
  {
    FewOpen(t.orders, user);
    CanPlace(t, user, order, currency);
    PlaceInserts(t, user, order);
  }

  ghost predicate Inserted(t: Tables, r: Tables, id: OrderId, row: Order, key: AccountKey, reserve: int) {
    && Inserts(t, r, id, row)
    && forall k :: k in t.accounts ==> r.accounts[k].available == t.accounts[k].available - (if k == key then reserve else 0)
  }

  // A buy of Alice's leads to the next tables.
  lemma AliceReaches(t: Tables, r: Tables, orders: map<OrderId, Order>, next: nat, dollars: int, id: OrderId, row: Order, reserve: int)
    requires Reached(t, orders, next, dollars) && Inserted(t, r, id, row, (ALICE, "USD"), reserve)
    ensures Reached(r, orders[id := row], next + 1, dollars - reserve)
  {
  }

  lemma BigRow(reference: int)
    ensures Validate(BIG_BUY) == Valid && ReserveAmount(BIG_BUY, reference) == 999_999_999_999_999
    ensures NewRow(ALICE, BIG_BUY, ETH_USD, reference, 0) == BIG_ROW && ReserveCurrency(BIG_ROW) == "USD"
  {
    WitnessAmounts(reference);
    Currencies();
  }

  lemma SmallRow(reference: int)
    ensures Validate(SMALL_BUY) == Valid && ReserveAmount(SMALL_BUY, reference) == 1
    ensures NewRow(ALICE, SMALL_BUY, BTC_USD, reference, 1) == SMALL_ROW && ReserveCurrency(SMALL_ROW) == "USD"
  {
    WitnessAmounts(reference);
    Currencies();
  }

  lemma SellRow(reference: int)
    ensures Validate(SMALL_SELL) == Valid && ReserveAmount(SMALL_SELL, reference) == 1
    ensures NewRow(BOT, SMALL_SELL, BTC_USD, reference, 2) == SELL_ROW && ReserveCurrency(SELL_ROW) == "BTC"
  {
    WitnessAmounts(reference);
    Currencies();
  }

  lemma BigPlaced(t: Tables, r: Tables)
    requires Reached(t, map[], 0, 100_000 * ONE) && r == Place(t, ALICE, BIG_BUY).0
    ensures Reached(r, map[][UserOrder(ALICE, "big") := BIG_ROW], 1, 1)
  {
    BigRow(t.markets[ETH_USD].reference);
    PlacesNext(t, r, ALICE, BIG_BUY, "USD", BIG_ROW, 999_999_999_999_999);
    AliceReaches(t, r, map[], 0, 100_000 * ONE, UserOrder(ALICE, "big"), BIG_ROW, 999_999_999_999_999);
  }

  lemma SmallPlaced(t: Tables, r: Tables, orders: map<OrderId, Order>)
    requires orders.Keys == {UserOrder(ALICE, "big")} && Reached(t, orders, 1, 1) && r == Place(t, ALICE, SMALL_BUY).0
    ensures Reached(r, orders[UserOrder(ALICE, "small") := SMALL_ROW], 2, 0)
  {
    SmallRow(t.markets[BTC_USD].reference);
    PlacesNext(t, r, ALICE, SMALL_BUY, "USD", SMALL_ROW, 1);
    AliceReaches(t, r, orders, 1, 1, UserOrder(ALICE, "small"), SMALL_ROW, 1);
  }

  lemma SellPlaced(t: Tables, r: Tables, orders: map<OrderId, Order>)
    requires Reached(t, orders, 2, 0) && r == Place(t, BOT, SMALL_SELL).0
    requires orders.Keys == {UserOrder(ALICE, "big"), UserOrder(ALICE, "small")}
    requires orders[UserOrder(ALICE, "big")] == BIG_ROW && orders[UserOrder(ALICE, "small")] == SMALL_ROW
    ensures ReadyToOverdraw(r)
  {
    SellRow(t.markets[BTC_USD].reference);
    PlacesNext(t, r, BOT, SMALL_SELL, "BTC", SELL_ROW, 1);
    SellInserted(t, r, orders);
  }

  lemma SellInserted(t: Tables, r: Tables, orders: map<OrderId, Order>)
    requires Reached(t, orders, 2, 0) && Inserted(t, r, UserOrder(BOT, "sell"), SELL_ROW, (BOT, "BTC"), 1)
    requires orders.Keys == {UserOrder(ALICE, "big"), UserOrder(ALICE, "small")}
    requires orders[UserOrder(ALICE, "big")] == BIG_ROW && orders[UserOrder(ALICE, "small")] == SMALL_ROW
    ensures ReadyToOverdraw(r)
  {
    assert BTC_USD != ETH_USD by { assert BTC_USD[0] != ETH_USD[0]; }
  }

  // The tables before the tick.
  ghost predicate ReadyToOverdraw(t: Tables) {
    var buy, sell := UserOrder(ALICE, "small"), UserOrder(BOT, "sell");
    && BTC_USD in t.markets && t.fills == {}
    && buy in t.orders && sell in t.orders
    && t.orders[buy] == SMALL_ROW && t.orders[sell] == SELL_ROW
    && (forall id :: id in OpenIds(t.orders, BTC_USD) ==> id == buy || id == sell)
    && (ALICE, "USD") in t.accounts && t.accounts[(ALICE, "USD")].available == 0
  }

  lemma TickOverdraws(t: Tables)
    requires OrdersOk(t) && SequencesDistinct(t.orders) && FillsOk(t) && ReadyToOverdraw(t)
    ensures (ALICE, "USD") in MatchTick(t, BTC_USD).accounts && MatchTick(t, BTC_USD).accounts[(ALICE, "USD")].available == -1
  {
    var buy, sell := UserOrder(ALICE, "small"), UserOrder(BOT, "sell");
    var f := Fill(sell, buy, BTC_USD, HALF, 1);
    PairTick(t, BTC_USD, buy, sell, f);
    OneFillTick(t, BTC_USD, f);
    Currencies();
    assert PaysShort(t.orders, f, (ALICE, "USD"));
    OverdrawsIff(t, f, (ALICE, "USD"));
  }

  lemma OverdrawTables(t: Tables, a: Tables, b: Tables, c: Tables)
    requires Reached(t, map[], 0, 100_000 * ONE)
    requires a == Place(t, ALICE, BIG_BUY).0 && b == Place(a, ALICE, SMALL_BUY).0 && c == Place(b, BOT, SMALL_SELL).0
    ensures ReadyToOverdraw(c)
  {
    BigPlaced(t, a);
    SmallPlaced(a, b, a.orders);
    SellPlaced(b, c, b.orders);
  }

  lemma InvariantAlong(t: Tables, a: Tables, b: Tables, c: Tables)
    requires Invariant(t)
    requires a == Place(t, ALICE, BIG_BUY).0 && b == Place(a, ALICE, SMALL_BUY).0 && c == Place(b, BOT, SMALL_SELL).0
    ensures Invariant(c)
  {
    PlaceKeepsInvariant(t, ALICE, BIG_BUY);
    PlaceKeepsInvariant(a, ALICE, SMALL_BUY);
    PlaceKeepsInvariant(b, BOT, SMALL_SELL);
  }

  lemma EndsOverdrawn(t: Tables, a: Tables, b: Tables, c: Tables)
    requires Invariant(t) && Reached(t, map[], 0, 100_000 * ONE)
    requires a == Place(t, ALICE, BIG_BUY).0 && b == Place(a, ALICE, SMALL_BUY).0 && c == Place(b, BOT, SMALL_SELL).0
    ensures (ALICE, "USD") in MatchTick(c, BTC_USD).accounts && MatchTick(c, BTC_USD).accounts[(ALICE, "USD")].available == -1
  {
    OverdrawTables(t, a, b, c);
    InvariantAlong(t, a, b, c);
    TickOverdraws(c);
  }

  // The two purchases, the offer and the match.
  function TradingSteps(): seq<Step> {
    [PlaceStep(ALICE, BIG_BUY)] + ([PlaceStep(ALICE, SMALL_BUY)] + ([PlaceStep(BOT, SMALL_SELL)] + ([MatchStep(BTC_USD)] + [])))
  }

  lemma TradingRun(t: Tables, a: Tables, b: Tables, c: Tables, d: Tables)
    requires a == Place(t, ALICE, BIG_BUY).0 && b == Place(a, ALICE, SMALL_BUY).0 && c == Place(b, BOT, SMALL_SELL).0
    requires d == MatchTick(c, BTC_USD)
    ensures Possible(t, TradingSteps()) && After(t, TradingSteps()) == d
  {
    var s3 := [MatchStep(BTC_USD)] + [];
    var s2 := [PlaceStep(BOT, SMALL_SELL)] + s3;
    var s1 := [PlaceStep(ALICE, SMALL_BUY)] + s2;
    StepThen(c, MatchStep(BTC_USD), d, [], d);
    StepThen(b, PlaceStep(BOT, SMALL_SELL), c, s3, d);
    StepThen(a, PlaceStep(ALICE, SMALL_BUY), b, s2, d);
    StepThen(t, PlaceStep(ALICE, BIG_BUY), a, s1, d);
  }

  ghost function Traded(t: Tables): Tables {
    MatchTick(Place(Place(Place(t, ALICE, BIG_BUY).0, ALICE, SMALL_BUY).0, BOT, SMALL_SELL).0, BTC_USD)
  }

  lemma TradingLeads(t: Tables)
    ensures Possible(t, TradingSteps()) && After(t, TradingSteps()) == Traded(t)
  {
    var a := Place(t, ALICE, BIG_BUY).0;
    var b := Place(a, ALICE, SMALL_BUY).0;
    var c := Place(b, BOT, SMALL_SELL).0;
    TradingRun(t, a, b, c, MatchTick(c, BTC_USD));
  }

  lemma TradedIsOverdrawn(t: Tables)
    requires Invariant(t) && Reached(t, map[], 0, 100_000 * ONE)
    ensures (ALICE, "USD") in Traded(t).accounts && Traded(t).accounts[(ALICE, "USD")].available == -1
  {
    var a := Place(t, ALICE, BIG_BUY).0;
    var b := Place(a, ALICE, SMALL_BUY).0;
    var c := Place(b, BOT, SMALL_SELL).0;
    EndsOverdrawn(t, a, b, c);
  }

  function OverdrawSteps(): seq<Step> {
    [RegisterStep(ALICE)] + ([BootstrapStep("bot", BOT)] + TradingSteps())
  }

  lemma EnrolThenTrade(g: Tables, u: Tables, t: Tables, rest: seq<Step>, r: Tables)
    requires ALICE !in g.users && u == Register(g, ALICE) && BOT !in u.users && t == Bootstrap(u, "bot", BOT)
    requires Possible(t, rest) && r == After(t, rest)
    ensures var steps := [RegisterStep(ALICE)] + ([BootstrapStep("bot", BOT)] + rest);
            Possible(g, steps) && After(g, steps) == r
  {
    StepThen(u, BootstrapStep("bot", BOT), t, rest, r);
    StepThen(g, RegisterStep(ALICE), u, [BootstrapStep("bot", BOT)] + rest, r);
  }

  lemma Overdrawn(g: Tables)
    requires Invariant(g) && Untouched(g)
    ensures Possible(g, OverdrawSteps())
    ensures var r := After(g, OverdrawSteps()); (ALICE, "USD") in r.accounts && r.accounts[(ALICE, "USD")].available == -1
  {
    var u := Register(g, ALICE);
    var t := Bootstrap(u, "bot", BOT);
    Enrolled(g, u, t);
    TradingLeads(t);
    TradedIsOverdrawn(t);
    EnrolThenTrade(g, u, t, TradingSteps(), Traded(t));
  }

  /** A user who has reserved every dollar, two units of a coin at half a dollar among it,
      is sold one of them at that price and is left with minus one unit available. */
  lemma AvailableCanGoNegative()
    ensures Possible(Genesis(), OverdrawSteps())
    ensures var r := After(Genesis(), OverdrawSteps());
            (ALICE, "USD") in r.accounts && r.accounts[(ALICE, "USD")].available == -1
  {
    GenesisOk();
    GenesisUntouched();
    Overdrawn(Genesis());
  }

  // --- A matching transaction that aborts --------------------------------------------------------------

  // Two fifths of a cent.
  const TINY_QUOTE: Quoted := Quoted(BTC_USD, 40_000_000)

  function TinySteps(): seq<Step> {
    [SimulateStep([TINY_QUOTE], ONE)] + []
  }

  lemma TinyStep(g: Tables, quotes: seq<Quoted>)
    requires BTC_USD in g.markets && quotes == [TINY_QUOTE]
    ensures AllListed(g, quotes) && SimTick(g, quotes, ONE) == SimMarket(g, TINY_QUOTE, ONE)
  {
    assert quotes[0] == TINY_QUOTE && quotes[1..] == [];
  }

  lemma TinyRun(g: Tables)
    requires Invariant(g) && Untouched(g)
    ensures Possible(g, TinySteps()) && Stuck(After(g, TinySteps()), BTC_USD)
  {
    var r := SimMarket(g, TINY_QUOTE, ONE);
    TinyStep(g, [TINY_QUOTE]);
    TinyQuoteStopsMarket(g, TINY_QUOTE, ONE);
    StepThen(g, SimulateStep([TINY_QUOTE], ONE), r, [], r);
  }

  /** One quote of two fifths of a cent, and the matching transaction aborts although two
      orders of the market meet. */
  lemma TickCanAbort()
    ensures Possible(Genesis(), TinySteps()) && Stuck(After(Genesis(), TinySteps()), BTC_USD)
  {
    GenesisOk();
    GenesisUntouched();
    TinyRun(Genesis());
  }
}

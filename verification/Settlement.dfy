/** Settling one computed fill against the stored rows
    (crates/worker/src/main.rs, apply_fill and the INSERT before it). */
module Settlement {
  import opened FixedPoint
  import opened Sums
  import opened Domain
  import opened State

  // UPDATE orders SET remaining=GREATEST(remaining-q,0), status=...
  function TakeQuantity(o: Order, quantity: int): Order {
    o.(remaining := if o.remaining - quantity > 0 then o.remaining - quantity else 0,
       status := if o.remaining - quantity <= 0 then Filled else PartiallyFilled)
  }

  // What a fill frees of a buy's reservation: the difference of two rounded outstandings.
  function Release(buy: Order, quantity: int): int {
    BalanceAmount(buy.remaining * buy.limitPrice) - BalanceAmount((buy.remaining - quantity) * buy.limitPrice)
  }

  function BuyerPostings(buy: Order, f: Fill): seq<Posting> {
    if buy.system then [] else
      var release, spent := Release(buy, f.quantity), BalanceAmount(f.quantity * f.price);
      [Posting(buy.user, Quote(buy.instrument), release - spent, -release),
       Posting(buy.user, Base(buy.instrument), f.quantity, 0)]
  }

  function SellerPostings(sell: Order, f: Fill): seq<Posting> {
    if sell.system then [] else
      [Posting(sell.user, Base(sell.instrument), 0, -f.quantity),
       Posting(sell.user, Quote(sell.instrument), BalanceAmount(f.quantity * f.price), 0)]
  }

  function Postings(orders: map<OrderId, Order>, f: Fill): seq<Posting>
    requires f.maker in orders && f.taker in orders
  {
    BuyerPostings(orders[f.taker], f) + SellerPostings(orders[f.maker], f)
  }

  // The unique key of the fills table.
  predicate Conflicts(fills: set<Fill>, f: Fill) {
    exists g :: g in fills && g.maker == f.maker && g.taker == f.taker && g.price == f.price && g.quantity == f.quantity
  }

  function TakeFromBoth(orders: map<OrderId, Order>, f: Fill): map<OrderId, Order>
    requires f.maker in orders && f.taker in orders
  {
    var bought := orders[f.taker := TakeQuantity(orders[f.taker], f.quantity)];
    bought[f.maker := TakeQuantity(bought[f.maker], f.quantity)]
  }

  /** INSERT ... ON CONFLICT DO NOTHING, and settlement of the row if it was inserted. */
  function ApplyFill(t: Tables, f: Fill): (r: Tables)
    requires f.maker in t.orders && f.taker in t.orders
    ensures r.orders.Keys == t.orders.Keys && r.markets == t.markets
  {
    if Conflicts(t.fills, f) then t else
      t.(accounts := Adjust(t.accounts, Postings(t.orders, f)),
         orders := TakeFromBoth(t.orders, f),
         fills := t.fills + {f})
  }

  /** A fill as the matching loop computes it: open orders of one instrument that cross,
      a price inside both limits, and the smaller of the two remainders. */
  predicate Tradable(orders: map<OrderId, Order>, f: Fill) {
    && f.maker in orders && f.taker in orders
    && orders[f.maker].side == Sell && orders[f.taker].side == Buy
    && IsOpen(orders[f.maker]) && IsOpen(orders[f.taker])
    && orders[f.maker].instrument == f.instrument == orders[f.taker].instrument
    && f.price > 0 && orders[f.maker].limitPrice <= f.price <= orders[f.taker].limitPrice
    && 0 < f.quantity == Min(orders[f.taker].remaining, orders[f.maker].remaining)
  }

  /** ON CONFLICT never suppresses a computed fill: every earlier fill of the pair would
      have exhausted one of its orders. */
  lemma FillIsNew(t: Tables, f: Fill)
    requires FillsOk(t) && Tradable(t.orders, f)
    ensures forall g :: g in t.fills ==> g.maker != f.maker || g.taker != f.taker
    ensures !Conflicts(t.fills, f) && f !in t.fills
  {
    forall g | g in t.fills ensures g.maker != f.maker || g.taker != f.taker { assert FillOk(t.orders, g); }
  }

  /** A fill that is already recorded changes nothing. */
  lemma RecordedFillIsIgnored(t: Tables, f: Fill, g: Fill)
    requires f.maker in t.orders && f.taker in t.orders
    requires g in t.fills && g.maker == f.maker && g.taker == f.taker && g.price == f.price && g.quantity == f.quantity
    ensures ApplyFill(t, f) == t
  {
  }

  // The two rows a fill changes, and that it changes nothing else about the orders.
  ghost predicate Took(orders: map<OrderId, Order>, after: map<OrderId, Order>, f: Fill) {
    && Tradable(orders, f) && after.Keys == orders.Keys
    && after[f.taker] == TakeQuantity(orders[f.taker], f.quantity)
    && after[f.maker] == TakeQuantity(orders[f.maker], f.quantity)
    && (forall id :: id in orders && id != f.taker && id != f.maker ==> after[id] == orders[id])
  }

  /** GREATEST(..., 0) never takes effect on either order, and the fill exhausts one. */
  lemma ClampNeverApplies(orders: map<OrderId, Order>, f: Fill)
    requires Tradable(orders, f)
    ensures var after := TakeFromBoth(orders, f);
            && Took(orders, after, f)
            && after[f.taker].remaining == orders[f.taker].remaining - f.quantity
            && after[f.maker].remaining == orders[f.maker].remaining - f.quantity
            && (after[f.taker].remaining == 0 || after[f.maker].remaining == 0)
  {
  }

  lemma TookEvolves(orders: map<OrderId, Order>, after: map<OrderId, Order>, f: Fill)
    requires Took(orders, after, f)
    ensures Evolves(orders, after)
    ensures forall id :: id in orders ==> (IsOpen(after[id]) ==> IsOpen(orders[id]))
    ensures forall id :: id in orders ==> (orders[id].remaining == 0 ==> after[id] == orders[id])
    ensures after[f.taker].remaining == 0 || after[f.maker].remaining == 0
  {
  }

  lemma TakeKeepsLifecycle(o: Order, quantity: int)
    requires Lifecycle(o) && 0 < quantity <= o.remaining
    ensures Lifecycle(TakeQuantity(o, quantity)) && SameTerms(TakeQuantity(o, quantity), o)
  {
  }

  lemma SettledOrdersOk(t: Tables, r: Tables, f: Fill)
    requires OrdersOk(t) && SequencesDistinct(t.orders) && Took(t.orders, r.orders, f)
    requires r.accounts.Keys == t.accounts.Keys && r.markets == t.markets && r.users == t.users && r.nextSequence == t.nextSequence
    ensures OrdersOk(r) && SequencesDistinct(r.orders)
  {
    TookEvolves(t.orders, r.orders, f);
    forall id | id in r.orders ensures Lifecycle(r.orders[id]) {
      assert Lifecycle(t.orders[id]);
      if id == f.taker || id == f.maker { TakeKeepsLifecycle(t.orders[id], f.quantity); }
    }
  }

  lemma SettledFillsOk(t: Tables, r: Tables, f: Fill)
    requires FillsOk(t) && PairsOnce(t.fills) && Took(t.orders, r.orders, f) && r.fills == t.fills + {f}
    ensures FillsOk(r) && PairsOnce(r.fills)
  {
    FillIsNew(t, f);
    TookEvolves(t.orders, r.orders, f);
    forall g | g in r.fills ensures FillOk(r.orders, g) {
      if g != f { assert FillOk(t.orders, g); }
    }
  }

  lemma SettledQuantitiesOk(t: Tables, r: Tables, f: Fill)
    requires QuantitiesOk(t) && Took(t.orders, r.orders, f) && r.fills == t.fills + {f} && f !in t.fills
    ensures QuantitiesOk(r)
  {
    forall id | id in r.orders && !r.orders[id].system
      ensures r.orders[id].quantity - r.orders[id].remaining == FilledQuantity(r.fills, id)
    {
      SumAdd(t.fills, QuantityOf(id), f);
      assert QuantityOf(id)(f) == t.orders[id].remaining - r.orders[id].remaining;
    }
  }

  lemma OnePosting(p: Posting, key: AccountKey)
    ensures AvailableDelta([p], key) == if (p.user, p.currency) == key then p.available else 0
    ensures ReservedDelta([p], key) == if (p.user, p.currency) == key then p.reserved else 0
  {
    assert [p][1..] == [];
  }

  lemma TwoPostings(p: Posting, q: Posting, key: AccountKey)
    ensures AvailableDelta([p, q], key) == (if (p.user, p.currency) == key then p.available else 0)
                                         + (if (q.user, q.currency) == key then q.available else 0)
    ensures ReservedDelta([p, q], key) == (if (p.user, p.currency) == key then p.reserved else 0)
                                        + (if (q.user, q.currency) == key then q.reserved else 0)
  {
    assert [p, q][1..] == [q];
    OnePosting(q, key);
  }

  /** The balance updates of a fill are exactly the movement the fills table implies, and
      they lower each reservation by what the order no longer holds back. */
  lemma PostingsExplained(orders: map<OrderId, Order>, after: map<OrderId, Order>, f: Fill, key: AccountKey)
    requires Took(orders, after, f)
    ensures var ps := Postings(orders, f);
            && AvailableDelta(ps, key) + ReservedDelta(ps, key) == NetOf(orders, key)(f)
            && ReservedDelta(ps, key) == OpenReserve(after[f.taker], key) - OpenReserve(orders[f.taker], key)
                                       + OpenReserve(after[f.maker], key) - OpenReserve(orders[f.maker], key)
  {
    var buy, sell := orders[f.taker], orders[f.maker];
    DeltasConcat(BuyerPostings(buy, f), SellerPostings(sell, f), key);
    BuyerExplained(buy, f, key);
    SellerExplained(sell, f, key);
    ReleaseMatchesOutstanding(buy, f.quantity, key);
    SellReleaseMatchesOutstanding(sell, f.quantity, key);
  }

  lemma BuyerExplained(buy: Order, f: Fill, key: AccountKey)
    ensures var ps := BuyerPostings(buy, f);
            && AvailableDelta(ps, key) + ReservedDelta(ps, key) == BuyerNet(buy, f, key)
            && ReservedDelta(ps, key) == if !buy.system && (buy.user, Quote(buy.instrument)) == key then -Release(buy, f.quantity) else 0
  {
    var release, spent := Release(buy, f.quantity), BalanceAmount(f.quantity * f.price);
    TwoPostings(Posting(buy.user, Quote(buy.instrument), release - spent, -release),
                Posting(buy.user, Base(buy.instrument), f.quantity, 0), key);
  }

  lemma SellerExplained(sell: Order, f: Fill, key: AccountKey)
    ensures var ps := SellerPostings(sell, f);
            && AvailableDelta(ps, key) + ReservedDelta(ps, key) == SellerNet(sell, f, key)
            && ReservedDelta(ps, key) == if !sell.system && (sell.user, Base(sell.instrument)) == key then -f.quantity else 0
  {
    TwoPostings(Posting(sell.user, Base(sell.instrument), 0, -f.quantity),
                Posting(sell.user, Quote(sell.instrument), BalanceAmount(f.quantity * f.price), 0), key);
  }

  lemma ReleaseMatchesOutstanding(buy: Order, quantity: int, key: AccountKey)
    requires buy.side == Buy && IsOpen(buy) && 0 < quantity <= buy.remaining
    ensures OpenReserve(TakeQuantity(buy, quantity), key) - OpenReserve(buy, key)
         == if !buy.system && (buy.user, Quote(buy.instrument)) == key then -Release(buy, quantity) else 0
  {
    var after := TakeQuantity(buy, quantity);
    assert after.remaining == buy.remaining - quantity;
    assert BalanceAmount(0) == 0;
    assert after.remaining == 0 ==> after.remaining * buy.limitPrice == 0;
  }

  lemma SellReleaseMatchesOutstanding(sell: Order, quantity: int, key: AccountKey)
    requires sell.side == Sell && IsOpen(sell) && 0 < quantity <= sell.remaining
    ensures OpenReserve(TakeQuantity(sell, quantity), key) - OpenReserve(sell, key)
         == if !sell.system && (sell.user, Base(sell.instrument)) == key then -quantity else 0
  {
  }

  lemma ReleaseParts(remaining: int, quantity: int, limit: int, price: int)
    requires 0 < quantity <= remaining && 0 < price <= limit
    ensures var part, rest, cost := quantity * limit, (remaining - quantity) * limit, quantity * price;
            remaining * limit == part + rest && 0 <= cost <= part && 0 <= rest
  {
    assert remaining * limit == quantity * limit + (remaining - quantity) * limit;
    MultiplyMonotone(quantity, price, limit);
    MultiplyNonNegative(remaining - quantity, limit);
    MultiplyNonNegative(quantity, price);
  }

  lemma ShortfallOfParts(part: int, rest: int, cost: int)
    requires 0 <= cost <= part && 0 <= rest
    ensures var release, spent := BalanceAmount(part + rest) - BalanceAmount(rest), BalanceAmount(cost);
            && release - spent >= (if RoundsUp(cost) then -1 else 0)
            && (release < spent <==> (spent == BalanceAmount(part) && RoundTooHigh(part, rest)))
  {
    BalanceAmountSplit(part, rest);
    BalanceAmountSplit(cost, rest);
    BalanceAmountMonotone(cost, part);
    BalanceAmountMonotone(cost + rest, part + rest);
  }

  /** A buy's release falls short of its cost by at most one unit, and only when the cost
      was rounded up. Exactly when: the price does not improve on the limit by as much as
      a rounded unit, and the part and the rest of the reservation both round up although
      together they do not round up twice. */
  lemma ReleaseCoversCost(remaining: int, quantity: int, limit: int, price: int)
    requires 0 < quantity <= remaining && 0 < price <= limit
    ensures var release := BalanceAmount(remaining * limit) - BalanceAmount((remaining - quantity) * limit);
            var spent := BalanceAmount(quantity * price);
            var part, rest := quantity * limit, (remaining - quantity) * limit;
            && release - spent >= (if RoundsUp(quantity * price) then -1 else 0)
            && (release < spent <==> (spent == BalanceAmount(part) && RoundTooHigh(part, rest)))
  {
    ReleaseParts(remaining, quantity, limit, price);
    ShortfallOfParts(quantity * limit, (remaining - quantity) * limit, quantity * price);
  }

  /** Such a fill: 2e-10 left at limit 0.5, of which 1e-10 trades at 0.5. */
  lemma ReleaseCanFallShort()
    ensures var buy := Order(2, "BTC-USD", Buy, Limit, 2, 2, HALF, Open, 0, false);
            Release(buy, 1) - BalanceAmount(1 * HALF) == -1
  {
  }

  /** When a buy's release falls short of its fill's cost. */
  predicate Shortfall(buy: Order, f: Fill) {
    var part, rest := f.quantity * buy.limitPrice, (buy.remaining - f.quantity) * buy.limitPrice;
    BalanceAmount(f.quantity * f.price) == BalanceAmount(part) && RoundTooHigh(part, rest)
  }

  // What settling a fill adds to an available balance.
  lemma AvailableDeltaIs(orders: map<OrderId, Order>, f: Fill, key: AccountKey)
    requires f.maker in orders && f.taker in orders
    ensures var buy, sell := orders[f.taker], orders[f.maker];
            var release, spent := Release(buy, f.quantity), BalanceAmount(f.quantity * f.price);
            AvailableDelta(Postings(orders, f), key)
              == (if !buy.system && (buy.user, Quote(buy.instrument)) == key then release - spent else 0)
               + (if !buy.system && (buy.user, Base(buy.instrument)) == key then f.quantity else 0)
               + (if !sell.system && (sell.user, Quote(sell.instrument)) == key then spent else 0)
  {
    var buy, sell := orders[f.taker], orders[f.maker];
    var release, spent := Release(buy, f.quantity), BalanceAmount(f.quantity * f.price);
    DeltasConcat(BuyerPostings(buy, f), SellerPostings(sell, f), key);
    TwoPostings(Posting(buy.user, Quote(buy.instrument), release - spent, -release),
                Posting(buy.user, Base(buy.instrument), f.quantity, 0), key);
    TwoPostings(Posting(sell.user, Base(sell.instrument), 0, -f.quantity),
                Posting(sell.user, Quote(sell.instrument), spent, 0), key);
  }

  lemma TradableAmounts(orders: map<OrderId, Order>, f: Fill)
    requires Tradable(orders, f)
    ensures var release, spent := Release(orders[f.taker], f.quantity), BalanceAmount(f.quantity * f.price);
            && release >= 0 && spent >= 0 && release - spent >= (if RoundsUp(f.quantity * f.price) then -1 else 0)
            && (release < spent <==> Shortfall(orders[f.taker], f))
  {
    var buy := orders[f.taker];
    ReleaseCoversCost(buy.remaining, f.quantity, buy.limitPrice, f.price);
    ReleaseParts(buy.remaining, f.quantity, buy.limitPrice, f.price);
    var part, rest := f.quantity * buy.limitPrice, (buy.remaining - f.quantity) * buy.limitPrice;
    BalanceAmountMonotone(rest, part + rest);
  }

  lemma AvailableDeltaBounded(orders: map<OrderId, Order>, f: Fill, key: AccountKey)
    requires Tradable(orders, f)
    ensures AvailableDelta(Postings(orders, f), key) >= -RoundedOf(orders, key)(f)
  {
    AvailableDeltaIs(orders, f, key);
    TradableAmounts(orders, f);
  }

  // The balance pays for the buy, gets nothing from the sell, and the release falls short.
  predicate PaysShort(orders: map<OrderId, Order>, f: Fill, key: AccountKey)
    requires f.maker in orders && f.taker in orders
  {
    var buy, sell := orders[f.taker], orders[f.maker];
    && !buy.system && key == (buy.user, Quote(f.instrument)) && Base(f.instrument) != Quote(f.instrument)
    && (sell.system || sell.user != buy.user)
    && Shortfall(buy, f)
  }

  /** A fill takes an available balance below zero exactly when that balance is at zero,
      pays for the buy, gets nothing from the sell, and the release falls short. It is then
      one unit below. */
  lemma OverdrawsIff(t: Tables, f: Fill, key: AccountKey)
    requires FillsOk(t) && Tradable(t.orders, f) && key in t.accounts && t.accounts[key].available >= 0
    ensures key in ApplyFill(t, f).accounts
    ensures ApplyFill(t, f).accounts[key].available < 0 <==> t.accounts[key].available == 0 && PaysShort(t.orders, f, key)
    ensures ApplyFill(t, f).accounts[key].available >= -1
  {
    FillIsNew(t, f);
    AvailableDeltaIs(t.orders, f, key);
    TradableAmounts(t.orders, f);
  }

  lemma SettledSums(t: Tables, orders: map<OrderId, Order>, f: Fill, key: AccountKey)
    requires FillsOk(t) && Took(t.orders, orders, f) && f !in t.fills
    ensures Sum(t.fills + {f}, NetOf(orders, key)) == NetFills(t, key) + NetOf(t.orders, key)(f)
    ensures Sum(t.fills + {f}, RoundedOf(orders, key)) == RoundedBuys(t, key) + RoundedOf(t.orders, key)(f)
  {
    TookEvolves(t.orders, orders, f);
    FillSumsStable(t, orders, key);
    SumAdd(t.fills, NetOf(orders, key), f);
    SumAdd(t.fills, RoundedOf(orders, key), f);
    assert NetOf(orders, key)(f) == NetOf(t.orders, key)(f);
    assert RoundedOf(orders, key)(f) == RoundedOf(t.orders, key)(f);
  }

  lemma SettledBalancesOk(t: Tables, r: Tables, f: Fill)
    requires FillsOk(t) && HoldingsOk(t) && AvailableOk(t)
    requires Took(t.orders, r.orders, f) && r.fills == t.fills + {f} && f !in t.fills
    requires r.accounts == Adjust(t.accounts, Postings(t.orders, f))
    ensures HoldingsOk(r) && AvailableOk(r)
  {
    forall key | key in r.accounts
      ensures r.accounts[key].available + r.accounts[key].reserved == r.accounts[key].funded + NetFills(r, key)
      ensures r.accounts[key].available >= -RoundedBuys(r, key)
    {
      SettledSums(t, r.orders, f, key);
      PostingsExplained(t.orders, r.orders, f, key);
      AvailableDeltaBounded(t.orders, f, key);
      assert key in t.accounts;
    }
  }

  lemma FewerOpen(before: map<OrderId, Order>, after: map<OrderId, Order>, user: UserId)
    requires OpenOrdersOf(after, user) <= OpenOrdersOf(before, user)
    ensures |OpenOrdersOf(after, user)| <= |OpenOrdersOf(before, user)|
  {
    SubsetSize(OpenOrdersOf(after, user), OpenOrdersOf(before, user));
  }

  lemma SettledOpenLimitOk(t: Tables, r: Tables, f: Fill)
    requires OpenLimitOk(t) && Took(t.orders, r.orders, f)
    ensures OpenLimitOk(r)
  {
    TookEvolves(t.orders, r.orders, f);
    forall user | user != MARKET_MAKER ensures |OpenOrdersOf(r.orders, user)| <= MAX_OPEN {
      FewerOpen(t.orders, r.orders, user);
    }
  }

  // How the tables look after one settlement.
  ghost predicate Settles(t: Tables, r: Tables, f: Fill) {
    && Took(t.orders, r.orders, f) && f !in t.fills
    && r == t.(accounts := Adjust(t.accounts, Postings(t.orders, f)), orders := r.orders, fills := t.fills + {f})
  }

  lemma ApplyFillTakes(t: Tables, f: Fill)
    requires FillsOk(t) && Tradable(t.orders, f)
    ensures Settles(t, ApplyFill(t, f), f)
  {
    FillIsNew(t, f);
    ClampNeverApplies(t.orders, f);
  }

  lemma SettledRowsOk(t: Tables, r: Tables, f: Fill)
    requires OrdersOk(t) && SequencesDistinct(t.orders) && FillsOk(t) && PairsOnce(t.fills) && QuantitiesOk(t)
    requires Settles(t, r, f)
    ensures OrdersOk(r) && SequencesDistinct(r.orders)
    ensures FillsOk(r) && PairsOnce(r.fills)
    ensures QuantitiesOk(r)
  {
    SettledOrdersOk(t, r, f);
    SettledFillsOk(t, r, f);
    SettledQuantitiesOk(t, r, f);
  }

  lemma SettledAccountsOk(t: Tables, r: Tables, f: Fill)
    requires Invariant(t) && Settles(t, r, f)
    ensures HoldingsOk(r) && AvailableOk(r)
    ensures OpenLimitOk(r) && AccountsOk(r)
  {
    SettledBalancesOk(t, r, f);
    SettledOpenLimitOk(t, r, f);
  }

  /** Settling a computed fill keeps the whole invariant. */
  lemma ApplyFillKeepsInvariant(t: Tables, f: Fill)
    requires Invariant(t) && Tradable(t.orders, f)
    ensures Invariant(ApplyFill(t, f))
  {
    ApplyFillTakes(t, f);
    SettledRowsOk(t, ApplyFill(t, f), f);
    SettledAccountsOk(t, ApplyFill(t, f), f);
  }

  lemma TookReserves(orders: map<OrderId, Order>, after: map<OrderId, Order>, f: Fill, key: AccountKey)
    requires Took(orders, after, f)
    ensures OpenReserves(after, key) == OpenReserves(orders, key)
              + OpenReserve(after[f.taker], key) - OpenReserve(orders[f.taker], key)
              + OpenReserve(after[f.maker], key) - OpenReserve(orders[f.maker], key)
  {
    var bought := orders[f.taker := after[f.taker]];
    ReservesChange(orders, f.taker, after[f.taker], key);
    ReservesChange(bought, f.maker, after[f.maker], key);
    assert bought[f.maker := after[f.maker]] == after;
  }

  /** Settlement moves no account away from the reservation equation. */
  lemma ApplyFillKeepsResidual(t: Tables, f: Fill, key: AccountKey)
    requires FillsOk(t) && Tradable(t.orders, f) && key in t.accounts
    ensures key in ApplyFill(t, f).accounts && Residual(ApplyFill(t, f), key) == Residual(t, key)
  {
    var r := ApplyFill(t, f);
    ApplyFillTakes(t, f);
    PostingsExplained(t.orders, r.orders, f, key);
    TookReserves(t.orders, r.orders, f, key);
  }

  // --- Lists of fills ----------------------------------------------------------------

  predicate Known(orders: map<OrderId, Order>, fills: seq<Fill>) {
    forall f :: f in fills ==> f.maker in orders && f.taker in orders
  }

  /** The fills of a pass, settled one after another. */
  function ApplyFills(t: Tables, fills: seq<Fill>): (r: Tables)
    requires Known(t.orders, fills)
    ensures r.orders.Keys == t.orders.Keys && r.markets == t.markets
    decreases |fills|
  {
    if fills == [] then t else ApplyFills(ApplyFill(t, fills[0]), fills[1..])
  }

  // Each fill is tradable at the moment it is settled.
  predicate AllTradable(t: Tables, fills: seq<Fill>)
    requires Known(t.orders, fills)
    decreases |fills|
  {
    fills == [] || (Tradable(t.orders, fills[0]) && AllTradable(ApplyFill(t, fills[0]), fills[1..]))
  }

  lemma {:induction false} ApplyFillsConcat(t: Tables, a: seq<Fill>, b: seq<Fill>)
    requires Known(t.orders, a) && Known(t.orders, b)
    ensures Known(t.orders, a + b)
    ensures ApplyFills(t, a + b) == ApplyFills(ApplyFills(t, a), b)
    ensures AllTradable(t, a + b) <==> AllTradable(t, a) && AllTradable(ApplyFills(t, a), b)
    decreases |a|
  {
    assert Known(t.orders, a + b);
    if a == [] {
      assert a + b == b;
    } else {
      assert (a + b)[1..] == a[1..] + b && (a + b)[0] == a[0];
      ApplyFillsConcat(ApplyFill(t, a[0]), a[1..], b);
    }
  }

  /** Settling a pass keeps the invariant. */
  lemma {:induction false} ApplyFillsKeepsInvariant(t: Tables, fills: seq<Fill>)
    requires Invariant(t) && Known(t.orders, fills) && AllTradable(t, fills)
    ensures Invariant(ApplyFills(t, fills))
    decreases |fills|
  {
    if fills != [] {
      ApplyFillKeepsInvariant(t, fills[0]);
      ApplyFillsKeepsInvariant(ApplyFill(t, fills[0]), fills[1..]);
    }
  }

  /** Settling a pass keeps every account's distance from the reservation equation. */
  lemma {:induction false} ApplyFillsKeepsResidual(t: Tables, fills: seq<Fill>, key: AccountKey)
    requires FillsOk(t) && PairsOnce(t.fills) && Known(t.orders, fills) && AllTradable(t, fills) && key in t.accounts
    ensures key in ApplyFills(t, fills).accounts && Residual(ApplyFills(t, fills), key) == Residual(t, key)
    decreases |fills|
  {
    if fills != [] {
      var mid := ApplyFill(t, fills[0]);
      ApplyFillTakes(t, fills[0]);
      SettledFillsOk(t, mid, fills[0]);
      ApplyFillKeepsResidual(t, fills[0], key);
      ApplyFillsKeepsResidual(mid, fills[1..], key);
    }
  }

  // A settlement changes account balances, two orders' remainders and the fills only.
  ghost predicate Continues(t: Tables, r: Tables) {
    && Evolves(t.orders, r.orders) && r.orders.Keys == t.orders.Keys && r.accounts.Keys == t.accounts.Keys
    && r.markets == t.markets && r.traders == t.traders && r.users == t.users && r.nextSequence == t.nextSequence
    && t.fills <= r.fills
  }

  lemma ApplyFillContinues(t: Tables, f: Fill)
    requires f.maker in t.orders && f.taker in t.orders
    ensures Continues(t, ApplyFill(t, f))
  {
  }

  lemma ContinuesTransitive(a: Tables, b: Tables, c: Tables)
    requires Continues(a, b) && Continues(b, c)
    ensures Continues(a, c)
  {
  }

  lemma {:induction false} ApplyFillsContinues(t: Tables, fills: seq<Fill>)
    requires Known(t.orders, fills)
    ensures Continues(t, ApplyFills(t, fills))
    decreases |fills|
  {
    if fills != [] {
      var mid := ApplyFill(t, fills[0]);
      ApplyFillContinues(t, fills[0]);
      ApplyFillsContinues(mid, fills[1..]);
      ContinuesTransitive(t, mid, ApplyFills(t, fills));
    }
  }

  // --- Fills of disjoint orders commute ------------------------------------------------

  predicate Apart(f: Fill, g: Fill) {
    {f.maker, f.taker} !! {g.maker, g.taker}
  }

  lemma ApplyFillCommutes(t: Tables, f: Fill, g: Fill)
    requires f.maker in t.orders && f.taker in t.orders && g.maker in t.orders && g.taker in t.orders && Apart(f, g)
    ensures ApplyFill(ApplyFill(t, f), g) == ApplyFill(ApplyFill(t, g), f)
  {
    assert Conflicts(t.fills + {f}, g) <==> Conflicts(t.fills, g);
    assert Conflicts(t.fills + {g}, f) <==> Conflicts(t.fills, f);
    AdjustCommutes(t.accounts, Postings(t.orders, f), Postings(t.orders, g));
    TakesCommute(t.orders, f, g);
  }

  lemma TakesCommute(orders: map<OrderId, Order>, f: Fill, g: Fill)
    requires f.maker in orders && f.taker in orders && g.maker in orders && g.taker in orders && Apart(f, g)
    ensures TakeFromBoth(TakeFromBoth(orders, f), g) == TakeFromBoth(TakeFromBoth(orders, g), f)
    ensures TakeFromBoth(orders, f)[g.maker] == orders[g.maker] && TakeFromBoth(orders, f)[g.taker] == orders[g.taker]
    ensures TakeFromBoth(orders, g)[f.maker] == orders[f.maker] && TakeFromBoth(orders, g)[f.taker] == orders[f.taker]
  {
  }

  lemma {:induction false} ApplyFillPastList(t: Tables, f: Fill, gs: seq<Fill>)
    requires Known(t.orders, [f]) && Known(t.orders, gs) && forall g :: g in gs ==> Apart(f, g)
    ensures f in [f] && ApplyFills(ApplyFill(t, f), gs) == ApplyFill(ApplyFills(t, gs), f)
    decreases |gs|
  {
    assert f in [f];
    if gs != [] {
      assert gs[0] in gs;
      ApplyFillCommutes(t, f, gs[0]);
      ApplyFillPastList(ApplyFill(t, gs[0]), f, gs[1..]);
    }
  }

  lemma {:induction false} ApplyFillsCommute(t: Tables, fs: seq<Fill>, gs: seq<Fill>)
    requires Known(t.orders, fs) && Known(t.orders, gs)
    requires forall f, g :: f in fs && g in gs ==> Apart(f, g)
    ensures ApplyFills(ApplyFills(t, fs), gs) == ApplyFills(ApplyFills(t, gs), fs)
    decreases |fs|
  {
    if fs != [] {
      assert fs[0] in fs;
      ApplyFillPastList(t, fs[0], gs);
      ApplyFillsCommute(ApplyFill(t, fs[0]), fs[1..], gs);
    }
  }
}

/** The exchange's tables (migrations/0001_initial.sql and later) and what every
    transaction keeps about them. */
module State {
  import opened FixedPoint
  import opened Sums
  import opened Domain

  // The user that owns the simulator's liquidity.
  const MARKET_MAKER: UserId := 1

  datatype Order = Order(user: UserId, instrument: Symbol, side: Side, orderType: OrderType, quantity: int,
                         remaining: int, limitPrice: int, status: OrderStatus, sequence: nat, system: bool)

  // `funded` is history: the amount the account row was inserted with. Nothing reads it.
  datatype Account = Account(available: int, reserved: int, funded: int)

  type AccountKey = (UserId, Currency)

  // The sell is always recorded as the maker and the buy as the taker.
  datatype Fill = Fill(maker: OrderId, taker: OrderId, instrument: Symbol, price: int, quantity: int)

  // `live` says the reference price is fresh enough to trade on.
  datatype MarketState = MarketState(reference: int, live: bool)

  // `users` holds every user id ever drawn, which is what makes the next one new.
  datatype Tables = Tables(accounts: map<AccountKey, Account>, orders: map<OrderId, Order>, fills: set<Fill>,
                           markets: map<Symbol, MarketState>, traders: map<string, UserId>, users: set<UserId>,
                           nextSequence: nat)

  predicate IsOpen(o: Order) {
    o.status == Open || o.status == PartiallyFilled
  }

  // --- Account updates ---------------------------------------------------------------

  // One UPDATE of an account row by two deltas.
  datatype Posting = Posting(user: UserId, currency: Currency, available: int, reserved: int)

  function AvailableDelta(ps: seq<Posting>, key: AccountKey): int {
    if ps == [] then 0 else (if (ps[0].user, ps[0].currency) == key then ps[0].available else 0) + AvailableDelta(ps[1..], key)
  }

  function ReservedDelta(ps: seq<Posting>, key: AccountKey): int {
    if ps == [] then 0 else (if (ps[0].user, ps[0].currency) == key then ps[0].reserved else 0) + ReservedDelta(ps[1..], key)
  }

  /** The accounts after a batch of updates; an update of a missing row does nothing. */
  function Adjust(accounts: map<AccountKey, Account>, ps: seq<Posting>): map<AccountKey, Account> {
    map key | key in accounts ::
      accounts[key].(available := accounts[key].available + AvailableDelta(ps, key),
                     reserved := accounts[key].reserved + ReservedDelta(ps, key))
  }

  lemma {:induction false} DeltasConcat(ps: seq<Posting>, qs: seq<Posting>, key: AccountKey)
    ensures AvailableDelta(ps + qs, key) == AvailableDelta(ps, key) + AvailableDelta(qs, key)
    ensures ReservedDelta(ps + qs, key) == ReservedDelta(ps, key) + ReservedDelta(qs, key)
  {
    if ps == [] {
      assert ps + qs == qs;
    } else {
      assert (ps + qs)[1..] == ps[1..] + qs;
      DeltasConcat(ps[1..], qs, key);
    }
  }

  lemma AdjustTwice(accounts: map<AccountKey, Account>, ps: seq<Posting>, qs: seq<Posting>)
    ensures Adjust(Adjust(accounts, ps), qs) == Adjust(accounts, ps + qs)
  {
    forall key | key in accounts
      ensures AvailableDelta(ps + qs, key) == AvailableDelta(ps, key) + AvailableDelta(qs, key)
      ensures ReservedDelta(ps + qs, key) == ReservedDelta(ps, key) + ReservedDelta(qs, key)
    {
      DeltasConcat(ps, qs, key);
    }
  }

  lemma AdjustCommutes(accounts: map<AccountKey, Account>, ps: seq<Posting>, qs: seq<Posting>)
    ensures Adjust(Adjust(accounts, ps), qs) == Adjust(Adjust(accounts, qs), ps)
  {
  }

  // --- Sums over the tables ----------------------------------------------------------

  function ReserveCurrency(o: Order): Currency {
    if o.side == Buy then Quote(o.instrument) else Base(o.instrument)
  }

  // What an open order still holds back, as migration 0007 and cancellation compute it.
  function Outstanding(o: Order): int {
    if o.side == Buy then BalanceAmount(o.remaining * o.limitPrice) else o.remaining
  }

  function OpenReserve(o: Order, key: AccountKey): int {
    if !o.system && IsOpen(o) && (o.user, ReserveCurrency(o)) == key then Outstanding(o) else 0
  }

  ghost function ReserveOf(orders: map<OrderId, Order>, key: AccountKey): OrderId -> int {
    (id: OrderId) => if id in orders then OpenReserve(orders[id], key) else 0
  }

  /** The reservation equation's right-hand side: a sum over the user's open orders. */
  ghost function OpenReserves(orders: map<OrderId, Order>, key: AccountKey): int {
    Sum(orders.Keys, ReserveOf(orders, key))
  }

  // What a fill moves into an account of its buyer and of its seller.
  function BuyerNet(o: Order, f: Fill, key: AccountKey): int {
    if o.system || o.user != key.0 then 0 else
      (if Base(o.instrument) == key.1 then f.quantity else 0)
      - (if Quote(o.instrument) == key.1 then BalanceAmount(f.quantity * f.price) else 0)
  }

  function SellerNet(o: Order, f: Fill, key: AccountKey): int {
    if o.system || o.user != key.0 then 0 else
      (if Quote(o.instrument) == key.1 then BalanceAmount(f.quantity * f.price) else 0)
      - (if Base(o.instrument) == key.1 then f.quantity else 0)
  }

  ghost function NetOf(orders: map<OrderId, Order>, key: AccountKey): Fill -> int {
    (f: Fill) => (if f.taker in orders then BuyerNet(orders[f.taker], f, key) else 0)
         + (if f.maker in orders then SellerNet(orders[f.maker], f, key) else 0)
  }

  /** What the fills table implies for an account's total. */
  ghost function NetFills(t: Tables, key: AccountKey): int {
    Sum(t.fills, NetOf(t.orders, key))
  }

  // A buy fill whose cost was rounded up.
  function RoundedBuy(o: Order, f: Fill, key: AccountKey): int {
    if !o.system && (o.user, Quote(o.instrument)) == key && RoundsUp(f.quantity * f.price) then 1 else 0
  }

  ghost function RoundedOf(orders: map<OrderId, Order>, key: AccountKey): Fill -> int {
    (f: Fill) => if f.taker in orders then RoundedBuy(orders[f.taker], f, key) else 0
  }

  ghost function RoundedBuys(t: Tables, key: AccountKey): int {
    Sum(t.fills, RoundedOf(t.orders, key))
  }

  ghost function QuantityOf(id: OrderId): Fill -> int {
    (f: Fill) => if f.maker == id || f.taker == id then f.quantity else 0
  }

  ghost function FilledQuantity(fills: set<Fill>, id: OrderId): int {
    Sum(fills, QuantityOf(id))
  }

  function OpenOrdersOf(orders: map<OrderId, Order>, user: UserId): set<OrderId> {
    set id | id in orders && orders[id].user == user && IsOpen(orders[id])
  }

  // --- Invariant ---------------------------------------------------------------------

  predicate Lifecycle(o: Order) {
    && 0 <= o.remaining <= o.quantity
    && (o.status == Open ==> o.remaining == o.quantity)
    && (o.status == PartiallyFilled ==> 0 < o.remaining < o.quantity)
    && (o.status == Filled ==> o.remaining == 0)
    && (!o.system && o.status != Filled ==> 0 < o.remaining)
  }

  // The simulator's levels may round to zero; users' limits and caps are positive.
  predicate PriceOk(o: Order) {
    && o.limitPrice >= 0
    && (o.side == Sell && o.orderType == Market ==> o.limitPrice == 0)
    && (!o.system && !(o.side == Sell && o.orderType == Market) ==> o.limitPrice > 0)
  }

  predicate OwnedBy(id: OrderId, o: Order) {
    match id
    case UserOrder(user, _) => !o.system && o.user == user && user != MARKET_MAKER
    case SystemOrder(number) => o.system && o.user == MARKET_MAKER && o.sequence == number
  }

  ghost predicate OrdersOk(t: Tables) {
    forall id :: id in t.orders ==>
      var o := t.orders[id];
      && OwnedBy(id, o) && Lifecycle(o) && PriceOk(o)
      && o.sequence < t.nextSequence && o.instrument in t.markets && o.user in t.users
      && (!o.system ==> (o.user, Base(o.instrument)) in t.accounts && (o.user, Quote(o.instrument)) in t.accounts)
  }

  ghost predicate SequencesDistinct(orders: map<OrderId, Order>) {
    forall a, b :: a in orders && b in orders && a != b ==> orders[a].sequence != orders[b].sequence
  }

  // A fill names a sell and a buy of its instrument, trades inside both limits, and has
  // exhausted at least one of them.
  ghost predicate FillOk(orders: map<OrderId, Order>, f: Fill) {
    && f.maker in orders && f.taker in orders
    && orders[f.maker].side == Sell && orders[f.taker].side == Buy
    && orders[f.maker].instrument == f.instrument == orders[f.taker].instrument
    && f.quantity > 0 && f.price > 0
    && orders[f.maker].limitPrice <= f.price <= orders[f.taker].limitPrice
    && (orders[f.maker].remaining == 0 || orders[f.taker].remaining == 0)
  }

  ghost predicate FillsOk(t: Tables) {
    forall f :: f in t.fills ==> FillOk(t.orders, f)
  }

  ghost predicate PairsOnce(fills: set<Fill>) {
    forall f, g :: f in fills && g in fills && f.maker == g.maker && f.taker == g.taker ==> f == g
  }

  /** Quantity minus remaining is what the order's fills add up to. */
  ghost predicate QuantitiesOk(t: Tables) {
    forall id :: id in t.orders && !t.orders[id].system ==>
      t.orders[id].quantity - t.orders[id].remaining == FilledQuantity(t.fills, id)
  }

  /** Available plus reserved is the initial funding plus what the fills imply. */
  ghost predicate HoldingsOk(t: Tables) {
    forall key :: key in t.accounts ==>
      t.accounts[key].available + t.accounts[key].reserved == t.accounts[key].funded + NetFills(t, key)
  }

  /** Available falls below zero by at most one unit per rounded buy fill. */
  ghost predicate AvailableOk(t: Tables) {
    forall key :: key in t.accounts ==> t.accounts[key].available >= -RoundedBuys(t, key)
  }

  const MAX_OPEN: nat := 100

  ghost predicate OpenLimitOk(t: Tables) {
    forall user :: user != MARKET_MAKER ==> |OpenOrdersOf(t.orders, user)| <= MAX_OPEN
  }

  const CURRENCIES: set<Currency> := {"USD", "BTC", "ETH", "SOL"}

  ghost predicate AccountsOk(t: Tables) {
    && (forall key :: key in t.accounts ==> key.0 in t.users && forall c :: c in CURRENCIES ==> (key.0, c) in t.accounts)
    && (forall m :: m in t.markets ==> Base(m) in CURRENCIES && Quote(m) in CURRENCIES && t.markets[m].reference > 0)
    && (forall k :: k in t.traders ==> t.traders[k] in t.users && t.traders[k] != MARKET_MAKER)
    && MARKET_MAKER in t.users
  }

  ghost predicate Invariant(t: Tables) {
    && OrdersOk(t) && SequencesDistinct(t.orders) && FillsOk(t) && PairsOnce(t.fills)
    && QuantitiesOk(t) && HoldingsOk(t) && AvailableOk(t) && OpenLimitOk(t) && AccountsOk(t)
  }

  /** The reservation equation itself, which holds under a condition on reference prices. */
  ghost predicate ReservationsExact(t: Tables) {
    forall key :: key in t.accounts ==> t.accounts[key].reserved == OpenReserves(t.orders, key)
  }

  // How far an account's reserved column is from the equation.
  ghost function Residual(t: Tables, key: AccountKey): int
    requires key in t.accounts
  {
    t.accounts[key].reserved - OpenReserves(t.orders, key)
  }

  // --- How the sums react to one change ----------------------------------------------

  predicate SameTerms(a: Order, b: Order) {
    a == b.(remaining := a.remaining, status := a.status)
  }

  // Rows may appear, and existing rows keep everything but remaining and status.
  ghost predicate Evolves(before: map<OrderId, Order>, after: map<OrderId, Order>) {
    forall id :: id in before ==> id in after && SameTerms(after[id], before[id])
  }

  lemma ReservesChange(orders: map<OrderId, Order>, id: OrderId, o: Order, key: AccountKey)
    requires id in orders
    ensures OpenReserves(orders[id := o], key)
         == OpenReserves(orders, key) - OpenReserve(orders[id], key) + OpenReserve(o, key)
  {
    assert orders[id := o].Keys == orders.Keys;
    SumChange(orders.Keys, ReserveOf(orders, key), ReserveOf(orders[id := o], key), id);
  }

  lemma ReservesInsert(orders: map<OrderId, Order>, id: OrderId, o: Order, key: AccountKey)
    requires id !in orders
    ensures OpenReserves(orders[id := o], key) == OpenReserves(orders, key) + OpenReserve(o, key)
  {
    assert orders[id := o].Keys == orders.Keys + {id};
    SumAdd(orders.Keys, ReserveOf(orders[id := o], key), id);
    SumEqual(orders.Keys, ReserveOf(orders, key), ReserveOf(orders[id := o], key));
  }

  lemma OutstandingNonNegative(o: Order)
    requires o.remaining >= 0 && o.limitPrice >= 0
    ensures Outstanding(o) >= 0
  {
    MultiplyNonNegative(o.remaining, o.limitPrice);
  }

  lemma OpenReservesNonNegative(t: Tables, key: AccountKey)
    requires OrdersOk(t)
    ensures OpenReserves(t.orders, key) >= 0
  {
    forall id | id in t.orders ensures ReserveOf(t.orders, key)(id) >= 0 { OutstandingNonNegative(t.orders[id]); }
    SumNonNegative(t.orders.Keys, ReserveOf(t.orders, key));
  }

  // The fills' sums read only columns that no transaction changes.
  lemma FillSumsStable(t: Tables, orders: map<OrderId, Order>, key: AccountKey)
    requires FillsOk(t) && Evolves(t.orders, orders)
    ensures Sum(t.fills, NetOf(orders, key)) == NetFills(t, key)
    ensures Sum(t.fills, RoundedOf(orders, key)) == RoundedBuys(t, key)
  {
    forall f | f in t.fills
      ensures NetOf(orders, key)(f) == NetOf(t.orders, key)(f)
      ensures RoundedOf(orders, key)(f) == RoundedOf(t.orders, key)(f)
    {
      assert FillOk(t.orders, f);
    }
    SumEqual(t.fills, NetOf(t.orders, key), NetOf(orders, key));
    SumEqual(t.fills, RoundedOf(t.orders, key), RoundedOf(orders, key));
  }

  lemma RoundedBuysNonNegative(t: Tables, key: AccountKey)
    ensures RoundedBuys(t, key) >= 0
  {
    SumNonNegative(t.fills, RoundedOf(t.orders, key));
  }

  // --- Rows in sequence order ----------------------------------------------------------

  ghost predicate Oldest(orders: map<OrderId, Order>, ids: set<OrderId>, id: OrderId)
    requires ids <= orders.Keys
  {
    id in ids && forall other :: other in ids ==> orders[id].sequence <= orders[other].sequence
  }

  lemma {:induction false} OldestExists(orders: map<OrderId, Order>, ids: set<OrderId>)
    requires ids <= orders.Keys && ids != {}
    ensures exists id :: Oldest(orders, ids, id)
    decreases |ids|
  {
    var x :| x in ids;
    if ids == {x} {
      assert Oldest(orders, ids, x);
    } else {
      assert ids - {x} != {} by { assert ids == (ids - {x}) + {x}; }
      OldestExists(orders, ids - {x});
      var y :| Oldest(orders, ids - {x}, y);
      assert Oldest(orders, ids, if orders[x].sequence <= orders[y].sequence then x else y);
    }
  }

  /** SELECT ... ORDER BY sequence: the chosen rows, oldest first. */
  ghost function BySequence(orders: map<OrderId, Order>, ids: set<OrderId>): (rows: seq<OrderId>)
    requires ids <= orders.Keys
    ensures forall id :: id in rows <==> id in ids
    ensures |rows| == |ids|
    decreases |ids|
  {
    if ids == {} then [] else
      OldestExists(orders, ids);
      var id :| Oldest(orders, ids, id);
      var rest := BySequence(orders, ids - {id});
      [id] + rest
  }

  ghost predicate NoDuplicates(rows: seq<OrderId>) {
    forall i, j :: 0 <= i < j < |rows| ==> rows[i] != rows[j]
  }

  lemma {:induction false} BySequenceDistinct(orders: map<OrderId, Order>, ids: set<OrderId>)
    requires ids <= orders.Keys
    ensures NoDuplicates(BySequence(orders, ids))
    decreases |ids|
  {
    if ids != {} {
      var rows := BySequence(orders, ids);
      var id := rows[0];
      BySequenceDistinct(orders, ids - {id});
      assert rows[1..] == BySequence(orders, ids - {id});
    }
  }

  /** With distinct sequences the order does not depend on anything but the chosen rows. */
  lemma {:induction false} BySequenceDetermined(a: map<OrderId, Order>, b: map<OrderId, Order>, ids: set<OrderId>)
    requires ids <= a.Keys && ids <= b.Keys && SequencesDistinct(a)
    requires forall id :: id in ids ==> a[id].sequence == b[id].sequence
    ensures BySequence(a, ids) == BySequence(b, ids)
    decreases |ids|
  {
    if ids != {} {
      var x, y := BySequence(a, ids)[0], BySequence(b, ids)[0];
      assert Oldest(a, ids, x) && Oldest(b, ids, y);
      assert a[x].sequence == a[y].sequence;
      assert x == y;
      BySequenceDetermined(a, b, ids - {x});
    }
  }
}

/** Order acceptance and cancellation (crates/trading/src/lib.rs). */
module Trading {
  import opened FixedPoint
  import opened Sums
  import opened Domain
  import opened State
  import opened Settlement

  datatype TradingError = Invalid | NotFound | InsufficientFunds | Unavailable

  datatype Receipt = Receipt(id: OrderId, status: OrderStatus, created: bool)

  datatype Reply<+T> = Ok(value: T) | Err(error: TradingError)

  // --- Placement ---------------------------------------------------------------------------

  // The price as it is stored: the limit, or the market buy's cap five percent above the
  // reference rounded to the column's ten decimals, or zero for a market sell.
  function StoredPrice(order: NewOrder, reference: int): int
    requires Validate(order) == Valid
  {
    if order.limitPrice.Some? then ValidOrderIsBounded(order); Units(order.limitPrice.value)
    else if order.side == Buy then ColumnValue(reference * 105)
    else 0
  }

  // The funds to hold, from the price before the column rounds it.
  function ReserveAmount(order: NewOrder, reference: int): int
    requires Validate(order) == Valid
  {
    ValidOrderIsBounded(order);
    var quantity := Units(order.quantity);
    if order.side == Sell then quantity
    else if order.limitPrice.Some? then BalanceAmount(quantity * Units(order.limitPrice.value))
    else BalanceAmountFine(quantity * (reference * 105))
  }

  function NewRow(user: UserId, order: NewOrder, symbol: Symbol, reference: int, sequence: nat): Order
    requires Validate(order) == Valid
  {
    ValidOrderIsBounded(order);
    var quantity := Units(order.quantity);
    Order(user, symbol, order.side, order.orderType, quantity, quantity, StoredPrice(order, reference), Open, sequence, false)
  }

  /** place_order, in the order the transaction checks things. */
  function Place(t: Tables, user: UserId, order: NewOrder): (Tables, Reply<Receipt>) {
    if Validate(order) != Valid then (t, Err(Invalid)) else
      var id := UserOrder(user, order.clientOrderId);
      if id in t.orders then (t, Ok(Receipt(id, t.orders[id].status, false)))
      else if |OpenOrdersOf(t.orders, user)| >= MAX_OPEN then (t, Err(Invalid))
      else if order.instrument !in t.markets then (t, Err(NotFound))
      else if !t.markets[order.instrument].live then (t, Err(Unavailable))
      else
        var reference := t.markets[order.instrument].reference;
        var row := NewRow(user, order, order.instrument, reference, t.nextSequence);
        var reserve := ReserveAmount(order, reference);
        var key := (user, ReserveCurrency(row));
        if key !in t.accounts || t.accounts[key].available < reserve then (t, Err(InsufficientFunds))
        else (t.(accounts := Adjust(t.accounts, [Posting(user, key.1, -reserve, reserve)]),
                 orders := t.orders[id := row], nextSequence := t.nextSequence + 1),
              Ok(Receipt(id, Open, true)))
  }

  predicate Places(t: Tables, user: UserId, order: NewOrder) {
    Place(t, user, order).1.Ok? && Place(t, user, order).1.value.created
  }

  /** A placement changes the tables exactly when it creates an order. */
  lemma PlaceChangesOnlyByCreating(t: Tables, user: UserId, order: NewOrder)
    ensures !Places(t, user, order) ==> Place(t, user, order).0 == t
    ensures Places(t, user, order) ==>
              UserOrder(user, order.clientOrderId) !in t.orders && UserOrder(user, order.clientOrderId) in Place(t, user, order).0.orders
  {
  }

  // How far the amount held differs from what the stored row will be seen to hold.
  function PlacementDrift(order: NewOrder, reference: int): int
    requires Validate(order) == Valid
  {
    ValidOrderIsBounded(order);
    if order.side == Buy && order.limitPrice.None? then
      var quantity := Units(order.quantity);
      BalanceAmountFine(quantity * (reference * 105)) - BalanceAmount(quantity * ColumnValue(reference * 105))
    else 0
  }

  lemma FineAndColumnAgree(quantity: int, price: int)
    requires quantity >= 0 && price >= 0
    ensures BalanceAmountFine(quantity * (100 * price)) == BalanceAmount(quantity * price)
  {
    assert quantity * (100 * price) == 100 * (quantity * price);
    MultiplyNonNegative(quantity, price);
    var product := quantity * price;
    assert (100 * product + 50 * ONE) == 100 * (product + HALF);
    ScaleDivision(product + HALF);
  }

  lemma ScaleDivision(n: int)
    requires n >= 0
    ensures (100 * n) / (100 * ONE) == n / ONE
  {
    var q, m := n / ONE, n % ONE;
    assert n == ONE * q + m && 100 * n == (100 * ONE) * q + 100 * m;
  }

  /** The amount held matches the stored row for every quantity exactly when the
      reference price is a multiple of twenty units, so that 1.05 times it needs no more
      decimals than the column has. Prices of at most eight decimals are. Twenty coins are
      enough to show it, and the greatest quantity accepted is a million. */
  lemma PlacementExactIffStorable(reference: int, most: int)
    requires reference > 0 && most >= 20 * ONE
    ensures (forall quantity :: 0 < quantity <= most ==>
               BalanceAmountFine(quantity * (reference * 105)) == BalanceAmount(quantity * ColumnValue(reference * 105)))
       <==> reference % 20 == 0
  {
    if reference % 20 == 0 {
      forall quantity | 0 < quantity <= most
        ensures BalanceAmountFine(quantity * (reference * 105)) == BalanceAmount(quantity * ColumnValue(reference * 105))
      {
        StorableIsExact(reference, quantity);
      }
    } else {
      LargeBuysDrift(reference, 20 * ONE);
      assert 0 < 20 * ONE <= most;
    }
  }

  lemma HundredsStore(n: int)
    requires n >= 0
    ensures ColumnValue(100 * n) == n
  {
  }

  lemma CapIsExact(reference: int)
    requires reference > 0 && reference % 20 == 0
    ensures reference * 105 == 100 * ColumnValue(reference * 105) && ColumnValue(reference * 105) > 0
  {
    var n := reference / 20;
    assert reference == 20 * n;
    assert reference * 105 == 100 * (21 * n);
    HundredsStore(21 * n);
  }

  lemma StorableIsExact(reference: int, quantity: int)
    requires reference > 0 && reference % 20 == 0 && quantity >= 0
    ensures BalanceAmountFine(quantity * (reference * 105)) == BalanceAmount(quantity * ColumnValue(reference * 105))
  {
    CapIsExact(reference);
    FineAndColumnAgree(quantity, ColumnValue(reference * 105));
  }

  /** With any other reference price every market buy of twenty coins or more reserves a
      different amount from the one its row holds. */
  lemma LargeBuysDrift(reference: int, quantity: int)
    requires reference > 0 && reference % 20 != 0 && quantity >= 20 * ONE
    ensures BalanceAmountFine(quantity * (reference * 105)) != BalanceAmount(quantity * ColumnValue(reference * 105))
  {
    var cap := ColumnValue(reference * 105);
    var excess := reference * 105 - 100 * cap;
    NotStorable(reference, excess, cap);
    assert quantity * (reference * 105) == 100 * (quantity * cap) + quantity * excess;
    MultiplyNonNegative(quantity, cap);
    if excess > 0 {
      MultiplyMonotone(quantity, 5, excess);
    } else {
      MultiplyMonotone(quantity, excess, -5);
      MultiplyNonNegative(quantity, reference * 105);
    }
    UnitApart(quantity * cap, quantity * excess);
  }

  lemma NotStorable(reference: int, excess: int, cap: int)
    requires reference % 20 != 0 && excess == reference * 105 - 100 * cap
    ensures excess >= 5 || excess <= -5
  {
    assert excess == 5 * (21 * reference - 20 * cap);
  }

  lemma UnitApart(product: int, more: int)
    requires product >= 0 && 100 * product + more >= 0 && (more >= 100 * ONE || more <= -100 * ONE)
    ensures BalanceAmountFine(100 * product + more) != BalanceAmount(product)
  {
    ScaleDivision(product + HALF);
    if more > 0 {
      assert 100 * product + more + 50 * ONE >= 100 * (product + HALF) + 100 * ONE;
    }
  }

  // --- What a placement keeps ----------------------------------------------------------------

  lemma NewRowOk(t: Tables, user: UserId, order: NewOrder)
    requires Places(t, user, order) && AccountsOk(t) && user != MARKET_MAKER
    ensures var row := NewRow(user, order, order.instrument, t.markets[order.instrument].reference, t.nextSequence);
            && Lifecycle(row) && PriceOk(row) && IsOpen(row) && row.instrument in t.markets && user in t.users
            && (user, Base(row.instrument)) in t.accounts && (user, Quote(row.instrument)) in t.accounts
  {
    ValidOrderIsBounded(order);
    var symbol: Symbol := order.instrument;
    assert t.markets[symbol].reference > 0 && Base(symbol) in CURRENCIES && Quote(symbol) in CURRENCIES;
  }

  lemma ReserveIsOutstandingPlusDrift(t: Tables, user: UserId, order: NewOrder)
    requires Places(t, user, order)
    ensures var reference := t.markets[order.instrument].reference;
            ReserveAmount(order, reference)
              == Outstanding(NewRow(user, order, order.instrument, reference, t.nextSequence)) + PlacementDrift(order, reference)
  {
    ValidOrderIsBounded(order);
  }

  // An inserted order with nothing filled yet.
  ghost predicate Inserts(t: Tables, r: Tables, id: OrderId, row: Order) {
    && id !in t.orders && r.orders == t.orders[id := row] && r.fills == t.fills && r.markets == t.markets
    && r.traders == t.traders && r.users == t.users && r.nextSequence == t.nextSequence + 1
    && r.accounts.Keys == t.accounts.Keys && row.sequence == t.nextSequence && row.remaining == row.quantity
  }

  lemma InsertedOrdersOk(t: Tables, r: Tables, id: OrderId, row: Order)
    requires OrdersOk(t) && SequencesDistinct(t.orders) && Inserts(t, r, id, row)
    requires OwnedBy(id, row) && Lifecycle(row) && PriceOk(row) && row.instrument in t.markets && row.user in t.users
    requires !row.system ==> (row.user, Base(row.instrument)) in t.accounts && (row.user, Quote(row.instrument)) in t.accounts
    ensures OrdersOk(r) && SequencesDistinct(r.orders)
  {
  }

  lemma InsertedFillsOk(t: Tables, r: Tables, id: OrderId, row: Order)
    requires FillsOk(t) && QuantitiesOk(t) && Inserts(t, r, id, row)
    ensures FillsOk(r) && QuantitiesOk(r)
  {
    forall f | f in r.fills ensures FillOk(r.orders, f) { assert FillOk(t.orders, f); }
    forall other | other in r.orders && !r.orders[other].system
      ensures r.orders[other].quantity - r.orders[other].remaining == FilledQuantity(r.fills, other)
    {
      if other == id {
        forall f | f in r.fills ensures QuantityOf(id)(f) == 0 { assert FillOk(t.orders, f); }
        SumZero(r.fills, QuantityOf(id));
      }
    }
  }

  lemma InsertedRowsOk(t: Tables, r: Tables, id: OrderId, row: Order)
    requires OrdersOk(t) && SequencesDistinct(t.orders) && FillsOk(t) && QuantitiesOk(t) && Inserts(t, r, id, row)
    requires OwnedBy(id, row) && Lifecycle(row) && PriceOk(row) && row.instrument in t.markets && row.user in t.users
    requires !row.system ==> (row.user, Base(row.instrument)) in t.accounts && (row.user, Quote(row.instrument)) in t.accounts
    ensures OrdersOk(r) && SequencesDistinct(r.orders) && FillsOk(r) && QuantitiesOk(r)
  {
    InsertedOrdersOk(t, r, id, row);
    InsertedFillsOk(t, r, id, row);
  }

  lemma BalancesFollow(t: Tables, r: Tables)
    requires FillsOk(t) && HoldingsOk(t) && AvailableOk(t) && r.fills == t.fills && Evolves(t.orders, r.orders)
    requires forall key :: key in r.accounts ==>
      && key in t.accounts
      && r.accounts[key].available + r.accounts[key].reserved == t.accounts[key].available + t.accounts[key].reserved
      && r.accounts[key].funded == t.accounts[key].funded
      && (r.accounts[key].available >= t.accounts[key].available || r.accounts[key].available >= 0)
    ensures HoldingsOk(r) && AvailableOk(r)
  {
    forall key | key in r.accounts
      ensures r.accounts[key].available + r.accounts[key].reserved == r.accounts[key].funded + NetFills(r, key)
      ensures r.accounts[key].available >= -RoundedBuys(r, key)
    {
      FillSumsStable(t, r.orders, key);
      RoundedBuysNonNegative(t, key);
    }
  }

  lemma InsertedOpenLimitOk(t: Tables, r: Tables, id: OrderId, row: Order)
    requires OpenLimitOk(t) && Inserts(t, r, id, row)
    requires row.user != MARKET_MAKER ==> |OpenOrdersOf(t.orders, row.user)| < MAX_OPEN
    ensures OpenLimitOk(r)
  {
    forall user | user != MARKET_MAKER ensures |OpenOrdersOf(r.orders, user)| <= MAX_OPEN {
      if user == row.user {
        SubsetSize(OpenOrdersOf(r.orders, user), OpenOrdersOf(t.orders, user) + {id});
      } else {
        assert OpenOrdersOf(r.orders, user) == OpenOrdersOf(t.orders, user);
      }
    }
  }

  lemma PlaceInserts(t: Tables, user: UserId, order: NewOrder)
    requires Places(t, user, order)
    ensures var row := NewRow(user, order, order.instrument, t.markets[order.instrument].reference, t.nextSequence);
            var key, reserve := (user, ReserveCurrency(row)), ReserveAmount(order, t.markets[order.instrument].reference);
            && Inserts(t, Place(t, user, order).0, UserOrder(user, order.clientOrderId), row)
            && key in t.accounts && t.accounts[key].available >= reserve
            && (forall k :: k in t.accounts ==>
                  Place(t, user, order).0.accounts[k] ==
                    if k == key then t.accounts[k].(available := t.accounts[k].available - reserve, reserved := t.accounts[k].reserved + reserve)
                    else t.accounts[k])
  {
    var row := NewRow(user, order, order.instrument, t.markets[order.instrument].reference, t.nextSequence);
    var key, reserve := (user, ReserveCurrency(row)), ReserveAmount(order, t.markets[order.instrument].reference);
    forall k | k in t.accounts
      ensures AvailableDelta([Posting(user, key.1, -reserve, reserve)], k) == if k == key then -reserve else 0
      ensures ReservedDelta([Posting(user, key.1, -reserve, reserve)], k) == if k == key then reserve else 0
    {
      OnePosting(Posting(user, key.1, -reserve, reserve), k);
    }
  }

  lemma PlaceRowsOk(t: Tables, user: UserId, order: NewOrder)
    requires Invariant(t) && user != MARKET_MAKER && Places(t, user, order)
    ensures var r := Place(t, user, order).0;
            OrdersOk(r) && SequencesDistinct(r.orders) && FillsOk(r) && QuantitiesOk(r) && OpenLimitOk(r)
  {
    var r := Place(t, user, order).0;
    var id := UserOrder(user, order.clientOrderId);
    var row := NewRow(user, order, order.instrument, t.markets[order.instrument].reference, t.nextSequence);
    PlaceInserts(t, user, order);
    NewRowOk(t, user, order);
    InsertedRowsOk(t, r, id, row);
    InsertedOpenLimitOk(t, r, id, row);
  }

  lemma PlaceBalancesOk(t: Tables, user: UserId, order: NewOrder)
    requires Places(t, user, order) && FillsOk(t) && HoldingsOk(t) && AvailableOk(t)
    ensures HoldingsOk(Place(t, user, order).0) && AvailableOk(Place(t, user, order).0)
  {
    PlaceInserts(t, user, order);
    BalancesFollow(t, Place(t, user, order).0);
  }

  lemma AccountsStayOk(t: Tables, r: Tables)
    requires AccountsOk(t) && r.accounts.Keys == t.accounts.Keys
    requires r.markets == t.markets && r.traders == t.traders && r.users == t.users
    ensures AccountsOk(r)
  {
  }

  /** A placement keeps the invariant. */
  lemma PlaceKeepsInvariant(t: Tables, user: UserId, order: NewOrder)
    requires Invariant(t) && user != MARKET_MAKER
    ensures Invariant(Place(t, user, order).0)
  {
    if Places(t, user, order) {
      PlaceRowsOk(t, user, order);
      PlaceBalancesOk(t, user, order);
      PlaceInserts(t, user, order);
      AccountsStayOk(t, Place(t, user, order).0);
    } else {
      PlaceChangesOnlyByCreating(t, user, order);
    }
  }

  /** A placement moves only the account it reserves from away from the reservation
      equation, and that one by the drift of its rounding. */
  lemma PlaceResidual(t: Tables, user: UserId, order: NewOrder, key: AccountKey)
    requires Places(t, user, order) && key in t.accounts
    ensures var reference := t.markets[order.instrument].reference;
            var row := NewRow(user, order, order.instrument, reference, t.nextSequence);
            && key in Place(t, user, order).0.accounts
            && Residual(Place(t, user, order).0, key)
                 == Residual(t, key) + (if key == (user, ReserveCurrency(row)) then PlacementDrift(order, reference) else 0)
  {
    var r := Place(t, user, order).0;
    var row := NewRow(user, order, order.instrument, t.markets[order.instrument].reference, t.nextSequence);
    PlaceInserts(t, user, order);
    ReserveIsOutstandingPlusDrift(t, user, order);
    ReservesInsert(t.orders, UserOrder(user, order.clientOrderId), row, key);
  }

  // --- Cancellation --------------------------------------------------------------------------

  function CancelRow(t: Tables, id: OrderId): (r: Tables)
    requires id in t.orders
    ensures r.orders.Keys == t.orders.Keys
  {
    var o := t.orders[id];
    t.(orders := t.orders[id := o.(status := Cancelled)],
       accounts := Adjust(t.accounts, [Posting(o.user, ReserveCurrency(o), Outstanding(o), -Outstanding(o))]))
  }

  function CancelRows(t: Tables, rows: seq<OrderId>): (r: Tables)
    requires forall id :: id in rows ==> id in t.orders
    ensures r.orders.Keys == t.orders.Keys
    decreases |rows|
  {
    if rows == [] then t else CancelRows(CancelRow(t, rows[0]), rows[1..])
  }

  function Cancellable(t: Tables, user: UserId, which: Option<OrderId>): set<OrderId> {
    set id | id in OpenOrdersOf(t.orders, user) && (which.None? || which.value == id)
  }

  /** cancel_orders: one order or all of a user's open orders, oldest first. */
  ghost function CancelOrders(t: Tables, user: UserId, which: Option<OrderId>): (Tables, Reply<seq<OrderId>>) {
    var targets := Cancellable(t, user, which);
    var rows := BySequence(t.orders, targets);
    if which.Some? && rows == [] then (t, Err(NotFound)) else (CancelRows(t, rows), Ok(rows))
  }

  // The users' open orders among the rows still to cancel.
  predicate AllOpen(t: Tables, rows: seq<OrderId>) {
    forall id :: id in rows ==> id in t.orders && IsOpen(t.orders[id]) && !t.orders[id].system
  }

  ghost predicate Cancels(t: Tables, r: Tables, id: OrderId) {
    && id in t.orders && IsOpen(t.orders[id]) && !t.orders[id].system
    && r == t.(orders := r.orders, accounts := r.accounts)
    && r.orders == t.orders[id := t.orders[id].(status := Cancelled)] && r.accounts.Keys == t.accounts.Keys
    && var o := t.orders[id]; var key := (o.user, ReserveCurrency(o));
       forall k :: k in t.accounts ==>
         r.accounts[k] == if k == key then t.accounts[k].(available := t.accounts[k].available + Outstanding(o),
                                                          reserved := t.accounts[k].reserved - Outstanding(o))
                          else t.accounts[k]
  }

  lemma CancelRowCancels(t: Tables, id: OrderId)
    requires id in t.orders && IsOpen(t.orders[id]) && !t.orders[id].system
    ensures Cancels(t, CancelRow(t, id), id)
  {
    var o := t.orders[id];
    var p := Posting(o.user, ReserveCurrency(o), Outstanding(o), -Outstanding(o));
    forall k | k in t.accounts
      ensures AvailableDelta([p], k) == if k == (o.user, ReserveCurrency(o)) then Outstanding(o) else 0
      ensures ReservedDelta([p], k) == if k == (o.user, ReserveCurrency(o)) then -Outstanding(o) else 0
    {
      OnePosting(p, k);
    }
  }

  lemma CancelledRowsOk(t: Tables, r: Tables, id: OrderId)
    requires OrdersOk(t) && SequencesDistinct(t.orders) && Cancels(t, r, id)
    ensures OrdersOk(r) && SequencesDistinct(r.orders)
  {
    forall other | other in r.orders ensures Lifecycle(r.orders[other]) { assert Lifecycle(t.orders[other]); }
  }

  lemma CancelledFillsOk(t: Tables, r: Tables, id: OrderId)
    requires FillsOk(t) && QuantitiesOk(t) && Cancels(t, r, id)
    ensures FillsOk(r) && QuantitiesOk(r)
  {
    forall f | f in r.fills ensures FillOk(r.orders, f) { assert FillOk(t.orders, f); }
  }

  lemma CancelBalancesOk(t: Tables, r: Tables, id: OrderId)
    requires OrdersOk(t) && FillsOk(t) && HoldingsOk(t) && AvailableOk(t) && OpenLimitOk(t) && Cancels(t, r, id)
    ensures HoldingsOk(r) && AvailableOk(r) && OpenLimitOk(r)
  {
    OutstandingNonNegative(t.orders[id]);
    BalancesFollow(t, r);
    forall user | user != MARKET_MAKER ensures |OpenOrdersOf(r.orders, user)| <= MAX_OPEN {
      FewerOpen(t.orders, r.orders, user);
    }
  }

  lemma CancelledOk(t: Tables, r: Tables, id: OrderId)
    requires Invariant(t) && Cancels(t, r, id)
    ensures Invariant(r)
  {
    CancelledRowsOk(t, r, id);
    CancelledFillsOk(t, r, id);
    CancelBalancesOk(t, r, id);
    AccountsStayOk(t, r);
  }

  lemma CancelRowKeepsInvariant(t: Tables, id: OrderId)
    requires Invariant(t) && id in t.orders && IsOpen(t.orders[id]) && !t.orders[id].system
    ensures Invariant(CancelRow(t, id))
  {
    CancelRowCancels(t, id);
    CancelledOk(t, CancelRow(t, id), id);
  }

  /** A cancellation refunds exactly what the order held back. */
  lemma CancelRowKeepsResidual(t: Tables, id: OrderId, key: AccountKey)
    requires id in t.orders && IsOpen(t.orders[id]) && !t.orders[id].system && key in t.accounts
    ensures key in CancelRow(t, id).accounts && Residual(CancelRow(t, id), key) == Residual(t, key)
  {
    CancelRowCancels(t, id);
    ReservesChange(t.orders, id, t.orders[id].(status := Cancelled), key);
  }

  lemma RestStaysOpen(t: Tables, rows: seq<OrderId>)
    requires AllOpen(t, rows) && NoDuplicates(rows) && rows != []
    ensures rows[0] in t.orders && IsOpen(t.orders[rows[0]]) && !t.orders[rows[0]].system
    ensures AllOpen(CancelRow(t, rows[0]), rows[1..]) && NoDuplicates(rows[1..])
  {
    assert rows[0] in rows;
    forall id | id in rows[1..] ensures id != rows[0] && id in rows {
      var k :| 0 <= k < |rows[1..]| && rows[1..][k] == id;
      assert rows[k + 1] == id;
    }
  }

  lemma {:induction false} CancelRowsKeepsInvariant(t: Tables, rows: seq<OrderId>)
    requires Invariant(t) && AllOpen(t, rows) && NoDuplicates(rows)
    ensures Invariant(CancelRows(t, rows))
    decreases |rows|
  {
    if rows != [] {
      RestStaysOpen(t, rows);
      CancelRowKeepsInvariant(t, rows[0]);
      CancelRowsKeepsInvariant(CancelRow(t, rows[0]), rows[1..]);
    }
  }

  // What cancelling a list of open rows leaves behind.
  ghost predicate CancelsAll(t: Tables, r: Tables, rows: seq<OrderId>) {
    && r == t.(orders := r.orders, accounts := r.accounts) && r.orders.Keys == t.orders.Keys && r.accounts.Keys == t.accounts.Keys
    && (forall id :: id in t.orders ==> r.orders[id] == if id in rows then t.orders[id].(status := Cancelled) else t.orders[id])
    && (forall key :: key in t.accounts ==> Residual(r, key) == Residual(t, key))
  }

  lemma {:induction false} CancelRowsCancels(t: Tables, rows: seq<OrderId>)
    requires AllOpen(t, rows) && NoDuplicates(rows)
    ensures CancelsAll(t, CancelRows(t, rows), rows)
    decreases |rows|
  {
    if rows != [] {
      RestStaysOpen(t, rows);
      assert rows == [rows[0]] + rows[1..];
      var mid := CancelRow(t, rows[0]);
      CancelRowCancels(t, rows[0]);
      CancelRowsCancels(mid, rows[1..]);
      forall key | key in t.accounts ensures Residual(CancelRows(t, rows), key) == Residual(t, key) {
        CancelRowKeepsResidual(t, rows[0], key);
      }
    }
  }

  lemma CancellableOpen(t: Tables, user: UserId, which: Option<OrderId>)
    requires OrdersOk(t) && user != MARKET_MAKER
    ensures var rows := BySequence(t.orders, Cancellable(t, user, which)); AllOpen(t, rows) && NoDuplicates(rows)
  {
    BySequenceDistinct(t.orders, Cancellable(t, user, which));
  }

  lemma CancelRowsKeep(t: Tables, rows: seq<OrderId>)
    requires Invariant(t) && AllOpen(t, rows) && NoDuplicates(rows)
    ensures var r := CancelRows(t, rows);
            Invariant(r) && r.accounts.Keys == t.accounts.Keys && forall key :: key in t.accounts ==> Residual(r, key) == Residual(t, key)
  {
    CancelRowsKeepsInvariant(t, rows);
    CancelRowsCancels(t, rows);
  }

  /** Cancellation keeps the invariant, and the reservation equation wherever it held. */
  lemma CancelKeepsInvariant(t: Tables, user: UserId, which: Option<OrderId>)
    requires Invariant(t) && user != MARKET_MAKER
    ensures var r := CancelOrders(t, user, which).0;
            Invariant(r) && r.accounts.Keys == t.accounts.Keys && forall key :: key in t.accounts ==> Residual(r, key) == Residual(t, key)
  {
    CancellableOpen(t, user, which);
    CancelRowsKeep(t, BySequence(t.orders, Cancellable(t, user, which)));
  }

  /** Cancelling never lowers an available balance. */
  lemma {:induction false} CancelRowsRefund(t: Tables, rows: seq<OrderId>, key: AccountKey)
    requires OrdersOk(t) && SequencesDistinct(t.orders) && AllOpen(t, rows) && NoDuplicates(rows) && key in t.accounts
    ensures key in CancelRows(t, rows).accounts && CancelRows(t, rows).accounts[key].available >= t.accounts[key].available
    decreases |rows|
  {
    if rows != [] {
      RestStaysOpen(t, rows);
      CancelRowCancels(t, rows[0]);
      CancelledRowsOk(t, CancelRow(t, rows[0]), rows[0]);
      OutstandingNonNegative(t.orders[rows[0]]);
      CancelRowsRefund(CancelRow(t, rows[0]), rows[1..], key);
    }
  }

  lemma NothingLeftToCancel(t: Tables, r: Tables, rows: seq<OrderId>, user: UserId, which: Option<OrderId>)
    requires CancelsAll(t, r, rows) && forall id :: id in Cancellable(t, user, which) ==> id in rows
    ensures Cancellable(r, user, which) == {}
  {
    forall id ensures id !in Cancellable(r, user, which) {
      assert id in Cancellable(r, user, which) ==> id in Cancellable(t, user, which);
    }
  }

  lemma CancellingNothing(t: Tables, user: UserId, which: Option<OrderId>)
    requires Cancellable(t, user, which) == {}
    ensures CancelOrders(t, user, which) == if which.Some? then (t, Err(NotFound)) else (t, Ok([]))
  {
    assert BySequence(t.orders, {}) == [];
  }

  /** A cancellation leaves nothing of its targets open, so repeating it refunds nothing. */
  lemma CancelTwice(t: Tables, user: UserId, which: Option<OrderId>)
    requires OrdersOk(t) && user != MARKET_MAKER
    ensures var r := CancelOrders(t, user, which).0;
            && Cancellable(r, user, which) == {}
            && CancelOrders(r, user, which) == if which.Some? then (r, Err(NotFound)) else (r, Ok([]))
  {
    var rows := BySequence(t.orders, Cancellable(t, user, which));
    var r := CancelOrders(t, user, which).0;
    CancellableOpen(t, user, which);
    CancelRowsCancels(t, rows);
    NothingLeftToCancel(t, r, rows, user, which);
    CancellingNothing(r, user, which);
  }

  lemma NoOpenOrdersNoReserves(orders: map<OrderId, Order>, key: AccountKey)
    requires OpenOrdersOf(orders, key.0) == {}
    ensures OpenReserves(orders, key) == 0
  {
    forall id | id in orders ensures ReserveOf(orders, key)(id) == 0 {
      assert id !in OpenOrdersOf(orders, key.0);
    }
    SumZero(orders.Keys, ReserveOf(orders, key));
  }

  /** With the reservation equation, a user without open orders has nothing reserved, and
      no one's reserved balance is ever negative. */
  lemma ReservedMatchesOpenOrders(t: Tables, key: AccountKey)
    requires OrdersOk(t) && ReservationsExact(t) && key in t.accounts
    ensures t.accounts[key].reserved >= 0
    ensures OpenOrdersOf(t.orders, key.0) == {} ==> t.accounts[key].reserved == 0
  {
    OpenReservesNonNegative(t, key);
    if OpenOrdersOf(t.orders, key.0) == {} {
      NoOpenOrdersNoReserves(t.orders, key);
    }
  }

  // --- Migration 0007 --------------------------------------------------------------------------

  ghost function ReconciledRow(t: Tables, key: AccountKey): Account
    requires key in t.accounts
  {
    if key.0 == MARKET_MAKER then t.accounts[key] else
      var expected := OpenReserves(t.orders, key);
      t.accounts[key].(available := t.accounts[key].available + t.accounts[key].reserved - expected, reserved := expected)
  }

  /** UPDATE accounts SET available=available+reserved-expected, reserved=expected. */
  ghost function Reconcile(t: Tables): Tables {
    t.(accounts := map key | key in t.accounts :: ReconciledRow(t, key))
  }

  /** The migration establishes the reservation equation for every user, keeps every total,
      and changes nothing where the equation already held. */
  lemma ReconcileEstablishesReservations(t: Tables)
    ensures var r := Reconcile(t);
            && (forall key :: key in t.accounts ==>
                  && key in r.accounts
                  && r.accounts[key].available + r.accounts[key].reserved == t.accounts[key].available + t.accounts[key].reserved
                  && r.accounts[key].funded == t.accounts[key].funded
                  && (key.0 != MARKET_MAKER ==> Residual(r, key) == 0)
                  && (key.0 == MARKET_MAKER ==> r.accounts[key] == t.accounts[key]))
            && r == t.(accounts := r.accounts) && r.accounts.Keys == t.accounts.Keys
            && (ReservationsExact(t) ==> r == t)
  {
    if ReservationsExact(t) {
      assert Reconcile(t).accounts == t.accounts;
    }
  }
}

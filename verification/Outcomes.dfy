/** What each transaction does and answers, in the terms of its input and the tables it
    finds: every branch, every row it changes and every row it does not. */
module Outcomes {
  import opened FixedPoint
  import opened Sums
  import opened Domain
  import opened State
  import opened Settlement
  import opened Trading
  import opened Commands

  // --- Cancellation ------------------------------------------------------------------------------

  // A row that the request means: the user's, open, and the named one if one is named.
  predicate Meant(t: Tables, user: UserId, which: Option<OrderId>, id: OrderId) {
    && id in t.orders && t.orders[id].user == user && t.orders[id].status in {Open, PartiallyFilled}
    && (which == None || which == Some(id))
  }

  // What one row holds in an account: a buy its rounded cost, a sell its remainder.
  function Held(o: Order, key: AccountKey): int {
    if o.side == Buy then (if key == (o.user, Quote(o.instrument)) then BalanceAmount(o.remaining * o.limitPrice) else 0)
    else (if key == (o.user, Base(o.instrument)) then o.remaining else 0)
  }

  ghost function RefundOf(t: Tables, user: UserId, which: Option<OrderId>, key: AccountKey): OrderId -> int {
    (id: OrderId) => if Meant(t, user, which, id) then Held(t.orders[id], key) else 0
  }

  /** What the meant rows hold in an account together. */
  ghost function Refund(t: Tables, user: UserId, which: Option<OrderId>, key: AccountKey): int {
    Sum(t.orders.Keys, RefundOf(t, user, which, key))
  }

  function HeldByRows(orders: map<OrderId, Order>, rows: seq<OrderId>, key: AccountKey): int
    requires forall id :: id in rows ==> id in orders
  {
    if rows == [] then 0 else Held(orders[rows[0]], key) + HeldByRows(orders, rows[1..], key)
  }

  lemma {:induction false} HeldBySameRows(a: map<OrderId, Order>, b: map<OrderId, Order>, rows: seq<OrderId>, key: AccountKey)
    requires forall id :: id in rows ==> id in a && id in b && a[id] == b[id]
    ensures HeldByRows(a, rows, key) == HeldByRows(b, rows, key)
  {
    if rows != [] { HeldBySameRows(a, b, rows[1..], key); }
  }

  lemma OneRowRefunds(t: Tables, id: OrderId, key: AccountKey)
    requires id in t.orders && IsOpen(t.orders[id]) && !t.orders[id].system && key in t.accounts
    ensures var r := CancelRow(t, id);
            key in r.accounts && r.accounts[key] == t.accounts[key].(available := t.accounts[key].available + Held(t.orders[id], key),
                                                                     reserved := t.accounts[key].reserved - Held(t.orders[id], key))
  {
    CancelRowCancels(t, id);
  }

  lemma {:induction false} RowsRefund(t: Tables, rows: seq<OrderId>, key: AccountKey)
    requires AllOpen(t, rows) && NoDuplicates(rows) && key in t.accounts
    ensures var r, held := CancelRows(t, rows), HeldByRows(t.orders, rows, key);
            key in r.accounts && r.accounts[key] == t.accounts[key].(available := t.accounts[key].available + held,
                                                                     reserved := t.accounts[key].reserved - held)
    decreases |rows|
  {
    if rows != [] {
      RestStaysOpen(t, rows);
      var mid := CancelRow(t, rows[0]);
      OneRowRefunds(t, rows[0], key);
      RowsRefund(mid, rows[1..], key);
      OthersSame(t, rows, key);
    }
  }

  lemma OthersSame(t: Tables, rows: seq<OrderId>, key: AccountKey)
    requires AllOpen(t, rows) && NoDuplicates(rows) && rows != []
    ensures HeldByRows(CancelRow(t, rows[0]).orders, rows[1..], key) == HeldByRows(t.orders, rows[1..], key)
  {
    forall id | id in rows[1..] ensures id != rows[0] && id in rows {
      var k :| 0 <= k < |rows[1..]| && rows[1..][k] == id;
      assert rows[k + 1] == id;
    }
    HeldBySameRows(CancelRow(t, rows[0]).orders, t.orders, rows[1..], key);
  }

  lemma {:induction false} RowsSum(orders: map<OrderId, Order>, rows: seq<OrderId>, ids: set<OrderId>, f: OrderId -> int, key: AccountKey)
    requires NoDuplicates(rows) && (forall id :: id in rows <==> id in ids)
    requires forall id :: id in rows ==> id in orders && f(id) == Held(orders[id], key)
    ensures HeldByRows(orders, rows, key) == Sum(ids, f)
    decreases |rows|
  {
    if rows == [] {
      assert ids == {};
    } else {
      var rest := ids - {rows[0]};
      forall id ensures id in rows[1..] <==> id in rest {
        assert rows == [rows[0]] + rows[1..];
        if id in rows[1..] {
          var k :| 0 <= k < |rows[1..]| && rows[1..][k] == id;
          assert rows[k + 1] == id && rows[0] != rows[k + 1];
        }
      }
      SumRemove(ids, f, rows[0]);
      RowsSum(orders, rows[1..], rest, f, key);
    }
  }

  lemma HeadIsOldest(orders: map<OrderId, Order>, ids: set<OrderId>, id: OrderId)
    requires ids <= orders.Keys && id in ids
    ensures |BySequence(orders, ids)| > 0 && BySequence(orders, ids)[0] in orders
    ensures orders[BySequence(orders, ids)[0]].sequence <= orders[id].sequence
  {
    assert Oldest(orders, ids, BySequence(orders, ids)[0]);
  }

  // Oldest first.
  ghost predicate Ascending(orders: map<OrderId, Order>, rows: seq<OrderId>) {
    && (forall id :: id in rows ==> id in orders)
    && (forall i, j :: 0 <= i < j < |rows| ==> orders[rows[i]].sequence <= orders[rows[j]].sequence)
  }

  lemma AscendingWithHead(orders: map<OrderId, Order>, head: OrderId, rest: seq<OrderId>)
    requires Ascending(orders, rest) && head in orders
    requires forall id :: id in rest ==> orders[head].sequence <= orders[id].sequence
    ensures Ascending(orders, [head] + rest)
  {
  }

  lemma {:induction false} OldestFirst(orders: map<OrderId, Order>, ids: set<OrderId>)
    requires ids <= orders.Keys
    ensures Ascending(orders, BySequence(orders, ids))
    decreases |ids|
  {
    var rows := BySequence(orders, ids);
    if ids != {} {
      var rest := BySequence(orders, ids - {rows[0]});
      assert rows == [rows[0]] + rest;
      OldestFirst(orders, ids - {rows[0]});
      forall id | id in rest ensures orders[rows[0]].sequence <= orders[id].sequence { HeadIsOldest(orders, ids, id); }
      AscendingWithHead(orders, rows[0], rest);
    }
  }

  lemma CancellableIsMeant(t: Tables, user: UserId, which: Option<OrderId>)
    ensures forall id :: id in Cancellable(t, user, which) <==> Meant(t, user, which, id)
  {
  }

  // The rows after a cancellation, and the tables it leaves alone.
  ghost predicate CancelledRows(t: Tables, r: Tables, user: UserId, which: Option<OrderId>) {
    && r == t.(orders := r.orders, accounts := r.accounts) && r.orders.Keys == t.orders.Keys
    && forall id :: id in t.orders ==>
         r.orders[id] == if Meant(t, user, which, id) then t.orders[id].(status := Cancelled) else t.orders[id]
  }

  // The accounts after it: each gains what the meant rows held in it.
  ghost predicate Refunded(t: Tables, r: Tables, user: UserId, which: Option<OrderId>) {
    && r.accounts.Keys == t.accounts.Keys
    && forall key :: key in t.accounts ==>
         r.accounts[key] == t.accounts[key].(available := t.accounts[key].available + Refund(t, user, which, key),
                                             reserved := t.accounts[key].reserved - Refund(t, user, which, key))
  }

  // The answer: the meant rows, oldest first, or NotFound where a named one is not among them.
  ghost predicate CancelAnswer(t: Tables, user: UserId, which: Option<OrderId>, reply: Reply<seq<OrderId>>) {
    match reply
    case Ok(rows) =>
      && (which.None? || Meant(t, user, which, which.value))
      && NoDuplicates(rows) && (forall id :: id in rows <==> Meant(t, user, which, id)) && Ascending(t.orders, rows)
    case Err(error) => error == NotFound && which.Some? && !Meant(t, user, which, which.value)
  }

  // The meant rows' holdings, row by row and as a sum.
  lemma MeantHoldings(t: Tables, user: UserId, which: Option<OrderId>, rows: seq<OrderId>, ids: set<OrderId>, key: AccountKey)
    requires NoDuplicates(rows) && ids <= t.orders.Keys && (forall id :: id in rows <==> id in ids)
    requires forall id :: id in ids <==> Meant(t, user, which, id)
    ensures HeldByRows(t.orders, rows, key) == Refund(t, user, which, key)
  {
    var f := RefundOf(t, user, which, key);
    RowsSum(t.orders, rows, ids, f, key);
    SumSubset(t.orders.Keys, ids, f);
  }

  lemma CancelRefunds(t: Tables, user: UserId, which: Option<OrderId>, rows: seq<OrderId>, key: AccountKey)
    requires AllOpen(t, rows) && NoDuplicates(rows) && key in t.accounts
    requires HeldByRows(t.orders, rows, key) == Refund(t, user, which, key)
    ensures var r, refund := CancelRows(t, rows), Refund(t, user, which, key);
            key in r.accounts && r.accounts[key] == t.accounts[key].(available := t.accounts[key].available + refund,
                                                                     reserved := t.accounts[key].reserved - refund)
  {
    RowsRefund(t, rows, key);
  }

  lemma CancelAnswers(t: Tables, user: UserId, which: Option<OrderId>)
    ensures CancelAnswer(t, user, which, CancelOrders(t, user, which).1)
  {
    var ids := Cancellable(t, user, which);
    var rows := BySequence(t.orders, ids);
    CancellableIsMeant(t, user, which);
    BySequenceDistinct(t.orders, ids);
    OldestFirst(t.orders, ids);
  }

  lemma NothingMeant(t: Tables, user: UserId, which: Option<OrderId>)
    requires forall id :: !Meant(t, user, which, id)
    ensures CancelledRows(t, t, user, which) && Refunded(t, t, user, which)
  {
    forall key | key in t.accounts ensures Refund(t, user, which, key) == 0 {
      SumZero(t.orders.Keys, RefundOf(t, user, which, key));
    }
  }

  lemma MeantRowsCancelled(t: Tables, user: UserId, which: Option<OrderId>)
    requires OrdersOk(t) && user != MARKET_MAKER
    ensures var r := CancelRows(t, BySequence(t.orders, Cancellable(t, user, which)));
            CancelledRows(t, r, user, which) && Refunded(t, r, user, which)
  {
    var rows := BySequence(t.orders, Cancellable(t, user, which));
    CancellableOpen(t, user, which);
    CancellableIsMeant(t, user, which);
    CancelRowsCancels(t, rows);
    forall key | key in t.accounts
      ensures CancelRows(t, rows).accounts[key]
           == t.accounts[key].(available := t.accounts[key].available + Refund(t, user, which, key),
                               reserved := t.accounts[key].reserved - Refund(t, user, which, key))
    {
      MeantHoldings(t, user, which, rows, Cancellable(t, user, which), key);
      CancelRefunds(t, user, which, rows, key);
    }
  }

  /** Cancelling: exactly the meant rows become cancelled, each account gains exactly what
      they held in it, nothing else changes, and the answer lists them. */
  lemma CancelOutcome(t: Tables, user: UserId, which: Option<OrderId>)
    requires OrdersOk(t) && user != MARKET_MAKER
    ensures var (r, reply) := CancelOrders(t, user, which);
            CancelledRows(t, r, user, which) && Refunded(t, r, user, which) && CancelAnswer(t, user, which, reply)
  {
    CancelAnswers(t, user, which);
    if CancelOrders(t, user, which).1.Ok? {
      MeantRowsCancelled(t, user, which);
    } else {
      NothingMeant(t, user, which);
    }
  }

  /** Only the user's own accounts can gain. */
  lemma RefundsStayWithUser(t: Tables, user: UserId, which: Option<OrderId>, key: AccountKey)
    requires key.0 != user
    ensures Refund(t, user, which, key) == 0
  {
    SumZero(t.orders.Keys, RefundOf(t, user, which, key));
  }

  /** Cancelling one order refunds what that one holds. */
  lemma OneRefund(t: Tables, user: UserId, id: OrderId, key: AccountKey)
    requires Meant(t, user, Some(id), id)
    ensures Refund(t, user, Some(id), key) == Held(t.orders[id], key)
  {
    var f := RefundOf(t, user, Some(id), key);
    SumSubset(t.orders.Keys, {id}, f);
    SumRemove({id}, f, id);
    assert {id} - {id} == {};
  }

  // --- Placement -----------------------------------------------------------------------------------

  function OpenCount(t: Tables, user: UserId): nat {
    |set id | id in t.orders && t.orders[id].user == user && t.orders[id].status in {Open, PartiallyFilled}|
  }

  // What the order will hold: a sell its quantity, a limit buy its rounded cost, a market
  // buy 1.05 times the reference times its quantity, rounded once.
  function Need(order: NewOrder, reference: int): int
    requires order.quantity.scale <= 10 && (order.limitPrice.Some? ==> order.limitPrice.value.scale <= 10)
  {
    if order.side == Sell then Units(order.quantity)
    else match order.limitPrice
      case Some(price) => BalanceAmount(Units(order.quantity) * Units(price))
      case None => BalanceAmountFine(Units(order.quantity) * (reference * 105))
  }

  // The price the row keeps: the limit, or the market buy's cap as the column rounds it,
  // or zero.
  function Kept(order: NewOrder, reference: int): int
    requires order.limitPrice.Some? ==> order.limitPrice.value.scale <= 10
  {
    match order.limitPrice
    case Some(price) => Units(price)
    case None => if order.side == Buy then ColumnValue(reference * 105) else 0
  }

  // The earlier checks pass: a valid order under a new client id, with room for it.
  predicate Considered(t: Tables, user: UserId, order: NewOrder) {
    Validate(order) == Valid && UserOrder(user, order.clientOrderId) !in t.orders && OpenCount(t, user) < 100
  }

  predicate OnFreshMarket(t: Tables, order: NewOrder) {
    '-' in order.instrument && order.instrument in t.markets && t.markets[order.instrument].live
  }

  // The account that has to hold the reservation does.
  predicate Covered(t: Tables, user: UserId, order: NewOrder)
    requires Validate(order) == Valid && OnFreshMarket(t, order)
  {
    ValidOrderIsBounded(order);
    var symbol: Symbol := order.instrument;
    var key := (user, if order.side == Buy then Quote(symbol) else Base(symbol));
    key in t.accounts && t.accounts[key].available >= Need(order, t.markets[symbol].reference)
  }

  lemma OpenCountIs(t: Tables, user: UserId)
    ensures OpenCount(t, user) == |OpenOrdersOf(t.orders, user)|
  {
    assert OpenOrdersOf(t.orders, user)
        == set id | id in t.orders && t.orders[id].user == user && t.orders[id].status in {Open, PartiallyFilled};
  }

  lemma AmountsAre(order: NewOrder, reference: int)
    requires Validate(order) == Valid
    ensures order.quantity.scale <= 10 && (order.limitPrice.Some? ==> order.limitPrice.value.scale <= 10)
    ensures ReserveAmount(order, reference) == Need(order, reference) && StoredPrice(order, reference) == Kept(order, reference)
  {
    ValidOrderIsBounded(order);
  }

  /** The full answer of a placement: each refusal, the repeated client id and the new
      order under exactly its own condition. */
  lemma PlaceAnswers(t: Tables, user: UserId, order: NewOrder)
    ensures var (r, reply) := Place(t, user, order); var id := UserOrder(user, order.clientOrderId);
            && (reply == Err(Invalid) <==> Validate(order) != Valid || (id !in t.orders && OpenCount(t, user) >= 100))
            && (reply == Err(NotFound) <==> Considered(t, user, order) && order.instrument !in t.markets)
            && (reply == Err(Unavailable) <==>
                  Considered(t, user, order) && order.instrument in t.markets && !OnFreshMarket(t, order))
            && (reply == Err(InsufficientFunds) <==>
                  Considered(t, user, order) && OnFreshMarket(t, order) && !Covered(t, user, order))
            && (reply == Ok(Receipt(id, Open, true)) <==>
                  Considered(t, user, order) && OnFreshMarket(t, order) && Covered(t, user, order))
            && (Validate(order) == Valid && id in t.orders ==> reply == Ok(Receipt(id, t.orders[id].status, false)))
            && (reply != Ok(Receipt(id, Open, true)) ==> r == t)
  {
    OpenCountIs(t, user);
    if Validate(order) == Valid {
      ValidOrderIff(order);
      if order.instrument in t.markets { AmountsAre(order, t.markets[order.instrument].reference); }
    }
  }

  // The tables after an order is created.
  ghost predicate Created(t: Tables, r: Tables, user: UserId, order: NewOrder)
    requires Validate(order) == Valid && OnFreshMarket(t, order)
  {
    ValidOrderIsBounded(order);
    var symbol: Symbol := order.instrument;
    var reference, quantity := t.markets[symbol].reference, Units(order.quantity);
    var key, need := (user, if order.side == Buy then Quote(symbol) else Base(symbol)), Need(order, reference);
    && r == t.(orders := r.orders, accounts := r.accounts, nextSequence := t.nextSequence + 1)
    && r.orders == t.orders[UserOrder(user, order.clientOrderId) :=
                              Order(user, symbol, order.side, order.orderType, quantity, quantity, Kept(order, reference),
                                    Open, t.nextSequence, false)]
    && r.accounts.Keys == t.accounts.Keys
    && forall k :: k in t.accounts ==>
         r.accounts[k] == if k == key
                          then t.accounts[k].(available := t.accounts[k].available - need, reserved := t.accounts[k].reserved + need)
                          else t.accounts[k]
  }

  /** A created order is stored with the request's own terms and holds its reservation;
      nothing else changes. */
  lemma PlaceCreates(t: Tables, user: UserId, order: NewOrder)
    requires Considered(t, user, order) && OnFreshMarket(t, order) && Covered(t, user, order)
    ensures Created(t, Place(t, user, order).0, user, order)
  {
    PlaceAnswers(t, user, order);
    AmountsAre(order, t.markets[order.instrument].reference);
    PlaceInserts(t, user, order);
  }

  // --- Commands --------------------------------------------------------------------------------------

  /** A command of someone else than the trader's present user does nothing, for good. */
  lemma StrangersCommandIsIgnored(t: Tables, c: Command)
    requires c.trader !in t.traders || t.traders[c.trader] != c.user
    ensures Apply(t, c) == (t, Done)
  {
  }

  /** A trader's own placement is a placement, and only a stale market has it retried. */
  lemma OwnPlacement(t: Tables, c: Command, order: NewOrder)
    requires c.trader in t.traders && t.traders[c.trader] == c.user && c.action == PlaceOrder(order)
    ensures Apply(t, c).0 == Place(t, c.user, order).0
    ensures Apply(t, c).1 == Retry <==> Considered(t, c.user, order) && order.instrument in t.markets && !OnFreshMarket(t, order)
    ensures Considered(t, c.user, order) && OnFreshMarket(t, order) && Covered(t, c.user, order) ==>
              Created(t, Apply(t, c).0, c.user, order)
  {
    PlaceAnswers(t, c.user, order);
    if Considered(t, c.user, order) && OnFreshMarket(t, order) && Covered(t, c.user, order) { PlaceCreates(t, c.user, order); }
  }

  // One order of the user's cancelled, and what it held given back.
  ghost predicate CancelledOne(t: Tables, r: Tables, id: OrderId)
    requires id in t.orders
  {
    && id in r.orders && r.orders[id] == t.orders[id].(status := Cancelled)
    && r.accounts.Keys == t.accounts.Keys
    && forall key :: key in t.accounts ==>
         r.accounts[key] == t.accounts[key].(available := t.accounts[key].available + Held(t.orders[id], key),
                                             reserved := t.accounts[key].reserved - Held(t.orders[id], key))
  }

  lemma MeantOneCancelled(t: Tables, r: Tables, user: UserId, id: OrderId)
    requires Meant(t, user, Some(id), id) && CancelledRows(t, r, user, Some(id)) && Refunded(t, r, user, Some(id))
    ensures CancelledOne(t, r, id)
  {
    forall key | key in t.accounts ensures Refund(t, user, Some(id), key) == Held(t.orders[id], key) {
      OneRefund(t, user, id, key);
    }
  }

  lemma OwnCancelIsCancel(t: Tables, c: Command, id: OrderId)
    requires c.trader in t.traders && t.traders[c.trader] == c.user && c.action == CancelOrder(id)
    ensures Apply(t, c).0 == CancelOrders(t, c.user, Some(id)).0
    ensures Apply(t, c).1 == VerdictOf(CancelOrders(t, c.user, Some(id)).1)
  {
  }

  /** A trader's own cancellation of its open order cancels it and moves what it holds from
      reserved to available, and changes no other row; it is final whatever it finds. */
  lemma OwnCancellation(t: Tables, c: Command, id: OrderId)
    requires OrdersOk(t) && c.trader in t.traders && t.traders[c.trader] == c.user && c.user != MARKET_MAKER
    requires c.action == CancelOrder(id)
    ensures var (r, verdict) := Apply(t, c);
            && verdict == Done && CancelledRows(t, r, c.user, Some(id))
            && (id in t.orders && t.orders[id].user == c.user && t.orders[id].status in {Open, PartiallyFilled} ==>
                  CancelledOne(t, r, id))
  {
    CancelOutcome(t, c.user, Some(id));
    OwnCancelIsCancel(t, c, id);
    if Meant(t, c.user, Some(id), id) {
      MeantOneCancelled(t, Apply(t, c).0, c.user, id);
    }
  }

  /** When a command is retried: exactly an owned placement that reaches a stale market. */
  lemma RetryIff(t: Tables, c: Command)
    ensures Apply(t, c).1 == Retry <==>
              && c.trader in t.traders && t.traders[c.trader] == c.user && c.action.PlaceOrder?
              && Considered(t, c.user, c.action.order) && c.action.order.instrument in t.markets
              && !OnFreshMarket(t, c.action.order)
  {
    if Owns(t, c) && c.action.PlaceOrder? {
      PlaceAnswers(t, c.user, c.action.order);
    }
  }

  // --- Settling a fill ---------------------------------------------------------------------------------

  lemma ReservedDeltaIs(orders: map<OrderId, Order>, f: Fill, key: AccountKey)
    requires f.maker in orders && f.taker in orders
    ensures var buy, sell := orders[f.taker], orders[f.maker];
            ReservedDelta(Postings(orders, f), key)
              == (if !buy.system && (buy.user, Quote(buy.instrument)) == key then -Release(buy, f.quantity) else 0)
               + (if !sell.system && (sell.user, Base(sell.instrument)) == key then -f.quantity else 0)
  {
    DeltasConcat(BuyerPostings(orders[f.taker], f), SellerPostings(orders[f.maker], f), key);
    BuyerExplained(orders[f.taker], f, key);
    SellerExplained(orders[f.maker], f, key);
  }

  // The two rows of a fill afterwards, and all others.
  ghost predicate FilledRows(t: Tables, r: Tables, f: Fill)
    requires f.maker in t.orders && f.taker in t.orders
  {
    && r.orders.Keys == t.orders.Keys
    && forall id :: id in t.orders ==>
         r.orders[id] == if id == f.taker || id == f.maker
                         then t.orders[id].(remaining := t.orders[id].remaining - f.quantity,
                                            status := if t.orders[id].remaining == f.quantity then Filled else PartiallyFilled)
                         else t.orders[id]
  }

  // Who pays and who gets what, in one account.
  ghost predicate PaidIn(t: Tables, r: Tables, f: Fill, key: AccountKey)
    requires f.maker in t.orders && f.taker in t.orders && key in t.accounts && key in r.accounts
  {
    var buy, sell := t.orders[f.taker], t.orders[f.maker];
    var release := BalanceAmount(buy.remaining * buy.limitPrice) - BalanceAmount((buy.remaining - f.quantity) * buy.limitPrice);
    var cost := BalanceAmount(f.quantity * f.price);
    var pays, gets := !buy.system && key == (buy.user, Quote(buy.instrument)), !buy.system && key == (buy.user, Base(buy.instrument));
    var earns, gives := !sell.system && key == (sell.user, Quote(sell.instrument)), !sell.system && key == (sell.user, Base(sell.instrument));
    && r.accounts[key].funded == t.accounts[key].funded
    && r.accounts[key].available == t.accounts[key].available
         + (if pays then release - cost else 0) + (if gets then f.quantity else 0) + (if earns then cost else 0)
    && r.accounts[key].reserved == t.accounts[key].reserved
         - (if pays then release else 0) - (if gives then f.quantity else 0)
  }

  ghost predicate Paid(t: Tables, r: Tables, f: Fill)
    requires f.maker in t.orders && f.taker in t.orders
  {
    r.accounts.Keys == t.accounts.Keys && forall key :: key in t.accounts ==> PaidIn(t, r, f, key)
  }

  lemma PaidInOne(t: Tables, r: Tables, f: Fill, key: AccountKey)
    requires f.maker in t.orders && f.taker in t.orders && key in t.accounts
    requires r.accounts == Adjust(t.accounts, Postings(t.orders, f))
    ensures key in r.accounts && PaidIn(t, r, f, key)
  {
    AvailableDeltaIs(t.orders, f, key);
    ReservedDeltaIs(t.orders, f, key);
  }

  /** Settling a fill: it is recorded, both orders lose its quantity and close at zero, the
      buyer's reservation pays its cost, and the seller's pays its coins; a system order
      moves no balance, and buyer and seller may be one. */
  lemma FillOutcome(t: Tables, f: Fill)
    requires FillsOk(t) && Tradable(t.orders, f)
    ensures var r := ApplyFill(t, f);
            && r == t.(orders := r.orders, accounts := r.accounts, fills := t.fills + {f})
            && FilledRows(t, r, f) && Paid(t, r, f)
  {
    FillIsNew(t, f);
    ClampNeverApplies(t.orders, f);
    forall key | key in t.accounts ensures PaidIn(t, ApplyFill(t, f), f, key) {
      PaidInOne(t, ApplyFill(t, f), f, key);
    }
  }
}

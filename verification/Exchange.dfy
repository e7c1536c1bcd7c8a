/** The transactions as they run: statement by statement over mutable tables. Each is
    proved to change the tables exactly as its specification function says. */
module Exchange {
  import opened FixedPoint
  import opened Sums
  import opened Domain
  import opened Clearing
  import opened State
  import Settlement
  import Matching
  import Trading
  import Simulator
  import Members
  import Commands

  lemma OldestFirst(orders: map<OrderId, Order>, ids: set<OrderId>, id: OrderId)
    requires ids <= orders.Keys && SequencesDistinct(orders) && Oldest(orders, ids, id)
    ensures BySequence(orders, ids) == [id] + BySequence(orders, ids - {id})
  {
    var first := BySequence(orders, ids)[0];
    assert Oldest(orders, ids, first);
    assert orders[first].sequence == orders[id].sequence;
  }

  // The rows picked so far and those still to pick.
  ghost predicate Selecting(orders: map<OrderId, Order>, ids: set<OrderId>, rows: seq<OrderId>, left: set<OrderId>)
    requires ids <= orders.Keys
  {
    left <= ids && rows + BySequence(orders, left) == BySequence(orders, ids)
  }

  lemma SelectNext(orders: map<OrderId, Order>, ids: set<OrderId>, rows: seq<OrderId>, left: set<OrderId>, id: OrderId)
    requires ids <= orders.Keys && SequencesDistinct(orders) && Selecting(orders, ids, rows, left) && Oldest(orders, left, id)
    ensures Selecting(orders, ids, rows + [id], left - {id})
  {
    OldestFirst(orders, left, id);
    var rest := BySequence(orders, left - {id});
    assert (rows + [id]) + rest == rows + ([id] + rest);
  }

  lemma NextExists(orders: map<OrderId, Order>, left: set<OrderId>)
    requires left <= orders.Keys && left != {}
    ensures exists id :: id in left && forall other :: other in left ==> orders[id].sequence <= orders[other].sequence
  {
    OldestExists(orders, left);
    var id :| Oldest(orders, left, id);
  }

  lemma SideOfAppend(orders: map<OrderId, Order>, rows: seq<OrderId>, id: OrderId, side: Side)
    requires (forall x :: x in rows ==> x in orders) && id in orders
    ensures forall x :: x in rows + [id] ==> x in orders
    ensures Matching.SideOf(orders, rows + [id], side)
         == Matching.SideOf(orders, rows, side) + (if orders[id].side == side then [Matching.Entry(id, orders[id])] else [])
  {
    if rows == [] {
      assert rows + [id] == [id] && [id][1..] == [];
    } else {
      assert rows == [rows[0]] + rows[1..];
      assert (rows + [id])[1..] == rows[1..] + [id];
      SideOfAppend(orders, rows[1..], id, side);
    }
  }

  // match_taker sorts the sells itself, so they need not arrive sorted.
  lemma SellsNeedNoSorting(buys: seq<BookOrder>, sells: seq<BookOrder>, side: Side)
    requires OneSided(sells, side)
    ensures MatchBook(buys, SortByPriceTime(sells)).fills == MatchBook(buys, sells).fills
  {
    SortSorts(sells, side);
    SortIsIdempotent(SortByPriceTime(sells));
  }

  lemma CancelRowsAppend(t: Tables, rows: seq<OrderId>, k: nat)
    requires k < |rows| && forall id :: id in rows ==> id in t.orders
    ensures (forall id :: id in rows[..k] ==> id in t.orders) && (forall id :: id in rows[..k + 1] ==> id in t.orders)
    ensures rows[k] in t.orders
    ensures Trading.CancelRows(t, rows[..k + 1]) == Trading.CancelRow(Trading.CancelRows(t, rows[..k]), rows[k])
    decreases k
  {
    assert rows[k] in rows;
    if k == 0 {
      assert rows[..1][1..] == [];
    } else {
      var mid := Trading.CancelRow(t, rows[0]);
      assert rows[0] in rows;
      assert rows[..k + 1][1..] == rows[1..][..k] && rows[..k][1..] == rows[1..][..k - 1];
      assert rows[1..][k - 1] == rows[k];
      CancelRowsAppend(mid, rows[1..], k - 1);
    }
  }

  // The orders as they were loaded, which is what execution prices are computed from.
  ghost predicate Remembers(originals: map<OrderId, (BookOrder, OrderType)>, orders: map<OrderId, Order>, ids: set<OrderId>) {
    forall id :: id in ids ==> id in orders && id in originals && originals[id] == (Matching.Entry(id, orders[id]), orders[id].orderType)
  }

  // The first k rows are split by side and remembered.
  ghost predicate Loading(orders: map<OrderId, Order>, rows: seq<OrderId>, k: nat, buys: seq<BookOrder>,
                          sells: seq<BookOrder>, originals: map<OrderId, (BookOrder, OrderType)>)
  {
    && k <= |rows| && (forall id :: id in rows ==> id in orders) && (forall id :: id in rows[..k] ==> id in orders)
    && buys == Matching.SideOf(orders, rows[..k], Buy) && sells == Matching.SideOf(orders, rows[..k], Sell)
    && Remembers(originals, orders, set id | id in rows[..k])
  }

  lemma LoadNext(orders: map<OrderId, Order>, rows: seq<OrderId>, k: nat, buys: seq<BookOrder>,
                 sells: seq<BookOrder>, originals: map<OrderId, (BookOrder, OrderType)>, id: OrderId, o: Order)
    requires k < |rows| && Loading(orders, rows, k, buys, sells, originals) && id == rows[k] && id in orders && o == orders[id]
    ensures var entry := Matching.Entry(id, o);
            Loading(orders, rows, k + 1, if o.side == Buy then buys + [entry] else buys,
                    if o.side == Buy then sells else sells + [entry], originals[id := (entry, o.orderType)])
  {
    var seen := rows[..k];
    assert rows[..k + 1] == seen + [id];
    SideOfAppend(orders, seen, id, Buy);
    SideOfAppend(orders, seen, id, Sell);
    RemembersOneMore(originals, orders, (set x | x in seen), id);
    assert (set x | x in seen) + {id} == set x | x in seen + [id];
  }

  lemma RemembersOneMore(originals: map<OrderId, (BookOrder, OrderType)>, orders: map<OrderId, Order>, ids: set<OrderId>, id: OrderId)
    requires Remembers(originals, orders, ids) && id in orders
    ensures Remembers(originals[id := (Matching.Entry(id, orders[id]), orders[id].orderType)], orders, ids + {id})
  {
  }

  lemma Loaded(orders: map<OrderId, Order>, ids: set<OrderId>, rows: seq<OrderId>, buys: seq<BookOrder>,
               sells: seq<BookOrder>, originals: map<OrderId, (BookOrder, OrderType)>)
    requires ids <= orders.Keys && rows == BySequence(orders, ids) && Loading(orders, rows, |rows|, buys, sells, originals)
    ensures buys == Matching.SideOf(orders, rows, Buy) && sells == Matching.SideOf(orders, rows, Sell)
    ensures Remembers(originals, orders, ids)
  {
    assert rows[..|rows|] == rows;
    assert ids == set id | id in rows;
  }

  lemma {:induction false} PricedAt(orders: map<OrderId, Order>, reference: int, instrument: Symbol, ms: seq<Match>, k: nat)
    requires Matching.KnownMatches(orders, ms) && k < |ms|
    ensures ms[k].maker in orders && ms[k].taker in orders
    ensures Matching.Priced(orders, reference, instrument, ms)[k] == Matching.PriceMatch(orders, reference, instrument, ms[k])
    decreases k
  {
    assert ms[k] in ms;
    if k > 0 {
      PricedAt(orders, reference, instrument, ms[1..], k - 1);
    }
  }

  lemma SettleNext(start: Tables, fills: seq<Fill>, k: nat)
    requires k < |fills| && Settlement.Known(start.orders, fills)
    ensures Settlement.Known(start.orders, fills[..k]) && Settlement.Known(start.orders, fills[..k + 1])
    ensures fills[k].maker in start.orders && fills[k].taker in start.orders
    ensures Settlement.ApplyFills(start, fills[..k + 1]) == Settlement.ApplyFill(Settlement.ApplyFills(start, fills[..k]), fills[k])
    ensures fills[..k + 1] == fills[..k] + [fills[k]]
  {
    assert fills[..k + 1] == fills[..k] + [fills[k]];
    assert fills[k] in fills;
    Settlement.ApplyFillsConcat(start, fills[..k], [fills[k]]);
    assert [fills[k]][1..] == [];
  }

  // Everything matched so far is priced, positive and settled.
  ghost predicate SettledSoFar(begun: Tables, reference: int, instrument: Symbol, done: seq<Match>, now: Tables) {
    Matching.KnownMatches(begun.orders, done) &&
    var fills := Matching.Priced(begun.orders, reference, instrument, done);
    Matching.AllPayable(fills) && now == Settlement.ApplyFills(begun, fills)
  }

  lemma SettledMore(begun: Tables, reference: int, instrument: Symbol, done: seq<Match>, ms: seq<Match>, mid: Tables, now: Tables)
    requires SettledSoFar(begun, reference, instrument, done, mid) && Matching.KnownMatches(begun.orders, ms)
    requires var fills := Matching.Priced(begun.orders, reference, instrument, ms);
             Matching.AllPayable(fills) && Settlement.Known(mid.orders, fills) && now == Settlement.ApplyFills(mid, fills)
    ensures SettledSoFar(begun, reference, instrument, done + ms, now)
  {
    Matching.PricedConcat(begun.orders, reference, instrument, done, ms);
    Settlement.ApplyFillsConcat(begun, Matching.Priced(begun.orders, reference, instrument, done),
                                Matching.Priced(begun.orders, reference, instrument, ms));
  }

  lemma NextBuy(buys: seq<BookOrder>, k: nat, sells: seq<BookOrder>, r: TakerResult, done: seq<Match>, all: seq<Match>)
    requires k < |buys| && r == MatchSorted(buys[k], SortByPriceTime(sells))
    requires done + MatchBook(buys[k..], sells).fills == all
    ensures (done + r.fills) + MatchBook(buys[k + 1..], r.makers).fills == all
  {
    assert buys[k..][1..] == buys[k + 1..] && buys[k..][0] == buys[k];
    var rest := MatchBook(buys[k + 1..], r.makers).fills;
    assert done + (r.fills + rest) == (done + r.fills) + rest;
  }

  lemma PartKnown(orders: map<OrderId, Order>, all: seq<Match>, done: seq<Match>, ms: seq<Match>, ids: set<OrderId>)
    requires done + ms <= all && ids <= orders.Keys && forall m :: m in all ==> m.maker in ids && m.taker in ids
    ensures forall m :: m in ms ==> m.maker in ids && m.taker in ids
    ensures Matching.KnownMatches(orders, ms) && Matching.KnownMatches(orders, all)
  {
    forall m | m in ms ensures m in all {
      var j :| 0 <= j < |ms| && ms[j] == m;
      assert (done + ms)[|done| + j] == m;
      assert all[|done| + j] == m;
    }
  }

  lemma PartAborts(orders: map<OrderId, Order>, reference: int, instrument: Symbol, all: seq<Match>, done: seq<Match>, ms: seq<Match>)
    requires done + ms <= all && Matching.KnownMatches(orders, all) && Matching.KnownMatches(orders, ms)
    requires !Matching.AllPayable(Matching.Priced(orders, reference, instrument, ms))
    ensures !Matching.AllPayable(Matching.Priced(orders, reference, instrument, all))
  {
    var part := Matching.Priced(orders, reference, instrument, ms);
    var f :| f in part && f.price <= 0;
    var j :| 0 <= j < |part| && part[j] == f;
    PricedAt(orders, reference, instrument, ms, j);
    assert all[|done| + j] == (done + ms)[|done| + j] == ms[j];
    PricedAt(orders, reference, instrument, all, |done| + j);
    assert Matching.Priced(orders, reference, instrument, all)[|done| + j] == f;
  }

  // A matching transaction with k of its buys done: what is left of the in-memory pass
  // completes it, and everything before is settled.
  ghost predicate Progress(begun: Tables, instrument: Symbol, buys: seq<BookOrder>, k: nat, sells: seq<BookOrder>,
                           done: seq<Match>, now: Tables)
  {
    && instrument in begun.markets && k <= |buys| && now.orders.Keys == begun.orders.Keys
    && done + MatchBook(buys[k..], sells).fills == Matching.Pass(begun.orders, instrument).fills
    && SettledSoFar(begun, begun.markets[instrument].reference, instrument, done, now)
  }

  // The pass over the rows as fetched, before the matcher has sorted the sells.
  lemma PassOverFetched(orders: map<OrderId, Order>, instrument: Symbol, loaded: seq<BookOrder>, sells: seq<BookOrder>)
    requires var rows := BySequence(orders, Matching.OpenIds(orders, instrument));
             loaded == Matching.SideOf(orders, rows, Buy) && sells == Matching.SideOf(orders, rows, Sell)
    ensures MatchBook(SortByPriceTime(loaded), sells).fills == Matching.Pass(orders, instrument).fills
  {
    SellsNeedNoSorting(SortByPriceTime(loaded), sells, Sell);
  }

  lemma Begins(begun: Tables, instrument: Symbol, buys: seq<BookOrder>, sells: seq<BookOrder>)
    requires instrument in begun.markets
    requires MatchBook(buys, sells).fills == Matching.Pass(begun.orders, instrument).fills
    ensures Progress(begun, instrument, buys, 0, sells, [], begun)
  {
    assert buys[0..] == buys;
    EmptyPrefix(MatchBook(buys, sells).fills);
    NothingSettled(begun, begun.markets[instrument].reference, instrument);
  }

  lemma EmptyPrefix(fills: seq<Match>)
    ensures [] + fills == fills
  {
  }

  lemma NothingSettled(begun: Tables, reference: int, instrument: Symbol)
    ensures SettledSoFar(begun, reference, instrument, [], begun)
  {
    assert Matching.Priced(begun.orders, reference, instrument, []) == [];
  }

  // The next buy's matches are part of the pass.
  lemma NextMatchesKnown(begun: Tables, instrument: Symbol, buys: seq<BookOrder>, k: nat, sells: seq<BookOrder>,
                         done: seq<Match>, now: Tables, r: TakerResult)
    requires Progress(begun, instrument, buys, k, sells, done, now) && k < |buys|
    requires r == MatchSorted(buys[k], SortByPriceTime(sells))
    ensures var ids := Matching.OpenIds(begun.orders, instrument);
            forall m :: m in r.fills ==> m.maker in ids && m.taker in ids
    ensures Matching.KnownMatches(begun.orders, r.fills)
  {
    NextMatches(begun, instrument, buys, k, sells, done, now, r);
  }

  lemma NextMatches(begun: Tables, instrument: Symbol, buys: seq<BookOrder>, k: nat, sells: seq<BookOrder>,
                    done: seq<Match>, now: Tables, r: TakerResult)
    requires Progress(begun, instrument, buys, k, sells, done, now) && k < |buys|
    requires r == MatchSorted(buys[k], SortByPriceTime(sells))
    ensures var ids := Matching.OpenIds(begun.orders, instrument);
            forall m :: m in r.fills ==> m.maker in ids && m.taker in ids
    ensures var all := Matching.Pass(begun.orders, instrument).fills;
            Matching.KnownMatches(begun.orders, all) && Matching.KnownMatches(begun.orders, r.fills) && done + r.fills <= all
    ensures (done + r.fills) + MatchBook(buys[k + 1..], r.makers).fills == Matching.Pass(begun.orders, instrument).fills
  {
    var all := Matching.Pass(begun.orders, instrument).fills;
    Matching.PassNames(begun.orders, instrument);
    NextBuy(buys, k, sells, r, done, all);
    PartKnown(begun.orders, all, done, r.fills, Matching.OpenIds(begun.orders, instrument));
  }

  lemma Continues(begun: Tables, instrument: Symbol, buys: seq<BookOrder>, k: nat, sells: seq<BookOrder>,
                  done: seq<Match>, mid: Tables, r: TakerResult, now: Tables)
    requires Progress(begun, instrument, buys, k, sells, done, mid) && k < |buys|
    requires r == MatchSorted(buys[k], SortByPriceTime(sells)) && now.orders.Keys == begun.orders.Keys
    requires Matching.KnownMatches(begun.orders, r.fills)
    requires var fills := Matching.Priced(begun.orders, begun.markets[instrument].reference, instrument, r.fills);
             Matching.AllPayable(fills) && Settlement.Known(mid.orders, fills) && now == Settlement.ApplyFills(mid, fills)
    ensures Progress(begun, instrument, buys, k + 1, r.makers, done + r.fills, now)
  {
    NextMatches(begun, instrument, buys, k, sells, done, mid, r);
    SettledMore(begun, begun.markets[instrument].reference, instrument, done, r.fills, mid, now);
  }

  lemma Aborts(begun: Tables, instrument: Symbol, buys: seq<BookOrder>, k: nat, sells: seq<BookOrder>,
               done: seq<Match>, now: Tables, r: TakerResult)
    requires Progress(begun, instrument, buys, k, sells, done, now) && k < |buys|
    requires r == MatchSorted(buys[k], SortByPriceTime(sells)) && Matching.KnownMatches(begun.orders, r.fills)
    requires !Matching.AllPayable(Matching.Priced(begun.orders, begun.markets[instrument].reference, instrument, r.fills))
    ensures Matching.MatchTick(begun, instrument) == begun
  {
    NextMatches(begun, instrument, buys, k, sells, done, now, r);
    PartAborts(begun.orders, begun.markets[instrument].reference, instrument,
               Matching.Pass(begun.orders, instrument).fills, done, r.fills);
  }

  lemma Completes(begun: Tables, instrument: Symbol, buys: seq<BookOrder>, sells: seq<BookOrder>, done: seq<Match>, now: Tables)
    requires Progress(begun, instrument, buys, |buys|, sells, done, now)
    ensures Matching.MatchTick(begun, instrument) == now
  {
    assert done == Matching.Pass(begun.orders, instrument).fills;
  }

  method Vector(book: seq<BookOrder>) returns (vector: array<BookOrder>)
    ensures fresh(vector) && vector[..] == book
  {
    vector := new BookOrder[|book|](k requires 0 <= k < |book| => book[k]);
  }

  class Database {
    var accounts: map<AccountKey, Account>
    var orders: map<OrderId, Order>
    var fills: set<Fill>
    var markets: map<Symbol, MarketState>
    var traders: map<string, UserId>
    var users: set<UserId>
    var nextSequence: nat

    function Contents(): Tables
      reads this
    {
      Tables(accounts, orders, fills, markets, traders, users, nextSequence)
    }

    constructor (t: Tables)
      ensures Contents() == t
    {
      accounts, orders, fills, markets := t.accounts, t.orders, t.fills, t.markets;
      traders, users, nextSequence := t.traders, t.users, t.nextSequence;
    }

    // ROLLBACK to the tables the transaction began with.
    method Rollback(begun: Tables)
      modifies this
      ensures Contents() == begun
    {
      accounts, orders, fills, markets := begun.accounts, begun.orders, begun.fills, begun.markets;
      traders, users, nextSequence := begun.traders, begun.users, begun.nextSequence;
    }

    /** UPDATE accounts SET available=available+a, reserved=reserved+r for one row. */
    method UpdateAccount(user: UserId, currency: Currency, available: int, reserved: int)
      modifies this`accounts
      ensures accounts == Adjust(old(accounts), [Posting(user, currency, available, reserved)])
    {
      var key := (user, currency);
      ghost var p := Posting(user, currency, available, reserved);
      forall k | k in accounts
        ensures AvailableDelta([p], k) == if k == key then available else 0
        ensures ReservedDelta([p], k) == if k == key then reserved else 0
      {
        Settlement.OnePosting(p, k);
      }
      if key in accounts {
        var row := accounts[key];
        accounts := accounts[key := row.(available := row.available + available, reserved := row.reserved + reserved)];
      }
    }

    method UpdateTwo(first: Posting, second: Posting)
      modifies this`accounts
      ensures accounts == Adjust(old(accounts), [first, second])
    {
      UpdateAccount(first.user, first.currency, first.available, first.reserved);
      UpdateAccount(second.user, second.currency, second.available, second.reserved);
      TwoPosted(old(accounts), first, second);
    }

    /** SELECT ... ORDER BY sequence. */
    method SelectBySequence(ids: set<OrderId>) returns (rows: seq<OrderId>)
      requires ids <= orders.Keys && SequencesDistinct(orders)
      ensures rows == BySequence(orders, ids)
    {
      rows := [];
      var left := ids;
      assert [] + BySequence(orders, ids) == BySequence(orders, ids);
      while left != {}
        invariant Selecting(orders, ids, rows, left)
        decreases |left|
      {
        NextExists(orders, left);
        var id :| id in left && forall other :: other in left ==> orders[id].sequence <= orders[other].sequence;
        SelectNext(orders, ids, rows, left, id);
        rows := rows + [id];
        left := left - {id};
      }
    }

    // --- Trading -------------------------------------------------------------------------------

    /** place_order: check, find an earlier order of the same client id, check the open
        orders and the market, reserve, insert. */
    method PlaceOrder(user: UserId, order: NewOrder) returns (reply: Trading.Reply<Trading.Receipt>)
      modifies this
      ensures (Contents(), reply) == Trading.Place(old(Contents()), user, order)
    {
      if Validate(order) != Valid {
        return Trading.Err(Trading.Invalid);
      }
      var id := UserOrder(user, order.clientOrderId);
      if id in orders {
        return Trading.Ok(Trading.Receipt(id, orders[id].status, false));
      }
      if |OpenOrdersOf(orders, user)| >= MAX_OPEN {
        return Trading.Err(Trading.Invalid);
      }
      if order.instrument !in markets {
        return Trading.Err(Trading.NotFound);
      }
      var market := markets[order.instrument];
      if !market.live {
        return Trading.Err(Trading.Unavailable);
      }
      var row := Trading.NewRow(user, order, order.instrument, market.reference, nextSequence);
      var reserve := Trading.ReserveAmount(order, market.reference);
      var currency := ReserveCurrency(row);
      if (user, currency) !in accounts || accounts[(user, currency)].available < reserve {
        return Trading.Err(Trading.InsufficientFunds);
      }
      UpdateAccount(user, currency, -reserve, reserve);
      orders := orders[id := row];
      nextSequence := nextSequence + 1;
      return Trading.Ok(Trading.Receipt(id, Open, true));
    }

    method CancelRow(id: OrderId)
      requires id in orders
      modifies this
      ensures Contents() == Trading.CancelRow(old(Contents()), id)
    {
      var o := orders[id];
      orders := orders[id := o.(status := Cancelled)];
      UpdateAccount(o.user, ReserveCurrency(o), Outstanding(o), -Outstanding(o));
    }

    /** cancel_orders: lock the rows, then release them one by one. */
    method CancelOrders(user: UserId, which: Option<OrderId>) returns (reply: Trading.Reply<seq<OrderId>>)
      requires SequencesDistinct(orders)
      modifies this
      ensures (Contents(), reply) == Trading.CancelOrders(old(Contents()), user, which)
    {
      var rows := SelectBySequence(Trading.Cancellable(Contents(), user, which));
      if which.Some? && rows == [] {
        return Trading.Err(Trading.NotFound);
      }
      ghost var begun := Contents();
      for k := 0 to |rows|
        invariant orders.Keys == begun.orders.Keys
        invariant forall id :: id in rows[..k] ==> id in begun.orders
        invariant Contents() == Trading.CancelRows(begun, rows[..k])
      {
        CancelRowsAppend(begun, rows, k);
        CancelRow(rows[k]);
      }
      assert rows[..|rows|] == rows;
      return Trading.Ok(rows);
    }

    // --- Matching ------------------------------------------------------------------------------

    method TakeFromOrder(id: OrderId, quantity: int)
      requires id in orders
      modifies this`orders
      ensures orders == old(orders)[id := Settlement.TakeQuantity(old(orders)[id], quantity)]
    {
      var o := orders[id];
      var left := o.remaining - quantity;
      orders := orders[id := o.(remaining := if left > 0 then left else 0, status := if left <= 0 then Filled else PartiallyFilled)];
    }

    // Return any unused reserved funds and credit the purchase.
    method SettleBuyer(buy: Order, f: Fill, release: int, spent: int)
      requires release == Settlement.Release(buy, f.quantity) && spent == BalanceAmount(f.quantity * f.price)
      modifies this`accounts
      ensures accounts == Adjust(old(accounts), Settlement.BuyerPostings(buy, f))
    {
      if !buy.system {
        UpdateTwo(Posting(buy.user, Quote(buy.instrument), release - spent, -release),
                  Posting(buy.user, Base(buy.instrument), f.quantity, 0));
      } else {
        NothingPosted(accounts);
      }
    }

    // Release the reserved coins and credit the proceeds.
    method SettleSeller(sell: Order, f: Fill, spent: int)
      requires spent == BalanceAmount(f.quantity * f.price)
      modifies this`accounts
      ensures accounts == Adjust(old(accounts), Settlement.SellerPostings(sell, f))
    {
      if !sell.system {
        UpdateTwo(Posting(sell.user, Base(sell.instrument), 0, -f.quantity),
                  Posting(sell.user, Quote(sell.instrument), spent, 0));
      } else {
        NothingPosted(accounts);
      }
    }

    /** The INSERT of a fill and, if it was inserted, apply_fill: read the buy's remainder,
        reduce both orders, then post the balance changes. */
    method RecordFill(f: Fill) returns (inserted: bool)
      requires f.maker in orders && f.taker in orders
      modifies this
      ensures Contents() == Settlement.ApplyFill(old(Contents()), f)
    {
      if Settlement.Conflicts(fills, f) {
        return false;
      }
      fills := fills + {f};
      var buy, sell := orders[f.taker], orders[f.maker];
      var release, spent := Settlement.Release(buy, f.quantity), BalanceAmount(f.quantity * f.price);
      TakeFromOrder(f.taker, f.quantity);
      TakeFromOrder(f.maker, f.quantity);
      SettleBuyer(buy, f, release, spent);
      SettleSeller(sell, f, spent);
      AdjustTwice(old(accounts), Settlement.BuyerPostings(buy, f), Settlement.SellerPostings(sell, f));
      return true;
    }

    /** Fetches the instrument's open orders, oldest first, and splits them by side,
        keeping each order as loaded with its type. */
    method LoadBook(instrument: Symbol)
      returns (buys: seq<BookOrder>, sells: seq<BookOrder>, originals: map<OrderId, (BookOrder, OrderType)>)
      requires SequencesDistinct(orders)
      ensures var rows := BySequence(orders, Matching.OpenIds(orders, instrument));
              buys == Matching.SideOf(orders, rows, Buy) && sells == Matching.SideOf(orders, rows, Sell)
      ensures Remembers(originals, orders, Matching.OpenIds(orders, instrument))
    {
      var rows := SelectBySequence(Matching.OpenIds(orders, instrument));
      buys, sells, originals := [], [], map[];
      assert rows[..0] == [];
      for k := 0 to |rows|
        invariant Loading(orders, rows, k, buys, sells, originals)
      {
        var id := rows[k];
        assert id in rows;
        var o := orders[id];
        LoadNext(orders, rows, k, buys, sells, originals, id, o);
        var entry := Matching.Entry(id, o);
        originals := originals[id := (entry, o.orderType)];
        if o.side == Buy {
          buys := buys + [entry];
        } else {
          sells := sells + [entry];
        }
      }
      Loaded(orders, Matching.OpenIds(orders, instrument), rows, buys, sells, originals);
    }

    /** Prices, inserts and settles one buy's matches in turn; false on a price that is
        not positive, when the caller rolls back. */
    method SettleMatches(instrument: Symbol, reference: int, originals: map<OrderId, (BookOrder, OrderType)>,
                         matches: seq<Match>, ghost begun: map<OrderId, Order>, ghost ids: set<OrderId>) returns (settled: bool)
      requires orders.Keys == begun.Keys && Remembers(originals, begun, ids)
      requires forall m :: m in matches ==> m.maker in ids && m.taker in ids
      requires Matching.KnownMatches(begun, matches)
      modifies this
      ensures orders.Keys == begun.Keys
      ensures settled <==> Matching.AllPayable(Matching.Priced(begun, reference, instrument, matches))
      ensures settled ==>
                Settlement.Known(old(orders), Matching.Priced(begun, reference, instrument, matches)) &&
                Contents() == Settlement.ApplyFills(old(Contents()), Matching.Priced(begun, reference, instrument, matches))
    {
      ghost var priced := Matching.Priced(begun, reference, instrument, matches);
      ghost var start := Contents();
      assert priced[..0] == [];
      for k := 0 to |matches|
        invariant orders.Keys == begun.Keys
        invariant Matching.AllPayable(priced[..k]) && Settlement.Known(start.orders, priced[..k])
        invariant Contents() == Settlement.ApplyFills(start, priced[..k])
      {
        var m := matches[k];
        assert m in matches;
        var (buy, buyType) := originals[m.taker];
        var (sell, sellType) := originals[m.maker];
        var price := ExecutionPrice(buy, sell, buyType, sellType, reference);
        PricedAt(begun, reference, instrument, matches, k);
        if price <= 0 {
          return false;
        }
        var inserted := RecordFill(Fill(m.maker, m.taker, instrument, price, m.quantity));
        SettleNext(start, priced, k);
      }
      assert priced[..|matches|] == priced;
      return true;
    }

    // One round of the matching loop: the buy takes from the sells in memory, and its
    // matches are settled. When it returns false the whole transaction has to abort.
    method MatchOneBuy(instrument: Symbol, originals: map<OrderId, (BookOrder, OrderType)>, reference: int,
                       buys: seq<BookOrder>, k: nat, sells: array<BookOrder>, ghost begun: Tables, ghost done: seq<Match>)
      returns (settled: bool, matches: seq<Match>)
      requires Progress(begun, instrument, buys, k, sells[..], done, Contents()) && k < |buys|
      requires reference == begun.markets[instrument].reference
      requires Remembers(originals, begun.orders, Matching.OpenIds(begun.orders, instrument))
      modifies this, sells
      ensures settled ==> Progress(begun, instrument, buys, k + 1, sells[..], done + matches, Contents())
      ensures !settled ==> Matching.MatchTick(begun, instrument) == begun
    {
      ghost var before, soFar := sells[..], Contents();
      var taken;
      taken, matches := MatchTaker(buys[k], sells);
      ghost var r := TakerResult(taken, sells[..], matches);
      NextMatchesKnown(begun, instrument, buys, k, before, done, soFar, r);
      settled := SettleMatches(instrument, reference, originals, matches, begun.orders,
                               Matching.OpenIds(begun.orders, instrument));
      if settled {
        Continues(begun, instrument, buys, k, before, done, soFar, r, Contents());
      } else {
        Aborts(begun, instrument, buys, k, before, done, soFar, r);
      }
    }

    // The matching loop over the sorted buys.
    method MatchAllBuys(instrument: Symbol, originals: map<OrderId, (BookOrder, OrderType)>, reference: int,
                        buys: seq<BookOrder>, sells: array<BookOrder>, ghost begun: Tables) returns (settled: bool)
      requires Progress(begun, instrument, buys, 0, sells[..], [], Contents())
      requires reference == begun.markets[instrument].reference
      requires Remembers(originals, begun.orders, Matching.OpenIds(begun.orders, instrument))
      modifies this, sells
      ensures Matching.MatchTick(begun, instrument) == if settled then Contents() else begun
    {
      ghost var done: seq<Match> := [];
      for k := 0 to |buys|
        invariant Progress(begun, instrument, buys, k, sells[..], done, Contents())
      {
        var matches;
        settled, matches := MatchOneBuy(instrument, originals, reference, buys, k, sells, begun, done);
        if !settled {
          return;
        }
        done := done + matches;
      }
      Completes(begun, instrument, buys, sells[..], done, Contents());
      return true;
    }

    // The loaded book, its buys sorted, ready for the matching loop.
    method PrepareBook(instrument: Symbol)
      returns (buys: seq<BookOrder>, sells: array<BookOrder>, originals: map<OrderId, (BookOrder, OrderType)>)
      requires SequencesDistinct(orders) && instrument in markets
      ensures fresh(sells)
      ensures Progress(Contents(), instrument, buys, 0, sells[..], [], Contents())
      ensures Remembers(originals, orders, Matching.OpenIds(orders, instrument))
    {
      var loaded, offers;
      loaded, offers, originals := LoadBook(instrument);
      buys := SortByPriceTime(loaded);
      sells := Vector(offers);
      PassOverFetched(orders, instrument, loaded, offers);
      Begins(Contents(), instrument, buys, offers);
    }

    /** tick_instrument: load, match buy by buy, settle every match; all or nothing. */
    method TickInstrument(instrument: Symbol)
      requires SequencesDistinct(orders)
      modifies this
      ensures Contents() == Matching.MatchTick(old(Contents()), instrument)
    {
      if instrument !in markets {
        return;
      }
      var begun := Contents();
      var buys, sells, originals := PrepareBook(instrument);
      var settled := MatchAllBuys(instrument, originals, markets[instrument].reference, buys, sells, begun);
      if !settled {
        Rollback(begun);
      }
    }

    // --- Simulator -----------------------------------------------------------------------------

    // Replaces one market's simulator liquidity around a new reference price.
    method QuoteMarket(q: Simulator.Quoted, liquidity: int)
      requires q.price > 0 && liquidity > 0
      modifies this
      ensures Contents() == Simulator.SimMarket(old(Contents()), q, liquidity)
    {
      markets := markets[q.symbol := MarketState(q.price, true)];
      orders := map id | id in orders ::
        if orders[id].system && orders[id].instrument == q.symbol && IsOpen(orders[id])
        then orders[id].(status := Cancelled) else orders[id];
      ghost var begun := old(Contents());
      ghost var withdrawn := Contents();
      var levels := [(Buy, 998, liquidity), (Buy, 995, 5 * liquidity), (Sell, 1002, liquidity), (Sell, 1005, 5 * liquidity)];
      for k := 0 to |levels|
        invariant Contents() == AfterLevels(withdrawn, q, levels[..k])
      {
        var (side, permille, notional) := levels[k];
        var quantity := Simulator.LevelQuantity(notional, q.price);
        orders := orders[SystemOrder(nextSequence) := Order(MARKET_MAKER, q.symbol, side, Limit, quantity, quantity,
                                                            Simulator.LevelPrice(q.price, permille), Open, nextSequence, true)];
        nextSequence := nextSequence + 1;
        assert levels[..k + 1][..k] == levels[..k];
      }
      assert levels[..|levels|] == levels;
      FourLevels(begun, withdrawn, q, liquidity);
    }

    /** The simulator's tick: every market in turn. */
    method SimulatorTick(quotes: seq<Simulator.Quoted>, liquidity: int)
      requires liquidity > 0 && Simulator.AllPositive(quotes)
      modifies this
      ensures Contents() == Simulator.SimTick(old(Contents()), quotes, liquidity)
    {
      ghost var begun := Contents();
      for k := 0 to |quotes|
        invariant Simulator.AllPositive(quotes[..k])
        invariant Contents() == Simulator.SimTick(begun, quotes[..k], liquidity)
      {
        assert quotes[k] in quotes;
        QuoteMarket(quotes[k], liquidity);
        SimTickAppend(begun, quotes, k, liquidity);
      }
      assert quotes[..|quotes|] == quotes;
    }

    // --- Commands ------------------------------------------------------------------------------

    /** apply: check the account identity, run the action, and turn Unavailable into the
        error that stops the consumer. */
    method ApplyCommand(c: Commands.Command) returns (verdict: Commands.Verdict)
      requires SequencesDistinct(orders)
      modifies this
      ensures (Contents(), verdict) == Commands.Apply(old(Contents()), c)
    {
      if c.trader !in traders || traders[c.trader] != c.user {
        return Commands.Done;
      }
      match c.action {
        case PlaceOrder(order) =>
          var reply := PlaceOrder(c.user, order);
          return Commands.VerdictOf(reply);
        case CancelOrder(id) =>
          var reply := CancelOrders(c.user, Some(id));
          return Commands.VerdictOf(reply);
      }
    }

    // --- Operator scripts ----------------------------------------------------------------------

    // DELETE FROM fills, once for the makers and once for the takers.
    method DeleteFills(gone: set<OrderId>)
      modifies this`fills
      ensures fills == set f | f in old(fills) && f.maker !in gone && f.taker !in gone :: f
    {
      fills := set f | f in fills && f.maker !in gone;
      fills := set f | f in fills && f.taker !in gone;
    }

    method DeleteOrders(gone: set<OrderId>)
      modifies this`orders
      ensures orders == map id | id in old(orders) && id !in gone :: old(orders)[id]
    {
      orders := map id | id in orders && id !in gone :: orders[id];
    }

    method DeleteAccounts(bots: set<UserId>)
      modifies this`accounts
      ensures accounts == map key | key in old(accounts) && key.0 !in bots :: old(accounts)[key]
    {
      accounts := map key | key in accounts && key.0 !in bots :: accounts[key];
    }

    // The user ids of the script's temporary table, and the orders it lists from them.
    method SelectBots() returns (bots: set<UserId>)
      ensures bots == Members.BotIds(Contents())
    {
      bots := {};
      var left := traders.Keys;
      while left != {}
        invariant left <= traders.Keys
        invariant bots == set k | k in traders && k !in left :: traders[k]
        decreases |left|
      {
        var k :| k in left;
        bots := bots + {traders[k]};
        left := left - {k};
      }
    }

    // EXISTS over the fills joined with their two orders.
    method FindsHumanCounterparty(bots: set<UserId>) returns (found: bool)
      requires bots == Members.BotIds(Contents())
      ensures found <==> Members.ResetRefused(Contents())
    {
      var left := fills;
      while left != {}
        invariant left <= fills
        invariant forall f :: f in fills && f !in left ==> !Members.HumanCounterparty(Contents(), f)
        decreases |left|
      {
        var f :| f in left;
        var makerBot := f.maker in orders && orders[f.maker].user in bots;
        var takerBot := f.taker in orders && orders[f.taker].user in bots;
        var makerHuman := f.maker in orders && orders[f.maker].user !in bots && !orders[f.maker].system;
        var takerHuman := f.taker in orders && orders[f.taker].user !in bots && !orders[f.taker].system;
        if (makerBot || takerBot) && (makerHuman || takerHuman) {
          assert Members.HumanCounterparty(Contents(), f);
          return true;
        }
        left := left - {f};
      }
      return false;
    }

    // The new users and their accounts, the traders' new ids, and the old accounts gone.
    method ReplaceAccounts(bots: set<UserId>, drawn: map<string, UserId>)
      requires drawn.Keys == traders.Keys
      modifies this`users, this`accounts, this`traders
      ensures users == old(users) + Members.NewIds(drawn) && traders == drawn
      ensures var funded := old(accounts) + Members.FundedRows(Members.NewIds(drawn), true);
              accounts == map key | key in funded && key.0 !in bots :: funded[key]
    {
      users := users + Members.NewIds(drawn);
      accounts := accounts + Members.FundedRows(Members.NewIds(drawn), true);
      traders := map k | k in traders :: drawn[k];
      DeleteAccounts(bots);
    }

    /** The bot reset, statement by statement; false when it raises its exception. */
    method ResetBots(drawn: map<string, UserId>) returns (reset: bool)
      requires drawn.Keys == traders.Keys
      modifies this
      ensures Contents() == Members.ResetBots(old(Contents()), drawn)
      ensures reset <==> !Members.ResetRefused(old(Contents()))
    {
      var bots := SelectBots();
      var gone := Members.BotOrders(Contents());
      var refused := FindsHumanCounterparty(bots);
      if refused {
        return false;
      }
      DeleteFills(gone);
      DeleteOrders(gone);
      ReplaceAccounts(bots, drawn);
      return true;
    }

    // One group of the migration's aggregate over open orders.
    method ExpectedReserve(key: AccountKey) returns (amount: int)
      ensures amount == OpenReserves(orders, key)
    {
      amount := 0;
      var left := orders.Keys;
      while left != {}
        invariant left <= orders.Keys
        invariant amount + Sum(left, ReserveOf(orders, key)) == OpenReserves(orders, key)
        decreases |left|
      {
        var id :| id in left;
        SumRemove(left, ReserveOf(orders, key), id);
        amount := amount + OpenReserve(orders[id], key);
        left := left - {id};
      }
    }

    // One row of the migration's UPDATE.
    method ReconcileRow(key: AccountKey)
      requires key in accounts
      modifies this`accounts
      ensures accounts == old(accounts)[key := Trading.ReconciledRow(old(Contents()), key)]
    {
      var expected := ExpectedReserve(key);
      var row := accounts[key];
      if key.0 != MARKET_MAKER && row.reserved != expected {
        accounts := accounts[key := row.(available := row.available + row.reserved - expected, reserved := expected)];
      }
    }

    /** Migration 0007: rewrites each account whose reserved column differs from what its
        open orders require. */
    method Reconcile()
      modifies this`accounts
      ensures Contents() == Trading.Reconcile(old(Contents()))
    {
      ghost var begun := Contents();
      var left := accounts.Keys;
      while left != {}
        invariant Reconciling(begun, Contents(), left)
        decreases |left|
      {
        var key :| key in left;
        ghost var before := Contents();
        ReconcileRow(key);
        ReconcileNext(begun, before, Contents(), left, key);
        left := left - {key};
      }
      AllReconciled(begun, Contents());
    }
  }

  // The accounts not yet rewritten, and those that are.
  ghost predicate Reconciling(begun: Tables, now: Tables, left: set<AccountKey>) {
    && left <= now.accounts.Keys == begun.accounts.Keys && now == begun.(accounts := now.accounts)
    && forall key :: key in now.accounts ==>
         now.accounts[key] == if key in left then begun.accounts[key] else Trading.ReconciledRow(begun, key)
  }

  lemma ReconcileNext(begun: Tables, mid: Tables, now: Tables, left: set<AccountKey>, key: AccountKey)
    requires Reconciling(begun, mid, left) && key in left
    requires now == mid.(accounts := mid.accounts[key := Trading.ReconciledRow(mid, key)])
    ensures Reconciling(begun, now, left - {key})
  {
  }

  lemma AllReconciled(begun: Tables, now: Tables)
    requires Reconciling(begun, now, {})
    ensures now == Trading.Reconcile(begun)
  {
  }

  // The rows of the first few levels inserted, in order.
  function AfterLevels(t: Tables, q: Simulator.Quoted, levels: seq<(Side, int, int)>): Tables
    requires q.price > 0 && forall level :: level in levels ==> level.1 > 0 && level.2 > 0
  {
    if levels == [] then t else
      var last := levels[|levels| - 1];
      Simulator.InsertLevel(AfterLevels(t, q, levels[..|levels| - 1]), q, last.0, last.1, last.2)
  }

  lemma LevelAppended(t: Tables, q: Simulator.Quoted, levels: seq<(Side, int, int)>, last: (Side, int, int))
    requires q.price > 0 && last.1 > 0 && last.2 > 0 && forall level :: level in levels ==> level.1 > 0 && level.2 > 0
    ensures AfterLevels(t, q, levels + [last]) == Simulator.InsertLevel(AfterLevels(t, q, levels), q, last.0, last.1, last.2)
  {
    assert (levels + [last])[..|levels|] == levels;
  }

  lemma FourLevels(t: Tables, withdrawn: Tables, q: Simulator.Quoted, liquidity: int)
    requires q.price > 0 && liquidity > 0
    requires withdrawn == Simulator.WithdrawSystem(t.(markets := t.markets[q.symbol := MarketState(q.price, true)]), q.symbol)
    ensures AfterLevels(withdrawn, q, [(Buy, 998, liquidity), (Buy, 995, 5 * liquidity), (Sell, 1002, liquidity), (Sell, 1005, 5 * liquidity)])
         == Simulator.SimMarket(t, q, liquidity)
  {
    var a, b, c, d := (Buy, 998, liquidity), (Buy, 995, 5 * liquidity), (Sell, 1002, liquidity), (Sell, 1005, 5 * liquidity);
    LevelAppended(withdrawn, q, [], a);
    LevelAppended(withdrawn, q, [a], b);
    LevelAppended(withdrawn, q, [a, b], c);
    LevelAppended(withdrawn, q, [a, b, c], d);
    assert [] + [a] == [a] && [a] + [b] == [a, b] && [a, b] + [c] == [a, b, c] && [a, b, c] + [d] == [a, b, c, d];
  }

  lemma {:induction false} SimTickAppend(t: Tables, quotes: seq<Simulator.Quoted>, k: nat, liquidity: int)
    requires liquidity > 0 && Simulator.AllPositive(quotes) && k < |quotes|
    ensures Simulator.AllPositive(quotes[..k]) && Simulator.AllPositive(quotes[..k + 1]) && quotes[k].price > 0
    ensures Simulator.SimTick(t, quotes[..k + 1], liquidity)
         == Simulator.SimMarket(Simulator.SimTick(t, quotes[..k], liquidity), quotes[k], liquidity)
    decreases k
  {
    assert quotes[k] in quotes && quotes[0] in quotes;
    if k == 0 {
      assert quotes[..1][1..] == [];
    } else {
      assert quotes[..k + 1][1..] == quotes[1..][..k] && quotes[..k][1..] == quotes[1..][..k - 1];
      assert quotes[1..][k - 1] == quotes[k];
      SimTickAppend(Simulator.SimMarket(t, quotes[0], liquidity), quotes[1..], k - 1, liquidity);
    }
  }

  lemma NothingPosted(accounts: map<AccountKey, Account>)
    ensures Adjust(accounts, []) == accounts
  {
  }

  lemma TwoPosted(start: map<AccountKey, Account>, p: Posting, q: Posting)
    ensures Adjust(Adjust(start, [p]), [q]) == Adjust(start, [p, q])
  {
    AdjustTwice(start, [p], [q]);
    assert [p] + [q] == [p, q];
  }
}

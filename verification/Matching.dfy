/** One matching transaction for an instrument: load the book, match it in memory,
    settle every fill on the stored rows (crates/worker/src/main.rs, tick_instrument). */
module Matching {
  import opened Domain
  import opened Clearing
  import opened State
  import opened Settlement

  // --- Loading the book ----------------------------------------------------------------

  function OpenIds(orders: map<OrderId, Order>, instrument: Symbol): set<OrderId> {
    set id | id in orders && orders[id].instrument == instrument && IsOpen(orders[id])
  }

  function Entry(id: OrderId, o: Order): BookOrder {
    BookOrder(id, o.side, o.limitPrice, o.remaining, o.sequence)
  }

  // The rows of one side, in the order they were fetched.
  function SideOf(orders: map<OrderId, Order>, rows: seq<OrderId>, side: Side): (book: seq<BookOrder>)
    requires forall id :: id in rows ==> id in orders
    ensures OneSided(book, side)
    ensures forall x :: x in book <==> x.id in rows && x == Entry(x.id, orders[x.id]) && x.side == side
  {
    if rows == [] then [] else
      var rest := SideOf(orders, rows[1..], side);
      assert rows == [rows[0]] + rows[1..];
      if orders[rows[0]].side == side then [Entry(rows[0], orders[rows[0]])] + rest else rest
  }

  ghost function Book(orders: map<OrderId, Order>, instrument: Symbol, side: Side): (book: seq<BookOrder>)
    ensures OneSided(book, side) && Sorted(book)
    ensures forall x :: x in book <==> x.id in OpenIds(orders, instrument) && x == Entry(x.id, orders[x.id]) && x.side == side
  {
    var fetched := SideOf(orders, BySequence(orders, OpenIds(orders, instrument)), side);
    SortSorts(fetched, side);
    SortByPriceTime(fetched)
  }

  ghost function Pass(orders: map<OrderId, Order>, instrument: Symbol): BookResult {
    MatchBook(Book(orders, instrument, Buy), Book(orders, instrument, Sell))
  }

  // --- Which orders the matches name -----------------------------------------------------

  ghost predicate Names(m: Match, buys: seq<BookOrder>, sells: seq<BookOrder>) {
    && (exists b :: b in buys && b.id == m.taker)
    && (exists s :: s in sells && s.id == m.maker)
  }

  ghost predicate SameIds(a: seq<BookOrder>, b: seq<BookOrder>) {
    |a| == |b| && forall k :: 0 <= k < |b| ==> a[k].id == b[k].id
  }

  lemma {:induction false} TakerNames(taker: BookOrder, makers: seq<BookOrder>)
    ensures var r := MatchSorted(taker, makers);
            && r.taker.id == taker.id && SameIds(r.makers, makers)
            && (forall m :: m in r.fills ==> m.taker == taker.id && exists s :: s in makers && s.id == m.maker)
    decreases |makers|
  {
    if makers != [] {
      var q := Min(taker.remaining, makers[0].remaining);
      TakerNames(taker, makers[1..]);
      TakerNames(Reduced(taker, q), makers[1..]);
      assert makers == [makers[0]] + makers[1..];
      assert makers[0] in makers;
    }
  }

  lemma {:induction false} BookNames(buys: seq<BookOrder>, sells: seq<BookOrder>)
    ensures forall m :: m in MatchBook(buys, sells).fills ==> Names(m, buys, sells)
    decreases |buys|
  {
    if buys != [] {
      var sorted := SortByPriceTime(sells);
      var taken := MatchSorted(buys[0], sorted);
      SameElements(sorted, sells);
      TakerNames(buys[0], sorted);
      BookNames(buys[1..], taken.makers);
      forall m | m in MatchBook(buys, sells).fills ensures Names(m, buys, sells) {
        if m in taken.fills {
          assert buys[0] in buys;
          var s :| s in sorted && s.id == m.maker;
          assert s in sells;
        } else {
          assert Names(m, buys[1..], taken.makers);
          var b :| b in buys[1..] && b.id == m.taker;
          assert b in buys;
          var s :| s in taken.makers && s.id == m.maker;
          var k :| 0 <= k < |sorted| && taken.makers[k] == s;
          assert sorted[k] in sells;
        }
      }
    }
  }

  lemma PassNames(orders: map<OrderId, Order>, instrument: Symbol)
    ensures forall m :: m in Pass(orders, instrument).fills ==>
              && m.taker in OpenIds(orders, instrument) && orders[m.taker].side == Buy
              && m.maker in OpenIds(orders, instrument) && orders[m.maker].side == Sell
  {
    var buys, sells := Book(orders, instrument, Buy), Book(orders, instrument, Sell);
    BookNames(buys, sells);
    forall m | m in Pass(orders, instrument).fills
      ensures m.taker in OpenIds(orders, instrument) && orders[m.taker].side == Buy
      ensures m.maker in OpenIds(orders, instrument) && orders[m.maker].side == Sell
    {
      assert Names(m, buys, sells);
    }
  }

  // --- The transaction -------------------------------------------------------------------

  predicate KnownMatches(orders: map<OrderId, Order>, ms: seq<Match>) {
    forall m :: m in ms ==> m.maker in orders && m.taker in orders
  }

  function PriceMatch(orders: map<OrderId, Order>, reference: int, instrument: Symbol, m: Match): Fill
    requires m.maker in orders && m.taker in orders
  {
    var buy, sell := orders[m.taker], orders[m.maker];
    Fill(m.maker, m.taker, instrument,
         ExecutionPrice(Entry(m.taker, buy), Entry(m.maker, sell), buy.orderType, sell.orderType, reference), m.quantity)
  }

  function Priced(orders: map<OrderId, Order>, reference: int, instrument: Symbol, ms: seq<Match>): (fills: seq<Fill>)
    requires KnownMatches(orders, ms)
    ensures Known(orders, fills) && |fills| == |ms|
  {
    if ms == [] then [] else
      assert ms[0] in ms;
      [PriceMatch(orders, reference, instrument, ms[0])] + Priced(orders, reference, instrument, ms[1..])
  }

  ghost function TickFills(t: Tables, instrument: Symbol): (fills: seq<Fill>)
    requires instrument in t.markets
    ensures Known(t.orders, fills)
  {
    PassNames(t.orders, instrument);
    Priced(t.orders, t.markets[instrument].reference, instrument, Pass(t.orders, instrument).fills)
  }

  predicate AllPayable(fills: seq<Fill>) {
    forall f :: f in fills ==> f.price > 0
  }

  // The matches whose fills will have a positive price.
  predicate Payable(orders: map<OrderId, Order>, reference: int, instrument: Symbol, ms: seq<Match>) {
    KnownMatches(orders, ms) && forall m :: m in ms ==> PriceMatch(orders, reference, instrument, m).price > 0
  }

  lemma {:induction false} PayableIff(orders: map<OrderId, Order>, reference: int, instrument: Symbol, ms: seq<Match>)
    requires KnownMatches(orders, ms)
    ensures Payable(orders, reference, instrument, ms) <==> AllPayable(Priced(orders, reference, instrument, ms))
  {
    if ms != [] {
      assert ms == [ms[0]] + ms[1..];
      PayableIff(orders, reference, instrument, ms[1..]);
    }
  }

  lemma PayableEvolves(before: map<OrderId, Order>, after: map<OrderId, Order>, reference: int, instrument: Symbol, ms: seq<Match>)
    requires Evolves(before, after) && Payable(before, reference, instrument, ms)
    ensures Payable(after, reference, instrument, ms)
  {
  }

  lemma PayableParts(orders: map<OrderId, Order>, reference: int, instrument: Symbol, a: seq<Match>, b: seq<Match>)
    requires Payable(orders, reference, instrument, a + b)
    ensures Payable(orders, reference, instrument, a) && Payable(orders, reference, instrument, b)
  {
    assert forall m :: m in a || m in b ==> m in a + b;
  }

  /** The whole transaction. A price that is not positive aborts it. */
  ghost function MatchTick(t: Tables, instrument: Symbol): (r: Tables)
    ensures r.orders.Keys == t.orders.Keys && r.markets == t.markets
  {
    if instrument !in t.markets then t else
      var fills := TickFills(t, instrument);
      if AllPayable(fills) then ApplyFills(t, fills) else t
  }

  // --- The in-memory book and the stored rows ----------------------------------------------

  // Every entry of the book shows the stored row as it is now.
  ghost predicate Mirrors(orders: map<OrderId, Order>, instrument: Symbol, book: seq<BookOrder>, side: Side) {
    && (forall k :: 0 <= k < |book| ==>
          && book[k].id in orders && book[k] == Entry(book[k].id, orders[book[k].id])
          && book[k].side == side && orders[book[k].id].instrument == instrument
          && book[k].remaining >= 0 && (book[k].remaining > 0 ==> IsOpen(orders[book[k].id]))
          && PriceOk(orders[book[k].id]))
    && (forall i, j :: 0 <= i < j < |book| ==> book[i].id != book[j].id)
  }

  predicate InBook(book: seq<BookOrder>, id: OrderId) {
    exists k :: 0 <= k < |book| && book[k].id == id
  }

  lemma PricesEvolve(before: map<OrderId, Order>, after: map<OrderId, Order>, reference: int, instrument: Symbol, ms: seq<Match>)
    requires Evolves(before, after) && KnownMatches(before, ms)
    ensures KnownMatches(after, ms)
    ensures Priced(after, reference, instrument, ms) == Priced(before, reference, instrument, ms)
  {
    if ms != [] {
      assert ms[0] in ms;
      PricesEvolve(before, after, reference, instrument, ms[1..]);
    }
  }

  /** The state of a taker's walk: what the memory holds mirrors what the tables hold. */
  ghost predicate Mirrored(t: Tables, instrument: Symbol, taker: BookOrder, makers: seq<BookOrder>) {
    && FillsOk(t) && PairsOnce(t.fills)
    && Mirrors(t.orders, instrument, [taker], Buy) && Mirrors(t.orders, instrument, makers, Sell)
  }

  // Settling these fills turns one mirrored walk into another, each fill being tradable
  // when its turn comes, and touches no order outside the walk.
  ghost predicate Refines(t: Tables, fills: seq<Fill>, instrument: Symbol, buys: seq<BookOrder>, sells: seq<BookOrder>,
                          buys': seq<BookOrder>, sells': seq<BookOrder>)
    requires Known(t.orders, fills)
  {
    var r := ApplyFills(t, fills);
    && AllTradable(t, fills) && FillsOk(r) && PairsOnce(r.fills)
    && Mirrors(r.orders, instrument, buys', Buy) && Mirrors(r.orders, instrument, sells', Sell)
    && (forall id :: id in t.orders && !InBook(buys, id) && !InBook(sells, id) ==> r.orders[id] == t.orders[id])
  }

  // The taker trades with the first maker, and settling that leaves the rest mirrored.
  ghost predicate HeadTrades(t: Tables, reference: int, instrument: Symbol, taker: BookOrder, makers: seq<BookOrder>, f: Fill) {
    && makers != [] && makers[0].remaining > 0 && taker.remaining > 0 && Crosses(taker, makers[0])
    && makers[0].id in t.orders && taker.id in t.orders
    && var q := Min(taker.remaining, makers[0].remaining);
       && f == PriceMatch(t.orders, reference, instrument, Match(makers[0].id, taker.id, makers[0].price, q))
       && Tradable(t.orders, f) && Took(t.orders, ApplyFill(t, f).orders, f)
       && Mirrored(ApplyFill(t, f), instrument, Reduced(taker, q), makers[1..])
       && Mirrors(ApplyFill(t, f).orders, instrument, [Reduced(makers[0], q)], Sell)
  }

  lemma HeadTrade(t: Tables, reference: int, instrument: Symbol, taker: BookOrder, makers: seq<BookOrder>) returns (f: Fill)
    requires Mirrored(t, instrument, taker, makers) && reference > 0
    requires makers != [] && makers[0].remaining > 0 && taker.remaining > 0 && Crosses(taker, makers[0])
    requires Payable(t.orders, reference, instrument,
                     [Match(makers[0].id, taker.id, makers[0].price, Min(taker.remaining, makers[0].remaining))])
    ensures HeadTrades(t, reference, instrument, taker, makers, f)
  {
    assert taker == [taker][0];
    var q := Min(taker.remaining, makers[0].remaining);
    var m := Match(makers[0].id, taker.id, makers[0].price, q);
    assert m in [m];
    f := PriceMatch(t.orders, reference, instrument, m);
    ExecutionPriceWithinLimits(taker, makers[0], t.orders[taker.id].orderType, t.orders[makers[0].id].orderType, reference);
    assert Tradable(t.orders, f);
    ApplyFillTakes(t, f);
    var r := ApplyFill(t, f);
    SettledFillsOk(t, r, f);
    assert Mirrors(r.orders, instrument, [Reduced(taker, q)], Buy);
    assert Mirrors(r.orders, instrument, [Reduced(makers[0], q)], Sell);
    OthersMirror(t.orders, r.orders, instrument, makers, f);
  }

  // A trade with the first maker leaves the entries of the others as they were.
  lemma OthersMirror(before: map<OrderId, Order>, after: map<OrderId, Order>, instrument: Symbol, makers: seq<BookOrder>, f: Fill)
    requires Mirrors(before, instrument, makers, Sell) && makers != [] && Took(before, after, f) && f.maker == makers[0].id
    ensures Mirrors(after, instrument, makers[1..], Sell)
  {
    MirrorsTail(before, instrument, makers, Sell);
    forall k | 0 <= k < |makers[1..]| ensures after[makers[1..][k].id] == before[makers[1..][k].id] {
      assert makers[1..][k] == makers[k + 1];
      assert makers[0].id != makers[k + 1].id && before[makers[k + 1].id].side == Sell;
    }
    MirrorsStay(before, after, instrument, makers[1..], Sell);
  }

  lemma MirrorsHead(orders: map<OrderId, Order>, instrument: Symbol, head: BookOrder, tail: seq<BookOrder>, side: Side)
    requires Mirrors(orders, instrument, [head], side) && Mirrors(orders, instrument, tail, side) && !InBook(tail, head.id)
    ensures Mirrors(orders, instrument, [head] + tail, side)
  {
    var all := [head] + tail;
    assert [head][0] == head;
    forall i, j | 0 <= i < j < |all| ensures all[i].id != all[j].id {
      if i == 0 { assert tail[j - 1].id != head.id; }
    }
  }

  lemma MirrorsStay(before: map<OrderId, Order>, after: map<OrderId, Order>, instrument: Symbol, book: seq<BookOrder>, side: Side)
    requires Mirrors(before, instrument, book, side)
    requires forall k :: 0 <= k < |book| ==> book[k].id in after && after[book[k].id] == before[book[k].id]
    ensures Mirrors(after, instrument, book, side)
  {
  }

  lemma SameIdsLack(a: seq<BookOrder>, b: seq<BookOrder>, id: OrderId)
    requires SameIds(a, b) && !InBook(b, id)
    ensures !InBook(a, id)
  {
    forall k | 0 <= k < |a| ensures a[k].id != id { assert b[k].id != id; }
  }

  lemma TailLacks(book: seq<BookOrder>, id: OrderId)
    requires book != [] && !InBook(book, id)
    ensures !InBook(book[1..], id) && book[0].id != id
  {
    forall k | 0 <= k < |book[1..]| ensures book[1..][k].id != id { assert book[k + 1].id != id; }
  }

  lemma HeadIsElsewhere(orders: map<OrderId, Order>, instrument: Symbol, taker: BookOrder, makers: seq<BookOrder>, after: seq<BookOrder>)
    requires makers != [] && Mirrors(orders, instrument, [taker], Buy) && Mirrors(orders, instrument, makers, Sell)
    requires SameIds(after, makers[1..])
    ensures !InBook(makers[1..], makers[0].id) && !InBook(after, makers[0].id) && makers[0].id != taker.id
  {
    MirrorsTail(orders, instrument, makers, Sell);
    SameIdsLack(after, makers[1..], makers[0].id);
    assert orders[[taker][0].id].side == Buy;
  }

  // The rows outside a walk, when its head is settled first and the rest after it.
  lemma FrameWithHead(before: map<OrderId, Order>, mid: map<OrderId, Order>, end: map<OrderId, Order>,
                      taker: BookOrder, smaller: BookOrder, makers: seq<BookOrder>)
    requires makers != [] && smaller.id == taker.id && mid.Keys == before.Keys == end.Keys
    requires forall id :: id in before && id != taker.id && id != makers[0].id ==> mid[id] == before[id]
    requires forall id :: id in mid && !InBook([smaller], id) && !InBook(makers[1..], id) ==> end[id] == mid[id]
    ensures forall id :: id in before && !InBook([taker], id) && !InBook(makers, id) ==> end[id] == before[id]
  {
    forall id | id in before && !InBook([taker], id) && !InBook(makers, id) ensures end[id] == before[id] {
      assert [taker][0].id != id;
      TailLacks(makers, id);
      assert !InBook([smaller], id);
    }
  }

  // Puts the head maker back in front of a walk over the others.
  lemma RefinesWithHead(t: Tables, mid: Tables, fills: seq<Fill>, rest: seq<Fill>, instrument: Symbol,
                        taker: BookOrder, smaller: BookOrder, makers: seq<BookOrder>, head: BookOrder, r: TakerResult)
    requires makers != [] && head.id == makers[0].id && smaller.id == taker.id
    requires Mirrors(t.orders, instrument, [taker], Buy) && Mirrors(t.orders, instrument, makers, Sell)
    requires Known(t.orders, fills) && Known(mid.orders, rest) && mid.orders.Keys == t.orders.Keys
    requires ApplyFills(t, fills) == ApplyFills(mid, rest) && (AllTradable(mid, rest) ==> AllTradable(t, fills))
    requires Mirrors(mid.orders, instrument, [head], Sell)
    requires forall id :: id in t.orders && id != taker.id && id != head.id ==> mid.orders[id] == t.orders[id]
    requires SameIds(r.makers, makers[1..])
    requires Refines(mid, rest, instrument, [smaller], makers[1..], [r.taker], r.makers)
    ensures Refines(t, fills, instrument, [taker], makers, [r.taker], [head] + r.makers)
  {
    var end := ApplyFills(mid, rest);
    HeadIsElsewhere(t.orders, instrument, taker, makers, r.makers);
    assert [head][0] == head && !InBook([smaller], head.id);
    assert end.orders[head.id] == mid.orders[head.id];
    MirrorsStay(mid.orders, end.orders, instrument, [head], Sell);
    MirrorsHead(end.orders, instrument, head, r.makers, Sell);
    FrameWithHead(t.orders, mid.orders, end.orders, taker, smaller, makers);
  }

  /** Applying one buy's fills row by row keeps every stored remaining equal to the
      in-memory one, and every release is computed from the remainder of that moment. */
  lemma {:induction false} TakerRefines(t: Tables, reference: int, instrument: Symbol, taker: BookOrder, makers: seq<BookOrder>)
    requires Mirrored(t, instrument, taker, makers) && reference > 0
    requires Payable(t.orders, reference, instrument, MatchSorted(taker, makers).fills)
    ensures var r := MatchSorted(taker, makers);
            && KnownMatches(t.orders, r.fills)
            && Refines(t, Priced(t.orders, reference, instrument, r.fills), instrument, [taker], makers, [r.taker], r.makers)
    decreases |makers|
  {
    if makers == [] {
    } else if makers[0].remaining <= 0 {
      MirrorsTail(t.orders, instrument, makers, Sell);
      TakerRefines(t, reference, instrument, taker, makers[1..]);
      TakerNames(taker, makers[1..]);
      var rest := MatchSorted(taker, makers[1..]);
      var fills := Priced(t.orders, reference, instrument, rest.fills);
      RefinesWithHead(t, t, fills, fills, instrument, taker, taker, makers, makers[0], rest);
    } else if taker.remaining > 0 && Crosses(taker, makers[0]) {
      PayableHead(t.orders, reference, instrument, taker, makers);
      var f := HeadTrade(t, reference, instrument, taker, makers);
      TakerRefinesTrade(t, reference, instrument, taker, makers, f);
    }
  }

  lemma MirrorsTail(orders: map<OrderId, Order>, instrument: Symbol, book: seq<BookOrder>, side: Side)
    requires Mirrors(orders, instrument, book, side) && book != []
    ensures Mirrors(orders, instrument, book[1..], side) && Mirrors(orders, instrument, [book[0]], side)
    ensures !InBook(book[1..], book[0].id)
  {
  }

  lemma PayableHead(orders: map<OrderId, Order>, reference: int, instrument: Symbol, taker: BookOrder, makers: seq<BookOrder>)
    requires makers != [] && makers[0].remaining > 0 && taker.remaining > 0 && Crosses(taker, makers[0])
    requires Payable(orders, reference, instrument, MatchSorted(taker, makers).fills)
    ensures var q := Min(taker.remaining, makers[0].remaining);
            && Payable(orders, reference, instrument, [Match(makers[0].id, taker.id, makers[0].price, q)])
            && Payable(orders, reference, instrument, MatchSorted(Reduced(taker, q), makers[1..]).fills)
  {
    var q := Min(taker.remaining, makers[0].remaining);
    PayableParts(orders, reference, instrument, [Match(makers[0].id, taker.id, makers[0].price, q)],
                 MatchSorted(Reduced(taker, q), makers[1..]).fills);
  }

  lemma TakerRefinesTrade(t: Tables, reference: int, instrument: Symbol, taker: BookOrder, makers: seq<BookOrder>, f: Fill)
    requires Mirrored(t, instrument, taker, makers) && reference > 0
    requires HeadTrades(t, reference, instrument, taker, makers, f)
    requires Payable(t.orders, reference, instrument, MatchSorted(taker, makers).fills)
    ensures var r := MatchSorted(taker, makers);
            Refines(t, Priced(t.orders, reference, instrument, r.fills), instrument, [taker], makers, [r.taker], r.makers)
    decreases |makers|, 0
  {
    var q := Min(taker.remaining, makers[0].remaining);
    var smaller, mid := Reduced(taker, q), ApplyFill(t, f);
    TookEvolves(t.orders, mid.orders, f);
    PayableHead(t.orders, reference, instrument, taker, makers);
    PayableEvolves(t.orders, mid.orders, reference, instrument, MatchSorted(smaller, makers[1..]).fills);
    TakerRefines(mid, reference, instrument, smaller, makers[1..]);
    TakerNames(smaller, makers[1..]);
    var rest := MatchSorted(smaller, makers[1..]);
    PricesEvolve(t.orders, mid.orders, reference, instrument, rest.fills);
    var later := Priced(mid.orders, reference, instrument, rest.fills);
    var r := MatchSorted(taker, makers);
    var m := Match(makers[0].id, taker.id, makers[0].price, q);
    assert r.fills == [m] + rest.fills && r.fills[1..] == rest.fills;
    var fills := Priced(t.orders, reference, instrument, r.fills);
    assert fills == [f] + later && fills[1..] == later;
    assert ApplyFills(t, fills) == ApplyFills(mid, later);
    RefinesWithHead(t, mid, fills, later, instrument, taker, smaller, makers, Reduced(makers[0], q), rest);
  }

  lemma {:induction false} PricedConcat(orders: map<OrderId, Order>, reference: int, instrument: Symbol, a: seq<Match>, b: seq<Match>)
    requires KnownMatches(orders, a) && KnownMatches(orders, b)
    ensures KnownMatches(orders, a + b)
    ensures Priced(orders, reference, instrument, a + b)
         == Priced(orders, reference, instrument, a) + Priced(orders, reference, instrument, b)
  {
    assert KnownMatches(orders, a + b);
    if a == [] {
      assert a + b == b;
    } else {
      assert (a + b)[1..] == a[1..] + b && (a + b)[0] == a[0];
      PricedConcat(orders, reference, instrument, a[1..], b);
    }
  }

  lemma OppositeSidesApart(orders: map<OrderId, Order>, instrument: Symbol, buys: seq<BookOrder>, sells: seq<BookOrder>)
    requires Mirrors(orders, instrument, buys, Buy) && Mirrors(orders, instrument, sells, Sell)
    ensures forall k :: 0 <= k < |buys| ==> !InBook(sells, buys[k].id)
    ensures forall k :: 0 <= k < |sells| ==> !InBook(buys, sells[k].id)
  {
    forall k | 0 <= k < |buys| ensures !InBook(sells, buys[k].id) { assert orders[buys[k].id].side == Buy; }
    forall k | 0 <= k < |sells| ensures !InBook(buys, sells[k].id) { assert orders[sells[k].id].side == Sell; }
  }

  // The buys still waiting are untouched by the first buy's fills.
  lemma WaitingBuysStay(t: Tables, mid: Tables, instrument: Symbol, buys: seq<BookOrder>, sells: seq<BookOrder>)
    requires buys != [] && Mirrors(t.orders, instrument, buys, Buy) && Mirrors(t.orders, instrument, sells, Sell)
    requires mid.orders.Keys == t.orders.Keys
    requires forall id :: id in t.orders && !InBook([buys[0]], id) && !InBook(sells, id) ==> mid.orders[id] == t.orders[id]
    ensures Mirrors(mid.orders, instrument, buys[1..], Buy)
  {
    OppositeSidesApart(t.orders, instrument, buys, sells);
    MirrorsTail(t.orders, instrument, buys, Buy);
    forall k | 0 <= k < |buys[1..]| ensures mid.orders[buys[1..][k].id] == t.orders[buys[1..][k].id] {
      assert buys[1..][k] == buys[k + 1] && buys[0].id != buys[k + 1].id;
      assert [buys[0]][0] == buys[0];
      assert !InBook(sells, buys[k + 1].id);
    }
    MirrorsStay(t.orders, mid.orders, instrument, buys[1..], Buy);
  }

  lemma FrameWithFirstBuy(before: map<OrderId, Order>, mid: map<OrderId, Order>, end: map<OrderId, Order>,
                          buys: seq<BookOrder>, sells: seq<BookOrder>, makers: seq<BookOrder>)
    requires buys != [] && mid.Keys == before.Keys == end.Keys
    requires SameIds(makers, sells)
    requires forall id :: id in before && !InBook([buys[0]], id) && !InBook(sells, id) ==> mid[id] == before[id]
    requires forall id :: id in before && !InBook(buys[1..], id) && !InBook(makers, id) ==> end[id] == mid[id]
    ensures forall id :: id in before && !InBook(buys, id) && !InBook(sells, id) ==> end[id] == before[id]
  {
    forall id | id in before && !InBook(buys, id) && !InBook(sells, id) ensures end[id] == before[id] {
      TailLacks(buys, id);
      SameIdsLack(makers, sells, id);
    }
  }

  // Puts the first buy back in front of the buys after it.
  lemma MirrorsWithFirstBuy(t: Tables, mid: Tables, end: Tables, instrument: Symbol, buys: seq<BookOrder>, sells: seq<BookOrder>,
                            taken: TakerResult, rest: BookResult)
    requires buys != [] && Mirrors(t.orders, instrument, buys, Buy) && Mirrors(t.orders, instrument, sells, Sell)
    requires taken.taker.id == buys[0].id && SameIds(taken.makers, sells) && SameIds(rest.buys, buys[1..])
    requires mid.orders.Keys == t.orders.Keys == end.orders.Keys
    requires Mirrors(mid.orders, instrument, [taken.taker], Buy) && Mirrors(end.orders, instrument, rest.buys, Buy)
    requires forall id :: id in t.orders && !InBook(buys[1..], id) && !InBook(taken.makers, id) ==> end.orders[id] == mid.orders[id]
    ensures Mirrors(end.orders, instrument, [taken.taker] + rest.buys, Buy)
  {
    var first := buys[0].id;
    MirrorsTail(t.orders, instrument, buys, Buy);
    OppositeSidesApart(t.orders, instrument, buys, sells);
    SameIdsLack(taken.makers, sells, first);
    SameIdsLack(rest.buys, buys[1..], first);
    assert [taken.taker][0] == taken.taker;
    assert end.orders[first] == mid.orders[first];
    MirrorsStay(mid.orders, end.orders, instrument, [taken.taker], Buy);
    MirrorsHead(end.orders, instrument, taken.taker, rest.buys, Buy);
  }

  lemma {:induction false} BookKeepsIds(buys: seq<BookOrder>, sells: seq<BookOrder>)
    ensures SameIds(MatchBook(buys, sells).buys, buys)
    decreases |buys|
  {
    if buys != [] {
      var sorted := SortByPriceTime(sells);
      TakerNames(buys[0], sorted);
      BookKeepsIds(buys[1..], MatchSorted(buys[0], sorted).makers);
    }
  }

  lemma MirroredMakers(orders: map<OrderId, Order>, instrument: Symbol, book: seq<BookOrder>, side: Side)
    requires Mirrors(orders, instrument, book, side) && Sorted(book)
    ensures Makers(book, side)
  {
  }

  /** Over a whole pass the stored rows follow the in-memory book: every fill is tradable
      when its turn comes, and at the end both hold the same remainders. */
  lemma {:induction false} BookRefines(t: Tables, reference: int, instrument: Symbol, buys: seq<BookOrder>, sells: seq<BookOrder>)
    requires FillsOk(t) && PairsOnce(t.fills) && reference > 0 && Sorted(sells)
    requires Mirrors(t.orders, instrument, buys, Buy) && Mirrors(t.orders, instrument, sells, Sell)
    requires Payable(t.orders, reference, instrument, MatchBook(buys, sells).fills)
    ensures var r := MatchBook(buys, sells);
            && KnownMatches(t.orders, r.fills)
            && Refines(t, Priced(t.orders, reference, instrument, r.fills), instrument, buys, sells, r.buys, r.sells)
    decreases |buys|
  {
    if buys != [] {
      MirrorsTail(t.orders, instrument, buys, Buy);
      MirroredMakers(t.orders, instrument, sells, Sell);
      SortIsIdempotent(sells);
      var taken := MatchSorted(buys[0], sells);
      PayableFirst(t.orders, reference, instrument, buys, sells, taken);
      TakerRefines(t, reference, instrument, buys[0], sells);
      var first := Priced(t.orders, reference, instrument, taken.fills);
      var mid := ApplyFills(t, first);
      ApplyFillsContinues(t, first);
      WaitingBuysStay(t, mid, instrument, buys, sells);
      TakerPriority(buys[0], sells) by { assert [buys[0]][0].remaining >= 0; }
      ShrunkKeepsOrder(taken.makers, sells, Sell);
      PayableEvolves(t.orders, mid.orders, reference, instrument, MatchBook(buys[1..], taken.makers).fills);
      BookRefines(mid, reference, instrument, buys[1..], taken.makers);
      BookRefinesCompose(t, reference, instrument, buys, sells, taken, first, mid);
    }
  }

  lemma PayableFirst(orders: map<OrderId, Order>, reference: int, instrument: Symbol, buys: seq<BookOrder>, sells: seq<BookOrder>,
                     taken: TakerResult)
    requires buys != [] && SortByPriceTime(sells) == sells && taken == MatchSorted(buys[0], sells)
    requires Payable(orders, reference, instrument, MatchBook(buys, sells).fills)
    ensures Payable(orders, reference, instrument, taken.fills)
    ensures Payable(orders, reference, instrument, MatchBook(buys[1..], taken.makers).fills)
  {
    var rest := MatchBook(buys[1..], taken.makers);
    MatchBookHead(buys, sells, taken, rest);
    PayableParts(orders, reference, instrument, taken.fills, rest.fills);
  }

  lemma BookRefinesCompose(t: Tables, reference: int, instrument: Symbol, buys: seq<BookOrder>, sells: seq<BookOrder>,
                           taken: TakerResult, first: seq<Fill>, mid: Tables)
    requires buys != [] && Mirrors(t.orders, instrument, buys, Buy) && Mirrors(t.orders, instrument, sells, Sell)
    requires SortByPriceTime(sells) == sells && taken == MatchSorted(buys[0], sells)
    requires KnownMatches(t.orders, taken.fills) && first == Priced(t.orders, reference, instrument, taken.fills)
    requires mid == ApplyFills(t, first) && Evolves(t.orders, mid.orders)
    requires Refines(t, first, instrument, [buys[0]], sells, [taken.taker], taken.makers)
    requires var rest := MatchBook(buys[1..], taken.makers);
             && KnownMatches(mid.orders, rest.fills)
             && Refines(mid, Priced(mid.orders, reference, instrument, rest.fills), instrument, buys[1..], taken.makers, rest.buys, rest.sells)
    ensures var r := MatchBook(buys, sells);
            && KnownMatches(t.orders, r.fills)
            && Refines(t, Priced(t.orders, reference, instrument, r.fills), instrument, buys, sells, r.buys, r.sells)
  {
    var rest := MatchBook(buys[1..], taken.makers);
    MatchBookHead(buys, sells, taken, rest);
    TakerNames(buys[0], sells);
    BookKeepsIds(buys[1..], taken.makers);
    PricesEvolve(t.orders, mid.orders, reference, instrument, rest.fills);
    PricedConcat(t.orders, reference, instrument, taken.fills, rest.fills);
    var second := Priced(t.orders, reference, instrument, rest.fills);
    ApplyFillsConcat(t, first, second);
    var end := ApplyFills(mid, second);
    MirrorsWithFirstBuy(t, mid, end, instrument, buys, sells, taken, rest);
    FrameWithFirstBuy(t.orders, mid.orders, end.orders, buys, sells, taken.makers);
  }
}

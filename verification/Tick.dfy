/** What a matching transaction achieves, over every state the exchange can be in. */
module Tick {
  import opened Domain
  import opened Clearing
  import opened Pairing
  import opened State
  import opened Settlement
  import opened Matching

  lemma BookDistinct(t: Tables, instrument: Symbol, side: Side)
    requires OrdersOk(t) && SequencesDistinct(t.orders)
    ensures DistinctSequences(Book(t.orders, instrument, side))
  {
    var rows := BySequence(t.orders, OpenIds(t.orders, instrument));
    BySequenceDistinct(t.orders, OpenIds(t.orders, instrument));
    var fetched := SideOf(t.orders, rows, side);
    SideOfDistinct(t.orders, rows, side);
    DistinctIsOrderFree(fetched, SortByPriceTime(fetched));
  }

  lemma {:induction false} SideOfDistinct(orders: map<OrderId, Order>, rows: seq<OrderId>, side: Side)
    requires (forall id :: id in rows ==> id in orders) && NoDuplicates(rows) && SequencesDistinct(orders)
    ensures DistinctSequences(SideOf(orders, rows, side))
  {
    if rows != [] {
      assert rows == [rows[0]] + rows[1..];
      SideOfDistinct(orders, rows[1..], side);
      var rest := SideOf(orders, rows[1..], side);
      assert rows[0] !in rows[1..];
      forall k | 0 <= k < |rest| ensures rest[k].sequence != orders[rows[0]].sequence {
        assert rest[k] in rest;
      }
    }
  }

  /** The loaded book shows the stored rows. */
  lemma BookMirrors(t: Tables, instrument: Symbol, side: Side)
    requires OrdersOk(t) && SequencesDistinct(t.orders)
    ensures Mirrors(t.orders, instrument, Book(t.orders, instrument, side), side)
    ensures Makers(Book(t.orders, instrument, side), side)
  {
    var book := Book(t.orders, instrument, side);
    BookDistinct(t, instrument, side);
    forall k | 0 <= k < |book|
      ensures book[k].id in OpenIds(t.orders, instrument) && book[k] == Entry(book[k].id, t.orders[book[k].id])
      ensures book[k].remaining >= 0 && PriceOk(t.orders[book[k].id])
    {
      assert book[k] in book;
      assert Lifecycle(t.orders[book[k].id]);
    }
    assert Mirrors(t.orders, instrument, book, side);
  }

  // The matching transaction will not abort.
  ghost predicate Commits(t: Tables, instrument: Symbol)
    requires instrument in t.markets
  {
    AllPayable(TickFills(t, instrument))
  }

  /** Unless a computed price is zero the transaction settles every computed fill, each of
      them tradable when its turn comes, and leaves the stored book as the in-memory one. */
  lemma TickSettlesEveryFill(t: Tables, instrument: Symbol)
    requires Invariant(t) && instrument in t.markets && Commits(t, instrument)
    ensures var fills := TickFills(t, instrument);
            var buys, sells := Book(t.orders, instrument, Buy), Book(t.orders, instrument, Sell);
            var r := MatchBook(buys, sells);
            && MatchTick(t, instrument) == ApplyFills(t, fills) && AllTradable(t, fills)
            && |fills| == |r.fills|
            && Refines(t, fills, instrument, buys, sells, r.buys, r.sells)
  {
    var buys, sells := Book(t.orders, instrument, Buy), Book(t.orders, instrument, Sell);
    BookMirrors(t, instrument, Buy);
    BookMirrors(t, instrument, Sell);
    PassNames(t.orders, instrument);
    PayableIff(t.orders, t.markets[instrument].reference, instrument, Pass(t.orders, instrument).fills);
    BookRefines(t, t.markets[instrument].reference, instrument, buys, sells);
  }

  /** A matching transaction keeps the whole invariant and every account's distance from
      the reservation equation. */
  lemma TickKeepsInvariant(t: Tables, instrument: Symbol)
    requires Invariant(t)
    ensures Invariant(MatchTick(t, instrument))
    ensures MatchTick(t, instrument).accounts.Keys == t.accounts.Keys
    ensures forall key :: key in t.accounts ==> Residual(MatchTick(t, instrument), key) == Residual(t, key)
  {
    if instrument in t.markets && Commits(t, instrument) {
      TickSettlesEveryFill(t, instrument);
      var fills := TickFills(t, instrument);
      ApplyFillsKeepsInvariant(t, fills);
      ApplyFillsContinues(t, fills);
      forall key | key in t.accounts ensures Residual(MatchTick(t, instrument), key) == Residual(t, key) {
        ApplyFillsKeepsResidual(t, fills, key);
      }
    }
  }

  // --- No crossing pair is left ----------------------------------------------------------

  // A stored order of the instrument that can still trade.
  predicate Resting(orders: map<OrderId, Order>, instrument: Symbol, id: OrderId) {
    id in orders && orders[id].instrument == instrument && orders[id].status in {Open, PartiallyFilled}
  }

  /** A book holds exactly the resting orders of its side, each as it is stored. */
  lemma BookIff(orders: map<OrderId, Order>, instrument: Symbol, side: Side, x: BookOrder)
    ensures x in Book(orders, instrument, side) <==>
              && Resting(orders, instrument, x.id) && orders[x.id].side == side
              && x == BookOrder(x.id, side, orders[x.id].limitPrice, orders[x.id].remaining, orders[x.id].sequence)
  {
  }

  // Two stored orders of one instrument that the matcher would still bring together.
  predicate Meet(orders: map<OrderId, Order>, instrument: Symbol, buy: OrderId, sell: OrderId) {
    && Resting(orders, instrument, buy) && Resting(orders, instrument, sell)
    && orders[buy].side == Buy && orders[sell].side == Sell
    && orders[buy].remaining > 0 && orders[sell].remaining > 0
    && orders[buy].limitPrice >= orders[sell].limitPrice
  }

  lemma BookHas(orders: map<OrderId, Order>, instrument: Symbol, id: OrderId) returns (k: nat)
    requires id in OpenIds(orders, instrument)
    ensures k < |Book(orders, instrument, orders[id].side)|
    ensures Book(orders, instrument, orders[id].side)[k] == Entry(id, orders[id])
  {
    var book := Book(orders, instrument, orders[id].side);
    assert Entry(id, orders[id]) in book;
    k :| 0 <= k < |book| && book[k] == Entry(id, orders[id]);
  }

  // Where an order stands once the pass is settled.
  lemma StandsAfter(orders: map<OrderId, Order>, ended: map<OrderId, Order>, instrument: Symbol, id: OrderId,
                    after: seq<BookOrder>) returns (k: nat)
    requires id in orders && id in ended && SameTerms(ended[id], orders[id])
    requires id in OpenIds(ended, instrument) && (IsOpen(ended[id]) ==> IsOpen(orders[id]))
    requires SameIds(after, Book(orders, instrument, orders[id].side))
    requires Mirrors(ended, instrument, after, orders[id].side)
    ensures k < |after| && after[k] == Entry(id, ended[id])
  {
    k := BookHas(orders, instrument, id);
    assert after[k].id == id;
  }

  // The pass, settled, in the terms of the two books.
  lemma TickLeaves(t: Tables, instrument: Symbol, r: BookResult)
    requires Invariant(t) && instrument in t.markets && Commits(t, instrument) && r == Pass(t.orders, instrument)
    ensures var ended := MatchTick(t, instrument).orders;
            && Evolves(t.orders, ended)
            && (forall id :: id in t.orders && IsOpen(ended[id]) ==> IsOpen(t.orders[id]))
            && SameIds(r.buys, Book(t.orders, instrument, Buy)) && SameIds(r.sells, Book(t.orders, instrument, Sell))
            && Mirrors(ended, instrument, r.buys, Buy) && Mirrors(ended, instrument, r.sells, Sell)
            && Uncrossed(r.buys, r.sells)
  {
    var buys, sells := Book(t.orders, instrument, Buy), Book(t.orders, instrument, Sell);
    TickSettlesEveryFill(t, instrument);
    ApplyFillsContinues(t, TickFills(t, instrument));
    ApplyFillsOpensNothing(t, TickFills(t, instrument));
    BookMirrors(t, instrument, Buy);
    BookMirrors(t, instrument, Sell);
    BookClears(buys, sells);
  }

  lemma TakeOpensNothing(t: Tables, f: Fill)
    requires Tradable(t.orders, f)
    ensures forall id :: id in t.orders && IsOpen(ApplyFill(t, f).orders[id]) ==> IsOpen(t.orders[id])
  {
    ClampNeverApplies(t.orders, f);
    TookEvolves(t.orders, TakeFromBoth(t.orders, f), f);
  }

  lemma {:induction false} ApplyFillsOpensNothing(t: Tables, fills: seq<Fill>)
    requires Known(t.orders, fills) && AllTradable(t, fills)
    ensures forall id :: id in t.orders && IsOpen(ApplyFills(t, fills).orders[id]) ==> IsOpen(t.orders[id])
    decreases |fills|
  {
    if fills != [] {
      TakeOpensNothing(t, fills[0]);
      ApplyFillsOpensNothing(ApplyFill(t, fills[0]), fills[1..]);
    }
  }

  /** After a matching transaction that commits no open buy meets an open sell of the instrument. */
  lemma TickUncrosses(t: Tables, instrument: Symbol)
    requires Invariant(t) && instrument in t.markets && Commits(t, instrument)
    ensures forall buy, sell :: !Meet(MatchTick(t, instrument).orders, instrument, buy, sell)
  {
    var ended := MatchTick(t, instrument).orders;
    var r := Pass(t.orders, instrument);
    TickLeaves(t, instrument, r);
    forall buy, sell | Meet(ended, instrument, buy, sell) ensures false {
      var i := StandsAfter(t.orders, ended, instrument, buy, r.buys);
      var j := StandsAfter(t.orders, ended, instrument, sell, r.sells);
      assert false;
    }
  }

  /** With nothing to bring together, a matching transaction changes nothing; so running
      it again right after itself computes no fill and changes nothing. */
  lemma QuietTick(t: Tables, instrument: Symbol)
    requires Invariant(t) && instrument in t.markets
    requires forall buy, sell :: !Meet(t.orders, instrument, buy, sell)
    ensures TickFills(t, instrument) == [] && MatchTick(t, instrument) == t
  {
    var buys, sells := Book(t.orders, instrument, Buy), Book(t.orders, instrument, Sell);
    BookReady(t, instrument);
    forall i, j | 0 <= i < |buys| && 0 <= j < |sells| && buys[i].remaining > 0 && sells[j].remaining > 0
      ensures !Crosses(buys[i], sells[j])
    {
      NoMeetingPair(t.orders, instrument, i, j);
    }
    UncrossedTradesNothing(buys, sells);
    EmptyPass(t, instrument);
  }

  lemma NoMeetingPair(orders: map<OrderId, Order>, instrument: Symbol, i: nat, j: nat)
    requires i < |Book(orders, instrument, Buy)| && j < |Book(orders, instrument, Sell)|
    requires Book(orders, instrument, Buy)[i].remaining > 0 && Book(orders, instrument, Sell)[j].remaining > 0
    requires !Meet(orders, instrument, Book(orders, instrument, Buy)[i].id, Book(orders, instrument, Sell)[j].id)
    ensures !Crosses(Book(orders, instrument, Buy)[i], Book(orders, instrument, Sell)[j])
  {
    EntryKnown(orders, instrument, Buy, i);
    EntryKnown(orders, instrument, Sell, j);
  }

  lemma EmptyPass(t: Tables, instrument: Symbol)
    requires instrument in t.markets && Pass(t.orders, instrument).fills == []
    ensures TickFills(t, instrument) == [] && MatchTick(t, instrument) == t
  {
  }

  lemma TickIsIdempotent(t: Tables, instrument: Symbol)
    requires Invariant(t) && instrument in t.markets
    ensures Commits(t, instrument) ==> TickFills(MatchTick(t, instrument), instrument) == []
    ensures MatchTick(MatchTick(t, instrument), instrument) == MatchTick(t, instrument)
  {
    if Commits(t, instrument) {
      TickKeepsInvariant(t, instrument);
      TickUncrosses(t, instrument);
      QuietTick(MatchTick(t, instrument), instrument);
    }
  }

  // --- Who trades with whom ------------------------------------------------------------------

  ghost predicate LotPriced(t: Tables, instrument: Symbol, i: nat, j: nat, f: Fill)
    requires instrument in t.markets
  {
    var buys, sells := Book(t.orders, instrument, Buy), Book(t.orders, instrument, Sell);
    && Overlap(buys, i, sells, j)
    && buys[i].id in t.orders && sells[j].id in t.orders
    && f == PriceMatch(t.orders, t.markets[instrument].reference, instrument, Lot(buys, i, sells, j))
  }

  lemma {:induction false} PricedIff(orders: map<OrderId, Order>, reference: int, instrument: Symbol, ms: seq<Match>, f: Fill)
    requires KnownMatches(orders, ms)
    ensures f in Priced(orders, reference, instrument, ms) <==>
              exists m :: m in ms && f == PriceMatch(orders, reference, instrument, m)
  {
    if ms != [] {
      assert ms == [ms[0]] + ms[1..];
      PricedIff(orders, reference, instrument, ms[1..], f);
    }
  }

  lemma BookReady(t: Tables, instrument: Symbol)
    requires OrdersOk(t) && SequencesDistinct(t.orders)
    ensures Ready(Book(t.orders, instrument, Buy), Book(t.orders, instrument, Sell))
  {
    BookMirrors(t, instrument, Buy);
    BookMirrors(t, instrument, Sell);
  }

  lemma EntryKnown(orders: map<OrderId, Order>, instrument: Symbol, side: Side, k: nat)
    requires k < |Book(orders, instrument, side)|
    ensures var x := Book(orders, instrument, side)[k];
            x.id in OpenIds(orders, instrument) && x == Entry(x.id, orders[x.id]) && x.side == side
  {
    var book := Book(orders, instrument, side);
    assert book[k] in book;
  }

  /** A tick's fills are exactly the overlaps of the two queues: it determines who trades
      with whom, how much, and at which price. */
  lemma TickFillsAreOverlaps(t: Tables, instrument: Symbol, f: Fill)
    requires OrdersOk(t) && SequencesDistinct(t.orders) && instrument in t.markets
    ensures f in TickFills(t, instrument) <==> exists i: nat, j: nat :: LotPriced(t, instrument, i, j, f)
  {
    var buys, sells := Book(t.orders, instrument, Buy), Book(t.orders, instrument, Sell);
    var ms, reference := Pass(t.orders, instrument).fills, t.markets[instrument].reference;
    BookReady(t, instrument);
    PassNames(t.orders, instrument);
    PricedIff(t.orders, reference, instrument, ms, f);
    if f in TickFills(t, instrument) {
      var m :| m in ms && f == PriceMatch(t.orders, reference, instrument, m);
      PassTradesOverlaps(buys, sells, m);
      var i: nat, j: nat :| Overlap(buys, i, sells, j) && m == Lot(buys, i, sells, j);
      assert LotPriced(t, instrument, i, j, f);
    }
    if i: nat, j: nat :| LotPriced(t, instrument, i, j, f) {
      PassTradesOverlaps(buys, sells, Lot(buys, i, sells, j));
    }
  }

  /** A price as the stored rows fix it, in whole: between limit orders the older one's
      limit, against a market order the other's limit, and between two market orders the
      reference, or the buy's cap where that is lower. */
  predicate FairPrice(buy: Order, sell: Order, reference: int, price: int) {
    && (buy.orderType == Limit && sell.orderType == Limit ==>
          price == if buy.sequence < sell.sequence then buy.limitPrice else sell.limitPrice)
    && (buy.orderType == Limit && sell.orderType == Market ==> price == buy.limitPrice)
    && (buy.orderType == Market && sell.orderType == Limit ==> price == sell.limitPrice)
    && (buy.orderType == Market && sell.orderType == Market ==>
          && price <= reference && price <= buy.limitPrice && (price == reference || price == buy.limitPrice)
          && (buy.limitPrice >= reference ==> price == reference))
  }

  lemma MatchPriceIsFair(orders: map<OrderId, Order>, reference: int, instrument: Symbol, m: Match)
    requires m.taker in orders && m.maker in orders
    ensures FairPrice(orders[m.taker], orders[m.maker], reference, PriceMatch(orders, reference, instrument, m).price)
  {
  }

  /** Every fill of a tick joins a stored buy and a stored sell of the instrument at the
      price that the two rows and the market's reference fix. */
  lemma TickPricesAreFair(t: Tables, instrument: Symbol, f: Fill)
    requires instrument in t.markets && f in TickFills(t, instrument)
    ensures f.taker in t.orders && f.maker in t.orders && f.instrument == instrument
    ensures t.orders[f.taker].side == Buy && t.orders[f.maker].side == Sell
    ensures t.orders[f.taker].instrument == instrument == t.orders[f.maker].instrument
    ensures FairPrice(t.orders[f.taker], t.orders[f.maker], t.markets[instrument].reference, f.price)
  {
    var ms, reference := Pass(t.orders, instrument).fills, t.markets[instrument].reference;
    PassNames(t.orders, instrument);
    PricedIff(t.orders, reference, instrument, ms, f);
    var m :| m in ms && f == PriceMatch(t.orders, reference, instrument, m);
    MatchPriceIsFair(t.orders, reference, instrument, m);
  }

  // --- When a tick aborts ---------------------------------------------------------------------

  // Every open order that states a price states a positive one.
  predicate PricesStated(orders: map<OrderId, Order>, instrument: Symbol) {
    forall id :: id in OpenIds(orders, instrument) ==>
      orders[id].limitPrice > 0 || (orders[id].side == Sell && orders[id].orderType == Market)
  }

  /** While no open order of the instrument asks or bids zero, the transaction commits. */
  lemma PricesStatedCommits(t: Tables, instrument: Symbol)
    requires Invariant(t) && instrument in t.markets && PricesStated(t.orders, instrument)
    ensures Commits(t, instrument)
  {
    var ms := Pass(t.orders, instrument).fills;
    PassNames(t.orders, instrument);
    PricesStatedPayable(t.orders, t.markets[instrument].reference, instrument, ms);
    PayableIff(t.orders, t.markets[instrument].reference, instrument, ms);
  }

  lemma PricesStatedPayable(orders: map<OrderId, Order>, reference: int, instrument: Symbol, ms: seq<Match>)
    requires reference > 0 && PricesStated(orders, instrument)
    requires forall m :: m in ms ==>
      && m.taker in OpenIds(orders, instrument) && orders[m.taker].side == Buy
      && m.maker in OpenIds(orders, instrument) && orders[m.maker].side == Sell
    ensures Payable(orders, reference, instrument, ms)
  {
    forall m | m in ms ensures PriceMatch(orders, reference, instrument, m).price > 0 {
      assert orders[m.taker].limitPrice > 0;
      assert orders[m.maker].limitPrice > 0 || orders[m.maker].orderType == Market;
    }
  }

  /** A price of zero: the bid is at zero, or a limit ask at zero meets a market buy or a
      younger limit buy. */
  predicate Free(buy: Order, sell: Order) {
    || buy.limitPrice == 0
    || (sell.orderType == Limit && sell.limitPrice == 0 && (buy.orderType == Market || sell.sequence < buy.sequence))
  }

  lemma FreeIff(orders: map<OrderId, Order>, reference: int, instrument: Symbol, m: Match)
    requires m.taker in orders && m.maker in orders && m.taker != m.maker && SequencesDistinct(orders) && reference > 0
    requires orders[m.taker].side == Buy && orders[m.maker].side == Sell && PriceOk(orders[m.taker]) && PriceOk(orders[m.maker])
    requires orders[m.taker].limitPrice >= orders[m.maker].limitPrice
    ensures PriceMatch(orders, reference, instrument, m).price <= 0 <==> Free(orders[m.taker], orders[m.maker])
  {
    assert orders[m.taker].sequence != orders[m.maker].sequence;
  }

  // Two places of the books overlap and their orders would trade for nothing.
  ghost predicate FreeOverlap(t: Tables, instrument: Symbol, i: nat, j: nat) {
    var buys, sells := Book(t.orders, instrument, Buy), Book(t.orders, instrument, Sell);
    && Overlap(buys, i, sells, j) && buys[i].id in t.orders && sells[j].id in t.orders
    && Free(t.orders[buys[i].id], t.orders[sells[j].id])
  }

  lemma FreeLot(t: Tables, instrument: Symbol, i: nat, j: nat, f: Fill)
    requires Invariant(t) && instrument in t.markets && LotPriced(t, instrument, i, j, f)
    ensures f.price <= 0 <==> FreeOverlap(t, instrument, i, j)
  {
    var buys, sells := Book(t.orders, instrument, Buy), Book(t.orders, instrument, Sell);
    EntryKnown(t.orders, instrument, Buy, i);
    EntryKnown(t.orders, instrument, Sell, j);
    FreeIff(t.orders, t.markets[instrument].reference, instrument, Lot(buys, i, sells, j));
  }

  /** The transaction aborts if and only if two orders whose places overlap would trade for
      nothing. Both are read off the books before any matching. */
  lemma AbortsIff(t: Tables, instrument: Symbol)
    requires Invariant(t) && instrument in t.markets
    ensures !Commits(t, instrument) <==> exists i: nat, j: nat :: FreeOverlap(t, instrument, i, j)
  {
    var buys, sells := Book(t.orders, instrument, Buy), Book(t.orders, instrument, Sell);
    if !Commits(t, instrument) {
      var f :| f in TickFills(t, instrument) && f.price <= 0;
      TickFillsAreOverlaps(t, instrument, f);
      var i: nat, j: nat :| LotPriced(t, instrument, i, j, f);
      FreeLot(t, instrument, i, j, f);
    }
    if i: nat, j: nat :| FreeOverlap(t, instrument, i, j) {
      var f := PriceMatch(t.orders, t.markets[instrument].reference, instrument, Lot(buys, i, sells, j));
      assert LotPriced(t, instrument, i, j, f);
      FreeLot(t, instrument, i, j, f);
      TickFillsAreOverlaps(t, instrument, f);
    }
  }

  // No open limit order offers for nothing; market sells do.
  predicate AsksStated(orders: map<OrderId, Order>, instrument: Symbol) {
    forall id :: id in OpenIds(orders, instrument) && orders[id].side == Sell && orders[id].orderType == Limit ==>
      orders[id].limitPrice > 0
  }

  lemma BidsNonNegative(t: Tables, instrument: Symbol)
    requires OrdersOk(t)
    ensures PricesNonNegative(Book(t.orders, instrument, Buy))
  {
    var buys := Book(t.orders, instrument, Buy);
    forall k | 0 <= k < |buys| ensures buys[k].price >= 0 {
      assert buys[k] in buys;
      assert PriceOk(t.orders[buys[k].id]);
    }
  }

  // A match that would be free was taken by a bid at zero.
  lemma FreeMatchIsFreeBid(orders: map<OrderId, Order>, reference: int, instrument: Symbol, m: Match)
    requires m.taker in orders && m.maker in orders && reference > 0 && orders[m.taker].limitPrice >= 0
    requires orders[m.maker].orderType == Limit ==> orders[m.maker].limitPrice > 0
    requires PriceMatch(orders, reference, instrument, m).price <= 0
    ensures orders[m.taker].limitPrice == 0
  {
  }

  lemma FreeMatchExists(t: Tables, instrument: Symbol) returns (m: Match)
    requires instrument in t.markets && !Commits(t, instrument)
    ensures m in Pass(t.orders, instrument).fills
    ensures m.taker in OpenIds(t.orders, instrument) && t.orders[m.taker].side == Buy
    ensures m.maker in OpenIds(t.orders, instrument) && t.orders[m.maker].side == Sell
    ensures PriceMatch(t.orders, t.markets[instrument].reference, instrument, m).price <= 0
  {
    var ms := Pass(t.orders, instrument).fills;
    PassNames(t.orders, instrument);
    PayableIff(t.orders, t.markets[instrument].reference, instrument, ms);
    m :| m in ms && PriceMatch(t.orders, t.markets[instrument].reference, instrument, m).price <= 0;
  }

  lemma AbortShowsFreeBid(t: Tables, instrument: Symbol, r: BookResult)
    requires OrdersOk(t) && instrument in t.markets && t.markets[instrument].reference > 0
    requires AsksStated(t.orders, instrument) && !Commits(t, instrument)
    requires r == Pass(t.orders, instrument)
    ensures FreeBidTrades(r.buys, Book(t.orders, instrument, Buy))
  {
    var m := FreeMatchExists(t, instrument);
    assert PriceOk(t.orders[m.taker]);
    FreeMatchIsFreeBid(t.orders, t.markets[instrument].reference, instrument, m);
    FillsReduceTakers(Book(t.orders, instrument, Buy), Book(t.orders, instrument, Sell), m);
    FreeTakerFell(t.orders, instrument, r, m.taker);
  }

  lemma FreeTakerFell(orders: map<OrderId, Order>, instrument: Symbol, r: BookResult, id: OrderId)
    requires id in orders && orders[id].limitPrice == 0 && TakerFell(r.buys, Book(orders, instrument, Buy), id)
    ensures FreeBidTrades(r.buys, Book(orders, instrument, Buy))
  {
    var buys := Book(orders, instrument, Buy);
    var k :| 0 <= k < |buys| && buys[k].id == id && r.buys[k].remaining < buys[k].remaining;
    assert buys[k] in buys;
  }

  lemma {:induction false} TradedWithinLimits(t: Tables, fills: seq<Fill>)
    requires Known(t.orders, fills) && AllTradable(t, fills)
    ensures forall f :: f in fills ==> 0 < f.price <= t.orders[f.taker].limitPrice && t.orders[f.maker].side == Sell
    decreases |fills|
  {
    if fills != [] {
      var mid := ApplyFill(t, fills[0]);
      ApplyFillContinues(t, fills[0]);
      TradedWithinLimits(mid, fills[1..]);
    }
  }

  lemma {:induction false} UnnamedRowStays(t: Tables, fills: seq<Fill>, id: OrderId)
    requires Known(t.orders, fills) && id in t.orders && forall f :: f in fills ==> f.maker != id && f.taker != id
    ensures ApplyFills(t, fills).orders[id] == t.orders[id]
    decreases |fills|
  {
    if fills != [] {
      assert fills[0] in fills;
      UnnamedRowStays(ApplyFill(t, fills[0]), fills[1..], id);
    }
  }

  lemma CommitSparesFreeBid(t: Tables, instrument: Symbol, id: OrderId)
    requires Invariant(t) && instrument in t.markets && Commits(t, instrument)
    requires id in t.orders && t.orders[id].side == Buy && t.orders[id].limitPrice == 0
    ensures MatchTick(t, instrument).orders[id] == t.orders[id]
  {
    TickSettlesEveryFill(t, instrument);
    TradedWithinLimits(t, TickFills(t, instrument));
    UnnamedRowStays(t, TickFills(t, instrument), id);
  }

  lemma CommitShowsNoFreeBid(t: Tables, instrument: Symbol, r: BookResult)
    requires Invariant(t) && instrument in t.markets && Commits(t, instrument) && r == Pass(t.orders, instrument)
    ensures !FreeBidTrades(r.buys, Book(t.orders, instrument, Buy))
  {
    var buys := Book(t.orders, instrument, Buy);
    TickLeaves(t, instrument, r);
    forall k | 0 <= k < |buys| && buys[k].price == 0 ensures r.buys[k].remaining == buys[k].remaining {
      assert buys[k] in buys && r.buys[k].id == buys[k].id;
      CommitSparesFreeBid(t, instrument, buys[k].id);
    }
  }

  /** While no limit order offers for nothing, the transaction aborts exactly when a bid at
      zero is open and more is offered for nothing than all positive bids together take. */
  lemma FreeBidsDecide(t: Tables, instrument: Symbol)
    requires Invariant(t) && instrument in t.markets && AsksStated(t.orders, instrument)
    ensures var buys, sells := Book(t.orders, instrument, Buy), Book(t.orders, instrument, Sell);
            !Commits(t, instrument) <==> FreeBidWaits(buys) && Supply(sells, 0) > Demand(buys, 1)
  {
    var r := Pass(t.orders, instrument);
    BookMirrors(t, instrument, Buy);
    BookMirrors(t, instrument, Sell);
    BidsNonNegative(t, instrument);
    FreeBidTradesIff(Book(t.orders, instrument, Buy), Book(t.orders, instrument, Sell));
    if Commits(t, instrument) {
      CommitShowsNoFreeBid(t, instrument, r);
    } else {
      AbortShowsFreeBid(t, instrument, r);
    }
  }

  /** When every open bid is at zero and one of them meets a sell, the transaction aborts,
      and so does every later one until the book changes. */
  lemma FreeBidsAbort(t: Tables, instrument: Symbol, buy: OrderId, sell: OrderId)
    requires Invariant(t) && instrument in t.markets && Meet(t.orders, instrument, buy, sell)
    requires forall id :: id in OpenIds(t.orders, instrument) && t.orders[id].side == Buy ==> t.orders[id].limitPrice == 0
    ensures !Commits(t, instrument) && MatchTick(t, instrument) == t
  {
    if Commits(t, instrument) {
      CommittedFillIsPaid(t, instrument, buy, sell);
      assert false;
    }
  }

  lemma CommittedFillIsPaid(t: Tables, instrument: Symbol, buy: OrderId, sell: OrderId)
    requires Invariant(t) && instrument in t.markets && Commits(t, instrument) && Meet(t.orders, instrument, buy, sell)
    ensures exists id :: id in OpenIds(t.orders, instrument) && t.orders[id].side == Buy && t.orders[id].limitPrice > 0
  {
    var fills := TickFills(t, instrument);
    SomethingTrades(t, instrument, buy, sell);
    TickSettlesEveryFill(t, instrument);
    TickFillsInstrument(t, instrument);
    FirstFillIsPaid(t, instrument, fills);
  }

  lemma FirstFillIsPaid(t: Tables, instrument: Symbol, fills: seq<Fill>)
    requires fills != [] && Known(t.orders, fills) && AllTradable(t, fills)
    requires forall f :: f in fills ==> t.orders[f.taker].instrument == instrument
    ensures exists id :: id in OpenIds(t.orders, instrument) && t.orders[id].side == Buy && t.orders[id].limitPrice > 0
  {
    assert Tradable(t.orders, fills[0]);
    assert fills[0] in fills && fills[0].taker in OpenIds(t.orders, instrument);
  }

  lemma SomethingTrades(t: Tables, instrument: Symbol, buy: OrderId, sell: OrderId)
    requires Invariant(t) && instrument in t.markets && Commits(t, instrument) && Meet(t.orders, instrument, buy, sell)
    ensures TickFills(t, instrument) != []
  {
    TickUncrosses(t, instrument);
    if TickFills(t, instrument) == [] {
      NoFillsChangeNothing(t, instrument);
      assert false;
    }
  }

  lemma NoFillsChangeNothing(t: Tables, instrument: Symbol)
    requires instrument in t.markets && TickFills(t, instrument) == []
    ensures MatchTick(t, instrument) == t
  {
  }

  // --- Volume ------------------------------------------------------------------------------

  function TradedQuantity(fills: seq<Fill>): int {
    if fills == [] then 0 else fills[0].quantity + TradedQuantity(fills[1..])
  }

  lemma {:induction false} PricingKeepsQuantity(orders: map<OrderId, Order>, reference: int, instrument: Symbol, ms: seq<Match>)
    requires KnownMatches(orders, ms)
    ensures TradedQuantity(Priced(orders, reference, instrument, ms)) == Volume(ms)
  {
    if ms != [] {
      assert ms[0] in ms;
      PricingKeepsQuantity(orders, reference, instrument, ms[1..]);
    }
  }

  /** One matching transaction trades exactly the equilibrium volume: the maximum over all
      prices of the smaller of the quantity bid at that price or more and the quantity
      offered at that price or less. */
  lemma TickTradesClearingVolume(t: Tables, instrument: Symbol)
    requires Invariant(t) && instrument in t.markets
    ensures IsClearingVolume(Book(t.orders, instrument, Buy), Book(t.orders, instrument, Sell),
                             TradedQuantity(TickFills(t, instrument)))
  {
    BookMirrors(t, instrument, Buy);
    BookMirrors(t, instrument, Sell);
    PassTradesClearingVolume(Book(t.orders, instrument, Buy), Book(t.orders, instrument, Sell));
    PassNames(t.orders, instrument);
    PricingKeepsQuantity(t.orders, t.markets[instrument].reference, instrument, Pass(t.orders, instrument).fills);
  }

  /** A transaction that trades emits fewer fills than there were open orders to trade. */
  lemma TickEmitsFewFills(t: Tables, instrument: Symbol)
    requires Invariant(t) && instrument in t.markets && TickFills(t, instrument) != []
    ensures |TickFills(t, instrument)|
          < OpenOrders(Book(t.orders, instrument, Buy)) + OpenOrders(Book(t.orders, instrument, Sell))
  {
    BookMirrors(t, instrument, Buy);
    BookMirrors(t, instrument, Sell);
    FewerFillsThanOpenOrders(Book(t.orders, instrument, Buy), Book(t.orders, instrument, Sell));
  }

  // --- Price-time priority -----------------------------------------------------------------

  lemma MirroredPriority(orders: map<OrderId, Order>, ended: map<OrderId, Order>, instrument: Symbol, side: Side,
                         before: seq<BookOrder>, after: seq<BookOrder>, j: nat, k: nat)
    requires Makers(before, side) && Priority(after, before) && j < |before| && k < |before|
    requires Mirrors(orders, instrument, before, side) && Mirrors(ended, instrument, after, side)
    requires PriceTime(before[j], before[k]) == Less
    requires before[k].id in ended && ended[before[k].id].remaining < orders[before[k].id].remaining
    ensures before[j].id in ended && ended[before[j].id].remaining == 0
  {
    assert after[j].id == before[j].id && after[k].id == before[k].id;
    assert Traded(after, before, k);
    assert !NotBehind(before[k], before[j]);
  }

  // The two books before and after, with priority on both sides.
  ghost predicate Prioritised(t: Tables, instrument: Symbol, side: Side, after: seq<BookOrder>)
    requires instrument in t.markets
  {
    var book, ended := Book(t.orders, instrument, side), MatchTick(t, instrument).orders;
    && Makers(book, side) && Priority(after, book)
    && Mirrors(t.orders, instrument, book, side) && Mirrors(ended, instrument, after, side)
  }

  lemma TickPrioritises(t: Tables, instrument: Symbol, r: BookResult)
    requires Invariant(t) && instrument in t.markets && Commits(t, instrument) && r == Pass(t.orders, instrument)
    ensures Prioritised(t, instrument, Buy, r.buys) && Prioritised(t, instrument, Sell, r.sells)
  {
    BookMirrors(t, instrument, Buy);
    BookMirrors(t, instrument, Sell);
    BookClears(Book(t.orders, instrument, Buy), Book(t.orders, instrument, Sell));
    TickSettlesEveryFill(t, instrument);
  }

  lemma SidePrioritised(t: Tables, instrument: Symbol, side: Side) returns (after: seq<BookOrder>)
    requires Invariant(t) && instrument in t.markets && Commits(t, instrument)
    ensures Prioritised(t, instrument, side, after)
  {
    var r := Pass(t.orders, instrument);
    TickPrioritises(t, instrument, r);
    after := if side == Buy then r.buys else r.sells;
  }

  lemma PrioritisedRows(t: Tables, instrument: Symbol, side: Side, after: seq<BookOrder>, id: OrderId, ahead: OrderId)
    requires instrument in t.markets && Prioritised(t, instrument, side, after)
    requires id in OpenIds(t.orders, instrument) && ahead in OpenIds(t.orders, instrument)
    requires t.orders[ahead].side == t.orders[id].side == side
    requires PriceTime(Entry(ahead, t.orders[ahead]), Entry(id, t.orders[id])) == Less
    requires MatchTick(t, instrument).orders[id].remaining < t.orders[id].remaining
    ensures MatchTick(t, instrument).orders[ahead].remaining == 0
  {
    var j := BookHas(t.orders, instrument, ahead);
    var k := BookHas(t.orders, instrument, id);
    MirroredPriority(t.orders, MatchTick(t, instrument).orders, instrument, side, Book(t.orders, instrument, side), after, j, k);
  }

  lemma TradingMeansCommitting(t: Tables, instrument: Symbol, id: OrderId)
    requires instrument in t.markets && id in t.orders
    requires MatchTick(t, instrument).orders[id].remaining < t.orders[id].remaining
    ensures Commits(t, instrument)
  {
  }

  // A better price, or the same price and older.
  predicate AheadOf(first: Order, second: Order) {
    || (first.side == Buy && first.limitPrice > second.limitPrice)
    || (first.side == Sell && first.limitPrice < second.limitPrice)
    || (first.limitPrice == second.limitPrice && first.sequence < second.sequence)
  }

  lemma EntriesOrdered(orders: map<OrderId, Order>, instrument: Symbol, id: OrderId, ahead: OrderId)
    requires Resting(orders, instrument, id) && Resting(orders, instrument, ahead)
    requires orders[ahead].side == orders[id].side && AheadOf(orders[ahead], orders[id])
    ensures id in OpenIds(orders, instrument) && ahead in OpenIds(orders, instrument)
    ensures PriceTime(Entry(ahead, orders[ahead]), Entry(id, orders[id])) == Less
  {
    AheadIff(Entry(ahead, orders[ahead]), Entry(id, orders[id]));
  }

  /** If an order trades, every open order of its side with a better price, or the same
      price and older, ends the transaction completely filled. */
  lemma TickHonoursPriority(t: Tables, instrument: Symbol, id: OrderId, ahead: OrderId)
    requires Invariant(t) && instrument in t.markets
    requires Resting(t.orders, instrument, id) && Resting(t.orders, instrument, ahead)
    requires t.orders[ahead].side == t.orders[id].side
    requires AheadOf(t.orders[ahead], t.orders[id])
    requires MatchTick(t, instrument).orders[id].remaining < t.orders[id].remaining
    ensures MatchTick(t, instrument).orders[ahead].remaining == 0
  {
    EntriesOrdered(t.orders, instrument, id, ahead);
    TradingMeansCommitting(t, instrument, id);
    var side := t.orders[id].side;
    var after := SidePrioritised(t, instrument, side);
    PrioritisedRows(t, instrument, side, after, id, ahead);
  }

  // --- Ticks on different instruments commute -------------------------------------------------

  lemma {:induction false} SideOfSame(a: map<OrderId, Order>, b: map<OrderId, Order>, rows: seq<OrderId>, side: Side)
    requires forall id :: id in rows ==> id in a && id in b && a[id] == b[id]
    ensures SideOf(a, rows, side) == SideOf(b, rows, side)
  {
    if rows != [] {
      assert rows == [rows[0]] + rows[1..];
      SideOfSame(a, b, rows[1..], side);
    }
  }

  // An instrument's book depends only on that instrument's rows.
  lemma BookIsLocal(a: map<OrderId, Order>, b: map<OrderId, Order>, instrument: Symbol, side: Side)
    requires SequencesDistinct(a) && a.Keys == b.Keys
    requires forall id :: id in a && a[id].instrument == instrument ==> b[id] == a[id]
    requires forall id :: id in a ==> b[id].instrument == a[id].instrument
    ensures Book(a, instrument, side) == Book(b, instrument, side)
  {
    assert OpenIds(a, instrument) == OpenIds(b, instrument);
    BySequenceDetermined(a, b, OpenIds(a, instrument));
    SideOfSame(a, b, BySequence(a, OpenIds(a, instrument)), side);
  }

  lemma NotInOtherBook(orders: map<OrderId, Order>, instrument: Symbol, book: seq<BookOrder>, side: Side, id: OrderId)
    requires Mirrors(orders, instrument, book, side) && id in orders && orders[id].instrument != instrument
    ensures !InBook(book, id)
  {
  }

  lemma OtherRowsStay(t: Tables, instrument: Symbol, id: OrderId)
    requires Invariant(t) && instrument in t.markets && id in t.orders && t.orders[id].instrument != instrument
    ensures MatchTick(t, instrument).orders[id] == t.orders[id]
  {
    if Commits(t, instrument) {
      TickSettlesEveryFill(t, instrument);
      BookMirrors(t, instrument, Buy);
      BookMirrors(t, instrument, Sell);
      NotInOtherBook(t.orders, instrument, Book(t.orders, instrument, Buy), Buy, id);
      NotInOtherBook(t.orders, instrument, Book(t.orders, instrument, Sell), Sell, id);
    }
  }

  lemma TickEvolves(t: Tables, instrument: Symbol)
    requires Invariant(t) && instrument in t.markets
    ensures Evolves(t.orders, MatchTick(t, instrument).orders)
  {
    if Commits(t, instrument) {
      TickSettlesEveryFill(t, instrument);
      ApplyFillsContinues(t, TickFills(t, instrument));
    }
  }

  /** A tick on one instrument computes the same fills before and after a tick on another. */
  lemma OtherTickSameFills(t: Tables, here: Symbol, there: Symbol)
    requires Invariant(t) && here in t.markets && there in t.markets && here != there
    ensures TickFills(MatchTick(t, here), there) == TickFills(t, there)
  {
    var r := MatchTick(t, here);
    TickEvolves(t, here);
    forall id | id in t.orders && t.orders[id].instrument == there ensures r.orders[id] == t.orders[id] {
      OtherRowsStay(t, here, id);
    }
    BookIsLocal(t.orders, r.orders, there, Buy);
    BookIsLocal(t.orders, r.orders, there, Sell);
    PassNames(t.orders, there);
    PricesEvolve(t.orders, r.orders, t.markets[there].reference, there, Pass(t.orders, there).fills);
  }

  lemma TickFillsInstrument(t: Tables, instrument: Symbol)
    requires instrument in t.markets
    ensures forall f :: f in TickFills(t, instrument) ==>
              t.orders[f.maker].instrument == instrument && t.orders[f.taker].instrument == instrument
  {
    PassNames(t.orders, instrument);
    PricedNames(t.orders, t.markets[instrument].reference, instrument, Pass(t.orders, instrument).fills);
  }

  lemma {:induction false} PricedNames(orders: map<OrderId, Order>, reference: int, instrument: Symbol, ms: seq<Match>)
    requires KnownMatches(orders, ms)
    ensures forall f :: f in Priced(orders, reference, instrument, ms) ==>
              exists m :: m in ms && m.maker == f.maker && m.taker == f.taker
  {
    if ms != [] {
      assert ms[0] in ms;
      PricedNames(orders, reference, instrument, ms[1..]);
      forall f | f in Priced(orders, reference, instrument, ms)
        ensures exists m :: m in ms && m.maker == f.maker && m.taker == f.taker
      {
        if f != PriceMatch(orders, reference, instrument, ms[0]) {
          assert f in Priced(orders, reference, instrument, ms[1..]);
          var m :| m in ms[1..] && m.maker == f.maker && m.taker == f.taker;
          assert m in ms;
        }
      }
    }
  }

  // A tick after a tick on another instrument settles its own fills, unchanged.
  lemma TickThenTick(t: Tables, here: Symbol, there: Symbol)
    requires Invariant(t) && here in t.markets && there in t.markets && here != there
    requires Commits(t, here) && Commits(t, there)
    ensures Known(t.orders, TickFills(t, here)) && Known(ApplyFills(t, TickFills(t, here)).orders, TickFills(t, there))
    ensures MatchTick(MatchTick(t, here), there) == ApplyFills(ApplyFills(t, TickFills(t, here)), TickFills(t, there))
  {
    TickSettlesEveryFill(t, here);
    TickKeepsInvariant(t, here);
    OtherTickSameFills(t, here, there);
    TickSettlesEveryFill(MatchTick(t, here), there);
  }

  lemma TickFillsApart(t: Tables, here: Symbol, there: Symbol)
    requires here in t.markets && there in t.markets && here != there
    ensures forall f, g :: f in TickFills(t, here) && g in TickFills(t, there) ==> Apart(f, g)
  {
    TickFillsInstrument(t, here);
    TickFillsInstrument(t, there);
  }

  // A tick that aborts does so before and after a tick elsewhere.
  lemma AbortingTickCommutes(t: Tables, here: Symbol, there: Symbol)
    requires Invariant(t) && here in t.markets && there in t.markets && here != there && !Commits(t, here)
    ensures MatchTick(MatchTick(t, here), there) == MatchTick(MatchTick(t, there), here)
  {
    OtherTickSameFills(t, there, here);
  }

  /** Ticks on two instruments give the same tables in either order, whoever trades in
      both: this is what one lock per instrument relies on. */
  lemma TicksCommute(t: Tables, here: Symbol, there: Symbol)
    requires Invariant(t) && here in t.markets && there in t.markets && here != there
    ensures MatchTick(MatchTick(t, here), there) == MatchTick(MatchTick(t, there), here)
  {
    if !Commits(t, here) {
      AbortingTickCommutes(t, here, there);
    } else if !Commits(t, there) {
      AbortingTickCommutes(t, there, here);
    } else {
      TickThenTick(t, here, there);
      TickThenTick(t, there, here);
      TickFillsApart(t, here, there);
      ApplyFillsCommute(t, TickFills(t, here), TickFills(t, there));
    }
  }
}

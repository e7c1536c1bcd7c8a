/** What one matching pass over an instrument's book achieves
    (crates/worker/src/main.rs, the loop over sorted buys). */
module Clearing {
  import opened Domain

  datatype BookResult = BookResult(buys: seq<BookOrder>, sells: seq<BookOrder>, fills: seq<Match>)

  /** Every buy in turn takes from the sells, which match_taker sorts again each time. */
  function MatchBook(buys: seq<BookOrder>, sells: seq<BookOrder>): BookResult
    decreases |buys|
  {
    if buys == [] then BookResult([], sells, [])
    else
      var r := MatchSorted(buys[0], SortByPriceTime(sells));
      var rest := MatchBook(buys[1..], r.makers);
      BookResult([r.taker] + rest.buys, rest.sells, r.fills + rest.fills)
  }

  // The same orders with some of their quantity gone.
  ghost predicate Shrunk(after: seq<BookOrder>, before: seq<BookOrder>) {
    |after| == |before| &&
    forall k :: 0 <= k < |before| ==>
      after[k] == before[k].(remaining := after[k].remaining) && 0 <= after[k].remaining <= before[k].remaining
  }

  ghost predicate NonNegative(book: seq<BookOrder>) {
    forall k :: 0 <= k < |book| ==> book[k].remaining >= 0
  }

  ghost predicate Traded(after: seq<BookOrder>, before: seq<BookOrder>, k: nat)
    requires Shrunk(after, before) && k < |before|
  {
    after[k].remaining < before[k].remaining
  }

  // A book ready for matching: sorted, on the side its takers trade against.
  ghost predicate Makers(book: seq<BookOrder>, side: Side) {
    OneSided(book, side) && Sorted(book) && NonNegative(book)
  }

  function Opposite(side: Side): Side {
    if side == Buy then Sell else Buy
  }

  lemma ShrunkKeepsOrder(after: seq<BookOrder>, before: seq<BookOrder>, side: Side)
    requires Shrunk(after, before) && Makers(before, side)
    ensures Makers(after, side) && SortByPriceTime(after) == after
  {
    SortIsIdempotent(after);
  }

  /** Within one taker's walk: a maker trades only after every better maker is exhausted,
      only at a crossing price, and the walk stops only when the taker is exhausted or
      nothing open crosses it any more. */
  ghost predicate Obeys(taker: BookOrder, makers: seq<BookOrder>, r: TakerResult) {
    && Shrunk(r.makers, makers) && Shrunk([r.taker], [taker])
    && (forall k :: 0 <= k < |makers| && Traded(r.makers, makers, k) ==> taker.remaining > 0 && Crosses(taker, makers[k]))
    && (forall j, k :: 0 <= j < k < |makers| && Traded(r.makers, makers, k) ==> r.makers[j].remaining == 0)
    && (r.taker.remaining > 0 ==> forall k :: 0 <= k < |makers| && r.makers[k].remaining > 0 ==> !Crosses(taker, makers[k]))
    && (r.taker.remaining < taker.remaining ==> exists k :: 0 <= k < |makers| && Traded(r.makers, makers, k))
  }

  // The first maker gives `quantity` to the taker, and the walk goes on over the others.
  ghost predicate HeadGives(taker: BookOrder, makers: seq<BookOrder>, quantity: int, rest: TakerResult, all: seq<BookOrder>) {
    && makers != [] && NonNegative(makers) && 0 <= quantity <= taker.remaining && quantity <= makers[0].remaining
    && (quantity > 0 ==> Crosses(taker, makers[0]))
    && (quantity == makers[0].remaining || (quantity == taker.remaining && quantity > 0))
    && Obeys(Reduced(taker, quantity), makers[1..], rest)
    && all == [Reduced(makers[0], quantity)] + rest.makers
  }

  lemma HeadShrinks(taker: BookOrder, makers: seq<BookOrder>, quantity: int, rest: TakerResult, all: seq<BookOrder>)
    requires HeadGives(taker, makers, quantity, rest, all)
    ensures Shrunk(all, makers) && Shrunk([rest.taker], [taker])
  {
    assert rest.taker == [rest.taker][0] && Reduced(taker, quantity) == [Reduced(taker, quantity)][0] && taker == [taker][0];
  }

  // A later maker traded only at a crossing price, and only after the head was exhausted.
  lemma LaterTrades(taker: BookOrder, makers: seq<BookOrder>, quantity: int, rest: TakerResult, all: seq<BookOrder>, k: nat)
    requires HeadGives(taker, makers, quantity, rest, all) && Shrunk(all, makers)
    requires 0 < k < |makers| && Traded(all, makers, k)
    ensures taker.remaining > 0 && Crosses(taker, makers[k]) && all[0].remaining == 0 && Traded(rest.makers, makers[1..], k - 1)
  {
    assert Traded(rest.makers, makers[1..], k - 1);
    assert Crosses(Reduced(taker, quantity), makers[1..][k - 1]) && Reduced(taker, quantity).remaining > 0;
  }

  lemma BetterExhausted(taker: BookOrder, makers: seq<BookOrder>, quantity: int, rest: TakerResult, all: seq<BookOrder>, j: nat, k: nat)
    requires HeadGives(taker, makers, quantity, rest, all) && Shrunk(all, makers)
    requires j < k < |makers| && Traded(all, makers, k)
    ensures all[j].remaining == 0
  {
    LaterTrades(taker, makers, quantity, rest, all, k);
    if j > 0 { assert rest.makers[j - 1].remaining == 0; }
  }

  lemma LeftoversDoNotCross(taker: BookOrder, makers: seq<BookOrder>, quantity: int, rest: TakerResult, all: seq<BookOrder>, k: nat)
    requires HeadGives(taker, makers, quantity, rest, all) && Shrunk([rest.taker], [Reduced(taker, quantity)])
    requires k < |makers| && |all| == |makers| && all[k].remaining > 0 && rest.taker.remaining > 0
    ensures !Crosses(taker, makers[k])
  {
    assert [rest.taker][0].remaining <= [Reduced(taker, quantity)][0].remaining;
    if k > 0 {
      assert rest.makers[k - 1].remaining > 0;
      assert !Crosses(Reduced(taker, quantity), makers[1..][k - 1]);
    }
  }

  lemma SomeoneTraded(taker: BookOrder, makers: seq<BookOrder>, quantity: int, rest: TakerResult, all: seq<BookOrder>)
    requires HeadGives(taker, makers, quantity, rest, all) && Shrunk(all, makers) && rest.taker.remaining < taker.remaining
    ensures exists k :: 0 <= k < |makers| && Traded(all, makers, k)
  {
    if quantity > 0 {
      assert Traded(all, makers, 0);
    } else {
      var k :| 0 <= k < |makers[1..]| && Traded(rest.makers, makers[1..], k);
      assert Traded(all, makers, k + 1);
    }
  }

  lemma ObeysAfterHead(taker: BookOrder, makers: seq<BookOrder>, quantity: int, rest: TakerResult, all: seq<BookOrder>)
    requires HeadGives(taker, makers, quantity, rest, all)
    ensures Obeys(taker, makers, TakerResult(rest.taker, all, rest.fills))
  {
    HeadShrinks(taker, makers, quantity, rest, all);
    forall k | 0 <= k < |makers| && Traded(all, makers, k) ensures taker.remaining > 0 && Crosses(taker, makers[k]) {
      if k > 0 { LaterTrades(taker, makers, quantity, rest, all, k); }
    }
    forall j, k | 0 <= j < k < |makers| && Traded(all, makers, k) ensures all[j].remaining == 0 {
      BetterExhausted(taker, makers, quantity, rest, all, j, k);
    }
    forall k | 0 <= k < |makers| && all[k].remaining > 0 && rest.taker.remaining > 0 ensures !Crosses(taker, makers[k]) {
      LeftoversDoNotCross(taker, makers, quantity, rest, all, k);
    }
    if rest.taker.remaining < taker.remaining {
      SomeoneTraded(taker, makers, quantity, rest, all);
    }
  }

  lemma {:induction false} TakerPriority(taker: BookOrder, makers: seq<BookOrder>)
    requires Makers(makers, Opposite(taker.side)) && taker.remaining >= 0
    ensures Obeys(taker, makers, MatchSorted(taker, makers))
    decreases |makers|
  {
    if makers == [] {
    } else if makers[0].remaining <= 0 {
      TakerPriority(taker, makers[1..]);
      var rest := MatchSorted(taker, makers[1..]);
      ObeysAfterHead(taker, makers, 0, rest, [makers[0]] + rest.makers);
    } else if taker.remaining <= 0 || !Crosses(taker, makers[0]) {
      forall k | 0 <= k < |makers| && !Crosses(taker, makers[0]) ensures !Crosses(taker, makers[k]) {
        assert k == 0 || NotBehind(makers[0], makers[k]);
      }
    } else {
      var q := Min(taker.remaining, makers[0].remaining);
      TakerPriority(Reduced(taker, q), makers[1..]);
      var rest := MatchSorted(Reduced(taker, q), makers[1..]);
      ObeysAfterHead(taker, makers, q, rest, [Reduced(makers[0], q)] + rest.makers);
    }
  }

  // A book ready to be walked by the matching loop.
  ghost predicate Ready(buys: seq<BookOrder>, sells: seq<BookOrder>) {
    Makers(buys, Buy) && Makers(sells, Sell)
  }

  /** Price-time priority over the whole pass: an order trades only if every order ahead
      of it on its own side ends completely filled. */
  ghost predicate Priority(after: seq<BookOrder>, before: seq<BookOrder>) {
    Shrunk(after, before) &&
    forall j, k :: 0 <= j < k < |before| && Traded(after, before, k) ==> after[j].remaining == 0
  }

  /** No open buy meets an open sell's price. */
  ghost predicate Uncrossed(buys: seq<BookOrder>, sells: seq<BookOrder>) {
    forall i, j :: 0 <= i < |buys| && 0 <= j < |sells| && buys[i].remaining > 0 && sells[j].remaining > 0
      ==> !Crosses(buys[i], sells[j])
  }

  /** Everything that bought would pay at least what everything that sold would accept. */
  ghost predicate Separated(buys: seq<BookOrder>, buys': seq<BookOrder>, sells: seq<BookOrder>, sells': seq<BookOrder>)
    requires Shrunk(buys', buys) && Shrunk(sells', sells)
  {
    forall i, j :: 0 <= i < |buys| && 0 <= j < |sells| && Traded(buys', buys, i) && Traded(sells', sells, j)
      ==> Crosses(buys[i], sells[j])
  }

  // Whatever trades had a counterparty to trade with.
  ghost predicate Paired(buys: seq<BookOrder>, buys': seq<BookOrder>, sells: seq<BookOrder>, sells': seq<BookOrder>)
    requires Shrunk(buys', buys) && Shrunk(sells', sells)
  {
    && (forall i :: 0 <= i < |buys| && Traded(buys', buys, i) ==>
          exists j :: 0 <= j < |sells| && sells[j].remaining > 0 && Crosses(buys[i], sells[j]))
    && (forall j :: 0 <= j < |sells| && Traded(sells', sells, j) ==> buys != [] && Crosses(buys[0], sells[j]))
  }

  ghost predicate Cleared(buys: seq<BookOrder>, sells: seq<BookOrder>, r: BookResult) {
    && Priority(r.buys, buys) && Priority(r.sells, sells)
    && Uncrossed(r.buys, r.sells)
    && Separated(buys, r.buys, sells, r.sells)
    && Paired(buys, r.buys, sells, r.sells)
  }

  lemma SellsPriorityStep(sells: seq<BookOrder>, mid: seq<BookOrder>, after: seq<BookOrder>)
    requires Priority(mid, sells) && Priority(after, mid)
    ensures Priority(after, sells)
  {
    forall j, k | 0 <= j < k < |sells| && Traded(after, sells, k) ensures after[j].remaining == 0 {
      if Traded(mid, sells, k) { assert mid[j].remaining == 0; } else { assert Traded(after, mid, k); }
    }
  }

  lemma BuysPriorityStep(buys: seq<BookOrder>, sells: seq<BookOrder>, taken: TakerResult, rest: BookResult)
    requires Ready(buys, sells) && buys != [] && Obeys(buys[0], sells, taken) && Cleared(buys[1..], taken.makers, rest)
    ensures Priority([taken.taker] + rest.buys, buys)
  {
    var after := [taken.taker] + rest.buys;
    assert taken.taker == [taken.taker][0] && buys[0] == [buys[0]][0];
    assert Shrunk(after, buys);
    forall j, k | 0 <= j < k < |buys| && Traded(after, buys, k) ensures after[j].remaining == 0 {
      assert Traded(rest.buys, buys[1..], k - 1);
      if j > 0 {
        assert rest.buys[j - 1].remaining == 0;
      } else {
        var m :| 0 <= m < |sells| && taken.makers[m].remaining > 0 && Crosses(buys[1..][k - 1], taken.makers[m]);
        assert NotBehind(buys[0], buys[k]);
        assert Crosses(buys[0], sells[m]);
      }
    }
  }

  lemma UncrossedStep(buys: seq<BookOrder>, sells: seq<BookOrder>, taken: TakerResult, rest: BookResult)
    requires Ready(buys, sells) && buys != [] && Obeys(buys[0], sells, taken) && Cleared(buys[1..], taken.makers, rest)
    ensures Uncrossed([taken.taker] + rest.buys, rest.sells)
  {
    var after := [taken.taker] + rest.buys;
    assert taken.taker == [taken.taker][0] && buys[0] == [buys[0]][0];
    forall i, j | 0 <= i < |after| && 0 <= j < |sells| && after[i].remaining > 0 && rest.sells[j].remaining > 0
      ensures !Crosses(after[i], rest.sells[j])
    {
      if i == 0 {
        assert taken.makers[j].remaining > 0;
        assert !Crosses(buys[0], sells[j]);
      } else {
        assert !Crosses(rest.buys[i - 1], rest.sells[j]);
      }
    }
  }

  lemma SeparatedStep(buys: seq<BookOrder>, sells: seq<BookOrder>, taken: TakerResult, rest: BookResult)
    requires Ready(buys, sells) && buys != [] && Obeys(buys[0], sells, taken) && Cleared(buys[1..], taken.makers, rest)
    requires Priority([taken.taker] + rest.buys, buys) && Priority(rest.sells, sells)
    ensures Separated(buys, [taken.taker] + rest.buys, sells, rest.sells)
  {
    var after := [taken.taker] + rest.buys;
    forall i, j | 0 <= i < |buys| && 0 <= j < |sells| && Traded(after, buys, i) && Traded(rest.sells, sells, j)
      ensures Crosses(buys[i], sells[j])
    {
      if Traded(taken.makers, sells, j) {
        assert Crosses(buys[0], sells[j]);
        if i > 0 {
          assert Traded(rest.buys, buys[1..], i - 1);
          var m :| 0 <= m < |sells| && taken.makers[m].remaining > 0 && Crosses(buys[1..][i - 1], taken.makers[m]);
          assert m >= j;
          assert m == j || NotBehind(sells[j], sells[m]);
        }
      } else {
        assert Traded(rest.sells, taken.makers, j);
        if i > 0 {
          assert Traded(rest.buys, buys[1..], i - 1);
          assert Crosses(buys[1..][i - 1], taken.makers[j]);
        } else {
          assert Crosses(buys[1..][0], taken.makers[j]);
          assert NotBehind(buys[0], buys[1]);
        }
      }
    }
  }

  lemma PairedStep(buys: seq<BookOrder>, sells: seq<BookOrder>, taken: TakerResult, rest: BookResult)
    requires Ready(buys, sells) && buys != [] && Obeys(buys[0], sells, taken) && Cleared(buys[1..], taken.makers, rest)
    requires Priority([taken.taker] + rest.buys, buys) && Priority(rest.sells, sells)
    ensures Paired(buys, [taken.taker] + rest.buys, sells, rest.sells)
  {
    var after := [taken.taker] + rest.buys;
    forall i | 0 <= i < |buys| && Traded(after, buys, i)
      ensures exists j :: 0 <= j < |sells| && sells[j].remaining > 0 && Crosses(buys[i], sells[j])
    {
      if i == 0 {
        var k :| 0 <= k < |sells| && Traded(taken.makers, sells, k);
        assert sells[k].remaining > 0 && Crosses(buys[0], sells[k]);
      } else {
        assert Traded(rest.buys, buys[1..], i - 1);
        var m :| 0 <= m < |sells| && taken.makers[m].remaining > 0 && Crosses(buys[1..][i - 1], taken.makers[m]);
        assert sells[m].remaining > 0 && Crosses(buys[i], sells[m]);
      }
    }
    forall j | 0 <= j < |sells| && Traded(rest.sells, sells, j) ensures Crosses(buys[0], sells[j]) {
      if !Traded(taken.makers, sells, j) {
        assert Traded(rest.sells, taken.makers, j);
        assert Crosses(buys[1..][0], taken.makers[j]);
        assert NotBehind(buys[0], buys[1]);
      }
    }
  }

  lemma ReadyRest(buys: seq<BookOrder>, sells: seq<BookOrder>, makers: seq<BookOrder>)
    requires Ready(buys, sells) && buys != [] && Shrunk(makers, sells)
    ensures Ready(buys[1..], makers)
  {
    ShrunkKeepsOrder(makers, sells, Sell);
  }

  /** One pass over a sorted book leaves it cleared: priority on both sides, no crossing
      pair left, and traded buys separated in price from traded sells. */
  lemma {:induction false} BookClears(buys: seq<BookOrder>, sells: seq<BookOrder>)
    requires Ready(buys, sells)
    ensures Cleared(buys, sells, MatchBook(buys, sells))
    decreases |buys|
  {
    if buys != [] {
      SortIsIdempotent(sells);
      TakerPriority(buys[0], sells);
      var taken := MatchSorted(buys[0], sells);
      ReadyRest(buys, sells, taken.makers);
      BookClears(buys[1..], taken.makers);
      var rest := MatchBook(buys[1..], taken.makers);
      SellsPriorityStep(sells, taken.makers, rest.sells);
      BuysPriorityStep(buys, sells, taken, rest);
      UncrossedStep(buys, sells, taken, rest);
      SeparatedStep(buys, sells, taken, rest);
      PairedStep(buys, sells, taken, rest);
    }
  }

  lemma MatchBookHead(buys: seq<BookOrder>, sells: seq<BookOrder>, taken: TakerResult, rest: BookResult)
    requires buys != [] && SortByPriceTime(sells) == sells
    requires taken == MatchSorted(buys[0], sells) && rest == MatchBook(buys[1..], taken.makers)
    ensures MatchBook(buys, sells) == BookResult([taken.taker] + rest.buys, rest.sells, taken.fills + rest.fills)
  {
  }

  function TotalRemaining(book: seq<BookOrder>): int {
    if book == [] then 0 else book[0].remaining + TotalRemaining(book[1..])
  }

  function Volume(fills: seq<Match>): int {
    if fills == [] then 0 else fills[0].quantity + Volume(fills[1..])
  }

  /** The quantity buyers want at a price, and the quantity sellers offer at it. */
  function Demand(buys: seq<BookOrder>, price: int): int {
    if buys == [] then 0 else (if buys[0].price >= price then buys[0].remaining else 0) + Demand(buys[1..], price)
  }

  function Supply(sells: seq<BookOrder>, price: int): int {
    if sells == [] then 0 else (if sells[0].price <= price then sells[0].remaining else 0) + Supply(sells[1..], price)
  }

  lemma {:induction false} VolumeConcat(a: seq<Match>, b: seq<Match>)
    ensures Volume(a + b) == Volume(a) + Volume(b)
  {
    if a == [] {
      assert a + b == b;
    } else {
      assert (a + b)[1..] == a[1..] + b;
      VolumeConcat(a[1..], b);
    }
  }

  lemma {:induction false} TakerConserves(taker: BookOrder, makers: seq<BookOrder>)
    ensures var r := MatchSorted(taker, makers);
            && Volume(r.fills) == taker.remaining - r.taker.remaining
            && Volume(r.fills) == TotalRemaining(makers) - TotalRemaining(r.makers)
    decreases |makers|
  {
    if makers != [] && makers[0].remaining <= 0 {
      TakerConserves(taker, makers[1..]);
    } else if makers != [] && taker.remaining > 0 && Crosses(taker, makers[0]) {
      TakerConserves(Reduced(taker, Min(taker.remaining, makers[0].remaining)), makers[1..]);
    }
  }

  ghost predicate Conserves(buys: seq<BookOrder>, sells: seq<BookOrder>, r: BookResult, volume: int) {
    volume == TotalRemaining(buys) - TotalRemaining(r.buys) == TotalRemaining(sells) - TotalRemaining(r.sells)
  }

  /** The fills account for exactly the quantity that left each side of the book. */
  lemma {:induction false} BookConserves(buys: seq<BookOrder>, sells: seq<BookOrder>, r: BookResult)
    requires Ready(buys, sells) && r == MatchBook(buys, sells)
    ensures Conserves(buys, sells, r, Volume(r.fills))
    decreases |buys|
  {
    if buys != [] {
      SortIsIdempotent(sells);
      TakerConserves(buys[0], sells);
      TakerPriority(buys[0], sells);
      var taken := MatchSorted(buys[0], sells);
      ReadyRest(buys, sells, taken.makers);
      var rest := MatchBook(buys[1..], taken.makers);
      BookConserves(buys[1..], taken.makers, rest);
      VolumeConcat(taken.fills, rest.fills);
      MatchBookHead(buys, sells, taken, rest);
    }
  }

  // All of the demand at this price is met when no open buy reaches it; what was met
  // can never be more than all that traded.
  lemma {:induction false} DemandBounds(after: seq<BookOrder>, before: seq<BookOrder>, price: int)
    requires Shrunk(after, before)
    ensures (forall k :: 0 <= k < |after| && after[k].price >= price ==> after[k].remaining == 0)
              ==> Demand(before, price) <= TotalRemaining(before) - TotalRemaining(after)
    ensures (forall k :: 0 <= k < |after| && Traded(after, before, k) ==> before[k].price >= price)
              ==> Demand(before, price) >= TotalRemaining(before) - TotalRemaining(after)
    ensures TotalRemaining(after) <= TotalRemaining(before)
  {
    if before != [] {
      DemandBounds(after[1..], before[1..], price);
      assert forall k :: 0 <= k < |after[1..]| ==> after[1..][k] == after[k + 1] && before[1..][k] == before[k + 1];
      if (forall k :: 0 <= k < |after| && Traded(after, before, k) ==> before[k].price >= price) {
        forall k | 0 <= k < |after[1..]| && Traded(after[1..], before[1..], k) ensures before[1..][k].price >= price {
          assert Traded(after, before, k + 1);
        }
        assert Traded(after, before, 0) ==> before[0].price >= price;
      }
    }
  }

  lemma {:induction false} SupplyBounds(after: seq<BookOrder>, before: seq<BookOrder>, price: int)
    requires Shrunk(after, before)
    ensures (forall k :: 0 <= k < |after| && after[k].price <= price ==> after[k].remaining == 0)
              ==> Supply(before, price) <= TotalRemaining(before) - TotalRemaining(after)
    ensures (forall k :: 0 <= k < |after| && Traded(after, before, k) ==> before[k].price <= price)
              ==> Supply(before, price) >= TotalRemaining(before) - TotalRemaining(after)
    ensures TotalRemaining(after) <= TotalRemaining(before)
  {
    if before != [] {
      SupplyBounds(after[1..], before[1..], price);
      assert forall k :: 0 <= k < |after[1..]| ==> after[1..][k] == after[k + 1] && before[1..][k] == before[k + 1];
      if (forall k :: 0 <= k < |after| && Traded(after, before, k) ==> before[k].price <= price) {
        forall k | 0 <= k < |after[1..]| && Traded(after[1..], before[1..], k) ensures before[1..][k].price <= price {
          assert Traded(after, before, k + 1);
        }
        assert Traded(after, before, 0) ==> before[0].price <= price;
      }
    }
  }

  /** No price would let more quantity change hands than a cleared book traded. */
  lemma VolumeIsUpperBound(buys: seq<BookOrder>, sells: seq<BookOrder>, r: BookResult, volume: int, price: int)
    requires Ready(buys, sells) && Cleared(buys, sells, r) && Conserves(buys, sells, r, volume)
    ensures Min(Demand(buys, price), Supply(sells, price)) <= volume
  {
    if i :| 0 <= i < |buys| && r.buys[i].price >= price && r.buys[i].remaining != 0 {
      assert r.buys[i].side == Buy by { assert r.buys[i] == buys[i].(remaining := r.buys[i].remaining); }
      forall j | 0 <= j < |sells| && r.sells[j].price <= price ensures r.sells[j].remaining == 0 {
        assert r.sells[j].remaining > 0 ==> !Crosses(r.buys[i], r.sells[j]);
      }
      SupplyBounds(r.sells, sells, price);
    } else {
      DemandBounds(r.buys, buys, price);
    }
  }

  lemma {:induction false} LastTraded(after: seq<BookOrder>, before: seq<BookOrder>) returns (last: int)
    requires Shrunk(after, before)
    ensures -1 <= last < |before|
    ensures last >= 0 ==> Traded(after, before, last)
    ensures forall k :: last < k < |before| ==> !Traded(after, before, k)
  {
    last := |before| - 1;
    while last >= 0 && !Traded(after, before, last)
      invariant -1 <= last < |before|
      invariant forall k :: last < k < |before| ==> !Traded(after, before, k)
    {
      last := last - 1;
    }
  }

  function DearerThanAll(buys: seq<BookOrder>): (p: int)
    ensures forall k :: 0 <= k < |buys| ==> buys[k].price < p
  {
    if buys == [] then 0 else
      assert forall k :: 0 < k < |buys| ==> buys[k] == buys[1..][k - 1];
      var rest := DearerThanAll(buys[1..]);
      if buys[0].price < rest then rest else buys[0].price + 1
  }

  lemma {:induction false} NoDemandAbove(buys: seq<BookOrder>, p: int)
    requires forall k :: 0 <= k < |buys| ==> buys[k].price < p
    ensures Demand(buys, p) == 0
  {
    if buys != [] {
      NoDemandAbove(buys[1..], p);
    }
  }

  /** Some price attains it: the dearest sell that traded, or any price no one bids. */
  lemma VolumeIsAttained(buys: seq<BookOrder>, sells: seq<BookOrder>, r: BookResult, volume: int) returns (price: int)
    requires Ready(buys, sells) && Cleared(buys, sells, r) && Conserves(buys, sells, r, volume)
    ensures Min(Demand(buys, price), Supply(sells, price)) == volume
  {
    var last := LastTraded(r.sells, sells);
    if last < 0 {
      price := DearerThanAll(buys);
      NoDemandAbove(buys, price);
      SupplyBounds(r.sells, sells, price - 1);
      SupplyBounds(r.sells, sells, price);
      NothingTradedNothingMoved(r.sells, sells);
      NonNegativeSupply(sells, price);
    } else {
      price := sells[last].price;
      forall k | 0 <= k < |sells| && Traded(r.sells, sells, k) ensures sells[k].price <= price {
        assert k == last || NotBehind(sells[k], sells[last]);
      }
      forall k | 0 <= k < |buys| && Traded(r.buys, buys, k) ensures buys[k].price >= price {
        assert Crosses(buys[k], sells[last]);
      }
      DemandBounds(r.buys, buys, price);
      SupplyBounds(r.sells, sells, price);
      VolumeIsUpperBound(buys, sells, r, volume, price);
    }
  }

  lemma {:induction false} NothingTradedNothingMoved(after: seq<BookOrder>, before: seq<BookOrder>)
    requires Shrunk(after, before) && forall k :: 0 <= k < |before| ==> !Traded(after, before, k)
    ensures TotalRemaining(after) == TotalRemaining(before)
  {
    forall k | 0 <= k < |before| ensures after[k] == before[k] { assert !Traded(after, before, k); }
    assert after == before;
  }

  lemma {:induction false} NonNegativeSupply(sells: seq<BookOrder>, price: int)
    requires NonNegative(sells)
    ensures Supply(sells, price) >= 0
  {
    if sells != [] {
      NonNegativeSupply(sells[1..], price);
    }
  }

  /** The equilibrium volume: the most that any single price would clear. */
  ghost predicate IsClearingVolume(buys: seq<BookOrder>, sells: seq<BookOrder>, volume: int) {
    && (forall p :: Min(Demand(buys, p), Supply(sells, p)) <= volume)
    && (exists p :: Min(Demand(buys, p), Supply(sells, p)) == volume)
  }

  lemma ClearedTradesClearingVolume(buys: seq<BookOrder>, sells: seq<BookOrder>, r: BookResult, volume: int)
    requires Ready(buys, sells) && Cleared(buys, sells, r) && Conserves(buys, sells, r, volume)
    ensures IsClearingVolume(buys, sells, volume)
  {
    forall p ensures Min(Demand(buys, p), Supply(sells, p)) <= volume {
      VolumeIsUpperBound(buys, sells, r, volume, p);
    }
    var p := VolumeIsAttained(buys, sells, r, volume);
  }

  /** One matching pass trades exactly the equilibrium volume of the book it loads. */
  lemma PassTradesClearingVolume(buys: seq<BookOrder>, sells: seq<BookOrder>)
    requires Ready(buys, sells)
    ensures IsClearingVolume(buys, sells, Volume(MatchBook(buys, sells).fills))
  {
    var r := MatchBook(buys, sells);
    BookClears(buys, sells);
    BookConserves(buys, sells, r);
    ClearedTradesClearingVolume(buys, sells, r, Volume(r.fills));
  }

  /** A book without crossing orders trades nothing and stays as it is. */
  lemma {:induction false} UncrossedTradesNothing(buys: seq<BookOrder>, sells: seq<BookOrder>)
    requires Ready(buys, sells) && Uncrossed(buys, sells)
    ensures MatchBook(buys, sells) == BookResult(buys, sells, [])
    decreases |buys|
  {
    if buys != [] {
      SortIsIdempotent(sells);
      NothingToTake(buys[0], sells);
      assert Uncrossed(buys[1..], sells) by {
        assert forall k :: 0 <= k < |buys[1..]| ==> buys[1..][k] == buys[k + 1];
      }
      UncrossedTradesNothing(buys[1..], sells);
      MatchBookHead(buys, sells, TakerResult(buys[0], sells, []), BookResult(buys[1..], sells, []));
      assert buys == [buys[0]] + buys[1..];
    }
  }

  lemma {:induction false} NothingToTake(taker: BookOrder, makers: seq<BookOrder>)
    requires forall k :: 0 <= k < |makers| && makers[k].remaining > 0 && taker.remaining > 0 ==> !Crosses(taker, makers[k])
    ensures MatchSorted(taker, makers) == TakerResult(taker, makers, [])
    decreases |makers|
  {
    if makers != [] && makers[0].remaining <= 0 {
      NothingToTake(taker, makers[1..]);
    }
  }

  // --- Bids at zero ---------------------------------------------------------------------------

  ghost predicate FreeBidWaits(buys: seq<BookOrder>) {
    exists k :: 0 <= k < |buys| && buys[k].price == 0 && buys[k].remaining > 0
  }

  ghost predicate FreeBidTrades(after: seq<BookOrder>, before: seq<BookOrder>) {
    |after| == |before| && exists k :: 0 <= k < |before| && before[k].price == 0 && after[k].remaining < before[k].remaining
  }

  predicate PricesNonNegative(book: seq<BookOrder>) {
    forall k :: 0 <= k < |book| ==> book[k].price >= 0
  }

  lemma {:induction false} TotalUpdate(book: seq<BookOrder>, k: nat, x: BookOrder)
    requires k < |book|
    ensures TotalRemaining(book[k := x]) == TotalRemaining(book) - book[k].remaining + x.remaining
  {
    if k == 0 {
      assert book[0 := x][1..] == book[1..];
    } else {
      assert book[k := x][1..] == book[1..][k - 1 := x];
      TotalUpdate(book[1..], k - 1, x);
    }
  }

  // If a bid at zero trades, every positive bid is filled and only free offers are taken.
  lemma FreeBidTradeShows(buys: seq<BookOrder>, sells: seq<BookOrder>, r: BookResult, volume: int, k: nat)
    requires Ready(buys, sells) && Cleared(buys, sells, r) && Conserves(buys, sells, r, volume)
    requires k < |buys| && buys[k].price == 0 && Traded(r.buys, buys, k)
    ensures Supply(sells, 0) > Demand(buys, 1)
  {
    forall j | 0 <= j < |sells| && Traded(r.sells, sells, j) ensures sells[j].price <= 0 {
      assert Crosses(buys[k], sells[j]);
    }
    SupplyBounds(r.sells, sells, 0);
    forall j | 0 <= j < |buys| && r.buys[j].price >= 1 ensures r.buys[j].remaining == 0 {
      assert r.buys[j].price == buys[j].price;
      assert !NotBehind(buys[k], buys[j]);
    }
    var undone := r.buys[k := buys[k]];
    assert Shrunk(undone, buys);
    DemandBounds(undone, buys, 1);
    TotalUpdate(r.buys, k, buys[k]);
  }

  lemma NoFreeBidTradeShows(buys: seq<BookOrder>, sells: seq<BookOrder>, r: BookResult, volume: int)
    requires Ready(buys, sells) && Cleared(buys, sells, r) && Conserves(buys, sells, r, volume)
    requires PricesNonNegative(buys) && FreeBidWaits(buys) && !FreeBidTrades(r.buys, buys)
    ensures Supply(sells, 0) <= Demand(buys, 1)
  {
    var k :| 0 <= k < |buys| && buys[k].price == 0 && buys[k].remaining > 0;
    assert r.buys[k] == buys[k].(remaining := r.buys[k].remaining) && r.buys[k].remaining > 0;
    forall j | 0 <= j < |sells| && r.sells[j].price <= 0 ensures r.sells[j].remaining == 0 {
      assert r.sells[j].remaining > 0 ==> !Crosses(r.buys[k], r.sells[j]);
    }
    SupplyBounds(r.sells, sells, 0);
    forall j | 0 <= j < |buys| && Traded(r.buys, buys, j) ensures buys[j].price >= 1 {}
    DemandBounds(r.buys, buys, 1);
  }

  /** A bid at zero trades exactly when one is open and more is offered for nothing than
      all positive bids together take. */
  lemma FreeBidTradesIff(buys: seq<BookOrder>, sells: seq<BookOrder>)
    requires Ready(buys, sells) && PricesNonNegative(buys)
    ensures FreeBidTrades(MatchBook(buys, sells).buys, buys) <==> FreeBidWaits(buys) && Supply(sells, 0) > Demand(buys, 1)
  {
    var r := MatchBook(buys, sells);
    BookClears(buys, sells);
    BookConserves(buys, sells, r);
    if FreeBidTrades(r.buys, buys) {
      var k :| 0 <= k < |buys| && buys[k].price == 0 && r.buys[k].remaining < buys[k].remaining;
      FreeBidTradeShows(buys, sells, r, Volume(r.fills), k);
      assert buys[k].remaining > 0;
    } else if FreeBidWaits(buys) {
      NoFreeBidTradeShows(buys, sells, r, Volume(r.fills));
    }
  }

  lemma {:induction false} TakerFallsByFills(taker: BookOrder, makers: seq<BookOrder>)
    ensures var r := MatchSorted(taker, makers);
            r.taker.remaining <= taker.remaining && (r.fills != [] ==> r.taker.remaining < taker.remaining)
    decreases |makers|
  {
    if makers != [] && makers[0].remaining <= 0 {
      TakerFallsByFills(taker, makers[1..]);
    } else if makers != [] && taker.remaining > 0 && Crosses(taker, makers[0]) {
      TakerFallsByFills(Reduced(taker, Min(taker.remaining, makers[0].remaining)), makers[1..]);
    }
  }

  // The order that took part in a match as the taker ends with less than it had.
  ghost predicate TakerFell(after: seq<BookOrder>, before: seq<BookOrder>, id: OrderId) {
    |after| == |before| && exists k :: 0 <= k < |before| && before[k].id == id && after[k].remaining < before[k].remaining
  }

  lemma TakerFellLater(after: seq<BookOrder>, before: seq<BookOrder>, id: OrderId)
    requires before != [] && after != [] && TakerFell(after[1..], before[1..], id)
    ensures TakerFell(after, before, id)
  {
    var k :| 0 <= k < |before[1..]| && before[1..][k].id == id && after[1..][k].remaining < before[1..][k].remaining;
    assert before[k + 1].id == id && after[k + 1].remaining < before[k + 1].remaining;
  }

  lemma {:induction false} FillsReduceTakers(buys: seq<BookOrder>, sells: seq<BookOrder>, m: Match)
    requires m in MatchBook(buys, sells).fills
    ensures TakerFell(MatchBook(buys, sells).buys, buys, m.taker)
    decreases |buys|
  {
    var taken := MatchSorted(buys[0], SortByPriceTime(sells));
    var r := MatchBook(buys, sells);
    if m in taken.fills {
      TakerFallsByFills(buys[0], SortByPriceTime(sells));
      SameTaker(buys[0], SortByPriceTime(sells), m);
      BookLength(buys, sells);
      assert buys[0].id == m.taker && r.buys[0].remaining < buys[0].remaining;
    } else {
      FillsReduceTakers(buys[1..], taken.makers, m);
      assert r.buys[1..] == MatchBook(buys[1..], taken.makers).buys;
      TakerFellLater(r.buys, buys, m.taker);
    }
  }

  lemma {:induction false} SameTaker(taker: BookOrder, makers: seq<BookOrder>, m: Match)
    requires m in MatchSorted(taker, makers).fills
    ensures m.taker == taker.id
    decreases |makers|
  {
    if makers[0].remaining <= 0 {
      SameTaker(taker, makers[1..], m);
    } else {
      var q := Min(taker.remaining, makers[0].remaining);
      if m != Match(makers[0].id, taker.id, makers[0].price, q) {
        SameTaker(Reduced(taker, q), makers[1..], m);
      }
    }
  }

  lemma {:induction false} BookLength(buys: seq<BookOrder>, sells: seq<BookOrder>)
    ensures |MatchBook(buys, sells).buys| == |buys|
    decreases |buys|
  {
    if buys != [] {
      BookLength(buys[1..], MatchSorted(buys[0], SortByPriceTime(sells)).makers);
    }
  }

  function OpenOrders(book: seq<BookOrder>): nat {
    if book == [] then 0 else (if book[0].remaining > 0 then 1 else 0) + OpenOrders(book[1..])
  }

  // One more order than fills is used up when everything ends exhausted, because the
  // last fill then closes both of its orders.
  function LastCloses(fills: seq<Match>, openAfter: nat): nat {
    if fills != [] && openAfter == 0 then 1 else 0
  }

  ghost predicate Exhausts(openBefore: nat, openAfter: nat, fills: seq<Match>) {
    && |fills| + LastCloses(fills, openAfter) + openAfter <= openBefore
    && (fills == [] ==> openAfter == openBefore)
  }

  lemma {:induction false} TakerFillsExhaust(taker: BookOrder, makers: seq<BookOrder>, r: TakerResult)
    requires NonNegative(makers) && taker.remaining >= 0 && r == MatchSorted(taker, makers)
    ensures Exhausts(OpenOrders([taker]) + OpenOrders(makers), OpenOrders([r.taker]) + OpenOrders(r.makers), r.fills)
    decreases |makers|
  {
    if makers != [] && makers[0].remaining <= 0 {
      TakerFillsExhaust(taker, makers[1..], MatchSorted(taker, makers[1..]));
    } else if makers != [] && taker.remaining > 0 && Crosses(taker, makers[0]) {
      var q := Min(taker.remaining, makers[0].remaining);
      var smaller := Reduced(taker, q);
      TakerFillsExhaust(smaller, makers[1..], MatchSorted(smaller, makers[1..]));
      assert OpenOrders([smaller]) == if smaller.remaining > 0 then 1 else 0;
      assert OpenOrders([taker]) == 1;
      if q == taker.remaining {
        NothingToTake(smaller, makers[1..]);
      }
    }
  }

  lemma ExhaustsCompose(taker: nat, buys: nat, sells: nat, taker': nat, sellsMid: nat, buys': nat, sells': nat,
                        first: seq<Match>, rest: seq<Match>)
    requires Exhausts(taker + sells, taker' + sellsMid, first) && Exhausts(buys + sellsMid, buys' + sells', rest)
    requires rest == [] ==> sells' == sellsMid
    ensures Exhausts((taker + buys) + sells, (taker' + buys') + sells', first + rest)
  {
  }

  lemma {:induction false} NoFillsNoChange(buys: seq<BookOrder>, sells: seq<BookOrder>)
    requires Ready(buys, sells) && MatchBook(buys, sells).fills == []
    ensures MatchBook(buys, sells).sells == sells
    decreases |buys|
  {
    if buys != [] {
      SortIsIdempotent(sells);
      var taken := MatchSorted(buys[0], sells);
      MatchBookHead(buys, sells, taken, MatchBook(buys[1..], taken.makers));
      NoFillsSameMakers(buys[0], sells);
      NoFillsNoChange(buys[1..], sells);
    }
  }

  lemma {:induction false} NoFillsSameMakers(taker: BookOrder, makers: seq<BookOrder>)
    requires MatchSorted(taker, makers).fills == []
    ensures MatchSorted(taker, makers).makers == makers
    decreases |makers|
  {
    if makers != [] && makers[0].remaining <= 0 {
      NoFillsSameMakers(taker, makers[1..]);
    }
  }

  /** Each fill uses up an order, and the last fill of a fully exhausted book uses up two. */
  lemma {:induction false} BookFillsExhaust(buys: seq<BookOrder>, sells: seq<BookOrder>, r: BookResult)
    requires Ready(buys, sells) && r == MatchBook(buys, sells)
    ensures Exhausts(OpenOrders(buys) + OpenOrders(sells), OpenOrders(r.buys) + OpenOrders(r.sells), r.fills)
    decreases |buys|
  {
    if buys != [] {
      SortIsIdempotent(sells);
      var taken := MatchSorted(buys[0], sells);
      TakerFillsExhaust(buys[0], sells, taken);
      NextReady(buys, sells, taken);
      var rest := MatchBook(buys[1..], taken.makers);
      BookFillsExhaust(buys[1..], taken.makers, rest);
      MatchBookHead(buys, sells, taken, rest);
      if rest.fills == [] { NoFillsNoChange(buys[1..], taken.makers); }
      FirstBuyExhausts(buys, r.buys, OpenOrders(sells), OpenOrders(taken.makers), OpenOrders(rest.sells), taken.fills, rest.fills);
    }
  }

  lemma FirstBuyExhausts(buys: seq<BookOrder>, after: seq<BookOrder>, sells: nat, mid: nat, sells': nat,
                         fills: seq<Match>, rest: seq<Match>)
    requires buys != [] && after != [] && (rest == [] ==> sells' == mid)
    requires Exhausts(OpenOrders([buys[0]]) + sells, OpenOrders([after[0]]) + mid, fills)
    requires Exhausts(OpenOrders(buys[1..]) + mid, OpenOrders(after[1..]) + sells', rest)
    ensures Exhausts(OpenOrders(buys) + sells, OpenOrders(after) + sells', fills + rest)
  {
    var b, o, b', o' := OpenOrders([buys[0]]), OpenOrders(buys[1..]), OpenOrders([after[0]]), OpenOrders(after[1..]);
    OpenFirst(buys);
    OpenFirst(after);
    ExhaustsCompose(b, o, sells, b', mid, o', sells', fills, rest);
  }

  lemma OpenFirst(book: seq<BookOrder>)
    requires book != []
    ensures OpenOrders(book) == OpenOrders([book[0]]) + OpenOrders(book[1..])
  {
    assert [book[0]][1..] == [];
  }

  // After the first buy's walk the rest of the pass can start.
  lemma NextReady(buys: seq<BookOrder>, sells: seq<BookOrder>, taken: TakerResult)
    requires Ready(buys, sells) && buys != [] && taken == MatchSorted(buys[0], sells)
    ensures Ready(buys[1..], taken.makers)
  {
    TakerPriority(buys[0], sells);
    ReadyRest(buys, sells, taken.makers);
  }

  /** A pass that trades emits fewer fills than the book had open orders. */
  lemma FewerFillsThanOpenOrders(buys: seq<BookOrder>, sells: seq<BookOrder>)
    requires Ready(buys, sells)
    ensures var fills := MatchBook(buys, sells).fills;
            fills != [] ==> |fills| < OpenOrders(buys) + OpenOrders(sells)
  {
    var r := MatchBook(buys, sells);
    BookFillsExhaust(buys, sells, r);
  }
}

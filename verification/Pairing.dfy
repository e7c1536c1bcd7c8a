/** Who trades with whom in a matching pass, and how much: each side queues up in
    price-time order, and two crossing orders trade where their places overlap. */
module Pairing {
  import opened Domain
  import opened Clearing

  // The quantity in front of the k-th order of its side.
  function Ahead(book: seq<BookOrder>, k: nat): int
    requires k <= |book|
  {
    if k == 0 then 0 else book[0].remaining + Ahead(book[1..], k - 1)
  }

  /** Both orders are open, they cross, and their places in the two queues overlap. */
  predicate Overlap(buys: seq<BookOrder>, i: nat, sells: seq<BookOrder>, j: nat) {
    && i < |buys| && j < |sells| && buys[i].remaining > 0 && sells[j].remaining > 0 && Crosses(buys[i], sells[j])
    && Ahead(buys, i) < Ahead(sells, j) + sells[j].remaining
    && Ahead(sells, j) < Ahead(buys, i) + buys[i].remaining
  }

  // The match of an overlapping pair: its quantity is the length of the overlap.
  function Lot(buys: seq<BookOrder>, i: nat, sells: seq<BookOrder>, j: nat): Match
    requires i < |buys| && j < |sells|
  {
    var from := if Ahead(buys, i) >= Ahead(sells, j) then Ahead(buys, i) else Ahead(sells, j);
    var to := Min(Ahead(buys, i) + buys[i].remaining, Ahead(sells, j) + sells[j].remaining);
    Match(sells[j].id, buys[i].id, sells[j].price, to - from)
  }

  lemma {:induction false} AheadNonNegative(book: seq<BookOrder>, k: nat)
    requires NonNegative(book) && k <= |book|
    ensures Ahead(book, k) >= 0
  {
    if k > 0 { AheadNonNegative(book[1..], k - 1); }
  }

  lemma {:induction false} AheadNext(book: seq<BookOrder>, k: nat)
    requires k < |book|
    ensures Ahead(book, k + 1) == Ahead(book, k) + book[k].remaining
  {
    if k > 0 { AheadNext(book[1..], k - 1); }
  }

  lemma {:induction false} AheadGrows(book: seq<BookOrder>, j: nat, k: nat)
    requires NonNegative(book) && j <= k <= |book|
    ensures Ahead(book, j) <= Ahead(book, k)
    decreases k
  {
    if j < k {
      AheadGrows(book, j, k - 1);
      AheadNext(book, k - 1);
    }
  }

  // --- One buy's walk ----------------------------------------------------------------------------

  // The maker's place begins before the taker is filled.
  predicate Reaches(taker: BookOrder, makers: seq<BookOrder>, j: nat) {
    && j < |makers| && makers[j].remaining > 0 && Crosses(taker, makers[j]) && Ahead(makers, j) < taker.remaining
  }

  function Share(taker: BookOrder, makers: seq<BookOrder>, j: nat): Match
    requires j < |makers|
  {
    Match(makers[j].id, taker.id, makers[j].price,
          Min(taker.remaining, Ahead(makers, j) + makers[j].remaining) - Ahead(makers, j))
  }

  ghost predicate IsShare(taker: BookOrder, makers: seq<BookOrder>, m: Match) {
    exists j: nat :: Reaches(taker, makers, j) && m == Share(taker, makers, j)
  }

  lemma MakersRest(makers: seq<BookOrder>, side: Side)
    requires Makers(makers, side) && makers != []
    ensures Makers(makers[1..], side)
  {
  }

  // A later maker's share, before and after the head has given its part.
  lemma ShareAfterHead(taker: BookOrder, makers: seq<BookOrder>, q: int, j: nat)
    requires NonNegative(makers) && makers != [] && j < |makers[1..]| && 0 <= q <= taker.remaining
    requires q == makers[0].remaining || (q == taker.remaining && q < makers[0].remaining)
    ensures Reaches(Reduced(taker, q), makers[1..], j) <==> Reaches(taker, makers, j + 1)
    ensures Reaches(taker, makers, j + 1) ==> Share(Reduced(taker, q), makers[1..], j) == Share(taker, makers, j + 1)
  {
    AheadNonNegative(makers[1..], j);
    assert Crosses(Reduced(taker, q), makers[1..][j]) <==> Crosses(taker, makers[j + 1]);
  }

  lemma SharesAfterHead(taker: BookOrder, makers: seq<BookOrder>, q: int, m: Match)
    requires NonNegative(makers) && makers != [] && 0 <= q <= taker.remaining
    requires q == makers[0].remaining || (q == taker.remaining && q < makers[0].remaining)
    ensures IsShare(taker, makers, m) <==>
              (Reaches(taker, makers, 0) && m == Share(taker, makers, 0)) || IsShare(Reduced(taker, q), makers[1..], m)
  {
    if IsShare(taker, makers, m) {
      var j: nat :| Reaches(taker, makers, j) && m == Share(taker, makers, j);
      if j > 0 { ShareAfterHead(taker, makers, q, j - 1); }
    }
    if IsShare(Reduced(taker, q), makers[1..], m) {
      var j: nat :| Reaches(Reduced(taker, q), makers[1..], j) && m == Share(Reduced(taker, q), makers[1..], j);
      ShareAfterHead(taker, makers, q, j);
      assert Reaches(taker, makers, j + 1);
    }
  }

  lemma NoShares(taker: BookOrder, makers: seq<BookOrder>, m: Match)
    requires Makers(makers, Sell) && taker.side == Buy && makers != [] && (taker.remaining <= 0 || !Crosses(taker, makers[0]))
    ensures !IsShare(taker, makers, m)
  {
    forall j | 0 <= j < |makers| ensures !Reaches(taker, makers, j) {
      AheadNonNegative(makers, j);
      assert j == 0 || NotBehind(makers[0], makers[j]);
    }
  }

  /** One buy takes from each sell exactly its share. */
  lemma {:induction false} TakerTakesShares(taker: BookOrder, makers: seq<BookOrder>, m: Match)
    requires Makers(makers, Sell) && taker.side == Buy && taker.remaining >= 0
    ensures m in MatchSorted(taker, makers).fills <==> IsShare(taker, makers, m)
    decreases |makers|
  {
    if makers == [] {
    } else if makers[0].remaining <= 0 {
      MakersRest(makers, Sell);
      TakerTakesShares(taker, makers[1..], m);
      SharesAfterHead(taker, makers, 0, m);
      assert Reduced(taker, 0) == taker;
    } else if taker.remaining <= 0 || !Crosses(taker, makers[0]) {
      NoShares(taker, makers, m);
    } else {
      var q := Min(taker.remaining, makers[0].remaining);
      MakersRest(makers, Sell);
      TakerTakesShares(Reduced(taker, q), makers[1..], m);
      SharesAfterHead(taker, makers, q, m);
    }
  }

  // What a walk leaves of each place: it is taken from the front.
  lemma {:induction false} TakenFromFront(taker: BookOrder, makers: seq<BookOrder>, j: nat)
    requires NonNegative(makers) && taker.remaining >= 0 && j <= |makers|
    ensures var r := MatchSorted(taker, makers);
            var taken := taker.remaining - r.taker.remaining;
            && |r.makers| == |makers| && 0 <= taken <= taker.remaining
            && Ahead(r.makers, j) == if Ahead(makers, j) >= taken then Ahead(makers, j) - taken else 0
    decreases |makers|
  {
    AheadNonNegative(makers, j);
    if makers == [] {
    } else if makers[0].remaining <= 0 {
      TakenFromFront(taker, makers[1..], if j > 0 then j - 1 else 0);
    } else if taker.remaining <= 0 || !Crosses(taker, makers[0]) {
    } else {
      var q := Min(taker.remaining, makers[0].remaining);
      TakenFromFront(Reduced(taker, q), makers[1..], if j > 0 then j - 1 else 0);
      if j > 0 { AheadNonNegative(makers[1..], j - 1); }
    }
  }

  // --- The whole pass ------------------------------------------------------------------------------

  ghost predicate IsLot(buys: seq<BookOrder>, sells: seq<BookOrder>, m: Match) {
    exists i: nat, j: nat :: Overlap(buys, i, sells, j) && m == Lot(buys, i, sells, j)
  }

  lemma FirstBuyLots(buys: seq<BookOrder>, sells: seq<BookOrder>, j: nat)
    requires buys != [] && NonNegative(sells) && j < |sells|
    ensures Overlap(buys, 0, sells, j) <==> Reaches(buys[0], sells, j)
    ensures Overlap(buys, 0, sells, j) ==> Lot(buys, 0, sells, j) == Share(buys[0], sells, j)
  {
    AheadNonNegative(sells, j);
  }

  // The sells after the first buy's walk, as the places of the others see them.
  ghost predicate Advanced(buys: seq<BookOrder>, sells: seq<BookOrder>, makers: seq<BookOrder>, taken: int, j: nat) {
    && buys != [] && j < |sells| && |makers| == |sells| && 0 <= taken <= buys[0].remaining
    && makers[j] == sells[j].(remaining := makers[j].remaining)
    && Ahead(makers, j) == (if Ahead(sells, j) >= taken then Ahead(sells, j) - taken else 0)
    && Ahead(makers, j) + makers[j].remaining
         == (if Ahead(sells, j) + sells[j].remaining >= taken then Ahead(sells, j) + sells[j].remaining - taken else 0)
    // Short of its quantity, the first buy has emptied every place that it crosses.
    && (taken < buys[0].remaining && Crosses(buys[0], sells[j]) ==> makers[j].remaining == 0)
  }

  lemma LaterLots(buys: seq<BookOrder>, sells: seq<BookOrder>, makers: seq<BookOrder>, taken: int, i: nat, j: nat)
    requires Ready(buys, sells) && buys != [] && i < |buys[1..]| && Advanced(buys, sells, makers, taken, j)
    ensures Overlap(buys[1..], i, makers, j) <==> Overlap(buys, i + 1, sells, j)
    ensures Overlap(buys, i + 1, sells, j) ==> Lot(buys[1..], i, makers, j) == Lot(buys, i + 1, sells, j)
  {
    AheadNonNegative(buys[1..], i);
    AheadNonNegative(sells, j);
    assert Ahead(buys, i + 1) == buys[0].remaining + Ahead(buys[1..], i);
    assert NotBehind(buys[0], buys[i + 1]);
    assert Crosses(buys[i + 1], sells[j]) ==> Crosses(buys[0], sells[j]);
  }

  lemma WalkAdvances(buys: seq<BookOrder>, sells: seq<BookOrder>, r: TakerResult, j: nat)
    requires Ready(buys, sells) && buys != [] && r == MatchSorted(buys[0], sells) && j < |sells|
    ensures Advanced(buys, sells, r.makers, buys[0].remaining - r.taker.remaining, j)
  {
    TakerPriority(buys[0], sells);
    TakenFromFront(buys[0], sells, j);
    TakenFromFront(buys[0], sells, j + 1);
    AheadNext(sells, j);
    AheadNext(r.makers, j);
    assert [r.taker][0].remaining >= 0;
  }

  lemma LotsSplit(buys: seq<BookOrder>, sells: seq<BookOrder>, makers: seq<BookOrder>, taken: int, m: Match)
    requires Ready(buys, sells) && buys != [] && |makers| == |sells|
    requires forall j :: 0 <= j < |sells| ==> Advanced(buys, sells, makers, taken, j)
    ensures IsLot(buys, sells, m) <==> IsShare(buys[0], sells, m) || IsLot(buys[1..], makers, m)
  {
    if IsLot(buys, sells, m) {
      var i: nat, j: nat :| Overlap(buys, i, sells, j) && m == Lot(buys, i, sells, j);
      if i == 0 { FirstBuyLots(buys, sells, j); } else { LaterLots(buys, sells, makers, taken, i - 1, j); }
    }
    if IsShare(buys[0], sells, m) {
      var j: nat :| Reaches(buys[0], sells, j) && m == Share(buys[0], sells, j);
      FirstBuyLots(buys, sells, j);
    }
    if IsLot(buys[1..], makers, m) {
      var i: nat, j: nat :| Overlap(buys[1..], i, makers, j) && m == Lot(buys[1..], i, makers, j);
      LaterLots(buys, sells, makers, taken, i, j);
    }
  }

  /** A pass trades exactly the overlaps of the two queues: a buy and a sell have a match if
      and only if both are open, they cross and their places overlap, and its quantity is
      the length of the overlap. */
  lemma {:induction false} PassTradesOverlaps(buys: seq<BookOrder>, sells: seq<BookOrder>, m: Match)
    requires Ready(buys, sells)
    ensures m in MatchBook(buys, sells).fills <==> IsLot(buys, sells, m)
    decreases |buys|
  {
    if buys != [] {
      SortIsIdempotent(sells);
      var taken := MatchSorted(buys[0], sells);
      NextReady(buys, sells, taken);
      TakerTakesShares(buys[0], sells, m);
      PassTradesOverlaps(buys[1..], taken.makers, m);
      var gone := buys[0].remaining - taken.taker.remaining;
      forall j | 0 <= j < |sells| ensures Advanced(buys, sells, taken.makers, gone, j) {
        WalkAdvances(buys, sells, taken, j);
      }
      TakenFromFront(buys[0], sells, 0);
      LotsSplit(buys, sells, taken.makers, gone, m);
      MatchBookHead(buys, sells, taken, MatchBook(buys[1..], taken.makers));
    }
  }
}

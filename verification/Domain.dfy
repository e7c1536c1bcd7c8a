/** Order types, validation and the matching rules (crates/domain/src/lib.rs). */
module Domain {
  import opened FixedPoint

  datatype Option<+T> = None | Some(value: T)

  datatype Side = Buy | Sell
  datatype OrderType = Market | Limit
  datatype OrderStatus = Open | PartiallyFilled | Filled | Cancelled

  type UserId = nat
  type Currency = string

  // An instrument's name, such as BTC-USD: a base and a quote currency.
  type Symbol = s: string | '-' in s witness "-"

  function IndexOfDash(s: string, from: nat): (i: nat)
    requires from <= |s|
    ensures from <= i <= |s|
    ensures '-' in s[from..] ==> i < |s| && s[i] == '-'
    decreases |s| - from
  {
    if from == |s| || s[from] == '-' then from else
      assert s[from..] == [s[from]] + s[from + 1..];
      IndexOfDash(s, from + 1)
  }

  function Base(symbol: Symbol): Currency {
    symbol[..IndexOfDash(symbol, 0)]
  }

  function Quote(symbol: Symbol): Currency {
    assert symbol[0..] == symbol;
    var first := IndexOfDash(symbol, 0);
    symbol[first + 1..IndexOfDash(symbol, first + 1)]
  }

  lemma {:induction false} FirstDash(s: string, from: nat, k: nat)
    requires from <= |s| && from <= k < IndexOfDash(s, from)
    ensures s[k] != '-'
    decreases |s| - from
  {
    if from < k { FirstDash(s, from + 1, k); }
  }

  /** The base is what stands before the first dash, the quote what follows it up to the
      next dash or the end. */
  lemma SymbolSplits(s: Symbol)
    ensures '-' !in Base(s) && '-' !in Quote(s)
    ensures var pair := Base(s) + "-" + Quote(s); pair <= s && (s == pair || s[|pair|] == '-')
  {
    assert s[0..] == s;
    var first := IndexOfDash(s, 0);
    var next := IndexOfDash(s, first + 1);
    forall k | 0 <= k < first ensures s[k] != '-' { FirstDash(s, 0, k); }
    forall k | first + 1 <= k < next ensures s[k] != '-' { FirstDash(s, first + 1, k); }
    assert Base(s) + "-" + Quote(s) == s[..next];
    DashAt(s, first + 1);
  }

  lemma {:induction false} DashAt(s: string, from: nat)
    requires from <= |s|
    ensures IndexOfDash(s, from) < |s| ==> s[IndexOfDash(s, from)] == '-'
    decreases |s| - from
  {
    if from < |s| && s[from] != '-' { DashAt(s, from + 1); }
  }

  /** Users' orders are keyed the way the orders table is unique: by user and client
      order id. The simulator's orders draw a fresh number instead. */
  datatype OrderId = UserOrder(user: UserId, clientId: string) | SystemOrder(number: nat)

  // A decimal number as it arrives in a request: mantissa / 10^scale.
  datatype Decimal = Decimal(mantissa: int, scale: nat)

  datatype NewOrder = NewOrder(clientOrderId: string, instrument: string, side: Side, orderType: OrderType,
                               quantity: Decimal, limitPrice: Option<Decimal>)

  datatype OrderError = BadQuantity | BadIdentifier | BadLimitPrice
  datatype Validation = Valid | Refused(error: OrderError)

  // The value in units of 1e-10.
  function Units(d: Decimal): int
    requires d.scale <= 10
  {
    d.mantissa * Pow10(10 - d.scale)
  }

  predicate Above(d: Decimal, bound: nat) {
    d.mantissa > bound * Pow10(d.scale)
  }

  function Validate(order: NewOrder): Validation {
    if order.clientOrderId == "" || |order.clientOrderId| > 128
       || |order.instrument| > 32 || '-' !in order.instrument then Refused(BadIdentifier)
    else if order.quantity.mantissa <= 0 || Above(order.quantity, 1_000_000) || order.quantity.scale > 10 then
      Refused(BadQuantity)
    else match (order.orderType, order.limitPrice)
      case (Market, None) => Valid
      case (Limit, Some(price)) =>
        if price.mantissa > 0 && !Above(price, 1_000_000_000_000) && price.scale <= 10 then Valid
        else Refused(BadLimitPrice)
      case _ => Refused(BadLimitPrice)
  }

  /** The units are the number the mantissa and scale stand for. */
  lemma UnitsExact(d: Decimal)
    requires d.scale <= 10
    ensures Units(d) * Pow10(d.scale) == d.mantissa * ONE
  {
    PowersMultiply(10 - d.scale, d.scale);
    assert Pow10(10) == ONE;
    assert (d.mantissa * Pow10(10 - d.scale)) * Pow10(d.scale) == d.mantissa * (Pow10(10 - d.scale) * Pow10(d.scale));
  }

  lemma {:induction false} PowersMultiply(a: nat, b: nat)
    ensures Pow10(a) * Pow10(b) == Pow10(a + b)
    decreases a
  {
    if a > 0 {
      PowersMultiply(a - 1, b);
      assert Pow10(a) * Pow10(b) == 10 * (Pow10(a - 1) * Pow10(b));
    }
  }

  lemma ScalingKeepsOrder(m: int, cap: int, p: int)
    requires p >= 1
    ensures m * p <= cap * p <==> m <= cap
  {
    if m <= cap {
      MultiplyMonotone(p, m, cap);
    } else {
      MultiplyMonotone(p, cap + 1, m);
      assert p * (cap + 1) == p * cap + p;
    }
  }

  lemma BoundInUnits(bound: nat, scale: nat)
    requires scale <= 10
    ensures (bound * Pow10(scale)) * Pow10(10 - scale) == bound * ONE
  {
    PowersMultiply(scale, 10 - scale);
    assert Pow10(10) == ONE;
    assert (bound * Pow10(scale)) * Pow10(10 - scale) == bound * (Pow10(scale) * Pow10(10 - scale));
  }

  lemma UnitsBounded(d: Decimal, bound: nat)
    requires d.scale <= 10
    ensures d.mantissa > 0 && !Above(d, bound) <==> 0 < Units(d) <= bound * ONE
  {
    ScalingKeepsOrder(d.mantissa, 0, Pow10(10 - d.scale));
    ScalingKeepsOrder(d.mantissa, bound * Pow10(d.scale), Pow10(10 - d.scale));
    BoundInUnits(bound, d.scale);
  }

  predicate AmountOk(d: Decimal, bound: nat) {
    d.scale <= 10 && 0 < Units(d) <= bound * ONE
  }

  /** What acceptance asks for and gives the rest of the exchange: an identifier and a pair
      of sensible length, a positive bounded quantity of at most ten decimals, and such a
      price on exactly the limit orders. */
  lemma ValidOrderIff(order: NewOrder)
    ensures Validate(order) == Valid
       <==> && 0 < |order.clientOrderId| <= 128 && |order.instrument| <= 32 && '-' in order.instrument
            && AmountOk(order.quantity, 1_000_000)
            && (order.orderType == Limit <==> order.limitPrice.Some?)
            && (order.limitPrice.Some? ==> AmountOk(order.limitPrice.value, 1_000_000_000_000))
  {
    if order.quantity.scale <= 10 {
      UnitsBounded(order.quantity, 1_000_000);
    }
    if order.limitPrice.Some? && order.limitPrice.value.scale <= 10 {
      UnitsBounded(order.limitPrice.value, 1_000_000_000_000);
    }
  }

  lemma ValidOrderIsBounded(order: NewOrder)
    requires Validate(order) == Valid
    ensures order.quantity.scale <= 10 && 0 < Units(order.quantity) <= 1_000_000 * ONE
    ensures order.orderType == Limit <==> order.limitPrice.Some?
    ensures order.limitPrice.Some? ==>
              order.limitPrice.value.scale <= 10 && 0 < Units(order.limitPrice.value) <= 1_000_000_000_000 * ONE
  {
    ValidOrderIff(order);
  }

  datatype BookOrder = BookOrder(id: OrderId, side: Side, price: int, remaining: int, sequence: nat)
  datatype Match = Match(maker: OrderId, taker: OrderId, price: int, quantity: int)

  predicate Crosses(taker: BookOrder, maker: BookOrder) {
    match taker.side
    case Buy => taker.price >= maker.price
    case Sell => taker.price <= maker.price
  }

  datatype Ordering = Less | Equal | Greater

  function Compare(a: int, b: int): Ordering {
    if a < b then Less else if a == b then Equal else Greater
  }

  /** Better prices first; at the same price, older orders first. */
  function PriceTime(first: BookOrder, second: BookOrder): Ordering {
    var byPrice := match first.side
      case Buy => Compare(second.price, first.price)
      case Sell => Compare(first.price, second.price);
    if byPrice == Equal then Compare(first.sequence, second.sequence) else byPrice
  }

  /** One order is ahead of another of its side if its price is better, or the same and it
      is older. */
  lemma AheadIff(first: BookOrder, second: BookOrder)
    requires first.side == second.side
    ensures PriceTime(first, second) == Less <==>
              || (first.side == Buy && first.price > second.price)
              || (first.side == Sell && first.price < second.price)
              || (first.price == second.price && first.sequence < second.sequence)
    ensures PriceTime(first, second) == Equal <==> first.price == second.price && first.sequence == second.sequence
  {
  }

  predicate NotBehind(a: BookOrder, b: BookOrder) {
    PriceTime(a, b) != Greater
  }

  predicate OneSided(book: seq<BookOrder>, side: Side) {
    forall k :: 0 <= k < |book| ==> book[k].side == side
  }

  ghost predicate Sorted(book: seq<BookOrder>) {
    forall i, j :: 0 <= i < j < |book| ==> NotBehind(book[i], book[j])
  }

  function InsertByPriceTime(x: BookOrder, book: seq<BookOrder>): (r: seq<BookOrder>)
    ensures multiset(r) == multiset{x} + multiset(book)
  {
    if book == [] || NotBehind(x, book[0]) then [x] + book
    else
      assert book == [book[0]] + book[1..];
      [book[0]] + InsertByPriceTime(x, book[1..])
  }

  /** The library's stable sort with the price_time comparison. */
  function SortByPriceTime(book: seq<BookOrder>): (r: seq<BookOrder>)
    ensures multiset(r) == multiset(book)
    ensures |r| == |book|
  {
    if book == [] then [] else
      assert book == [book[0]] + book[1..];
      var r := InsertByPriceTime(book[0], SortByPriceTime(book[1..]));
      assert |r| == |multiset(r)|;
      assert |book| == |multiset(book)|;
      r
  }

  lemma SameElements(a: seq<BookOrder>, b: seq<BookOrder>)
    requires multiset(a) == multiset(b)
    ensures forall x :: x in a <==> x in b
  {
    assert forall x :: x in a <==> x in multiset(a);
    assert forall x :: x in b <==> x in multiset(b);
  }

  lemma {:induction false} InsertSorted(x: BookOrder, book: seq<BookOrder>)
    requires Sorted(book) && OneSided(book, x.side)
    ensures Sorted(InsertByPriceTime(x, book))
  {
    if book == [] || NotBehind(x, book[0]) {
    } else {
      InsertSorted(x, book[1..]);
      var rest := InsertByPriceTime(x, book[1..]);
      SameElements(rest, [x] + book[1..]);
      assert forall k :: 0 <= k < |rest| ==> rest[k] in [x] + book[1..];
    }
  }

  lemma {:induction false} SortSorts(book: seq<BookOrder>, side: Side)
    requires OneSided(book, side)
    ensures Sorted(SortByPriceTime(book)) && OneSided(SortByPriceTime(book), side)
    ensures forall x :: x in SortByPriceTime(book) <==> x in book
  {
    SameElements(SortByPriceTime(book), book);
    if book != [] {
      SortSorts(book[1..], side);
      InsertSorted(book[0], SortByPriceTime(book[1..]));
      var r := SortByPriceTime(book);
      forall k | 0 <= k < |r| ensures r[k].side == side { assert r[k] in book; }
    }
  }

  /** Sorting a sorted book changes nothing, so re-sorting on every call is harmless. */
  lemma {:induction false} SortIsIdempotent(book: seq<BookOrder>)
    requires Sorted(book)
    ensures SortByPriceTime(book) == book
  {
    if book != [] {
      SortIsIdempotent(book[1..]);
      assert book == [book[0]] + book[1..];
    }
  }

  predicate DistinctSequences(book: seq<BookOrder>) {
    forall i, j :: 0 <= i < j < |book| ==> book[i].sequence != book[j].sequence
  }

  lemma SameFirst(a: seq<BookOrder>, b: seq<BookOrder>, side: Side)
    requires Sorted(a) && Sorted(b) && OneSided(a, side) && OneSided(b, side) && a != [] && b != []
    requires multiset(a) == multiset(b) && DistinctSequences(a)
    ensures a[0] == b[0]
  {
    SameElements(a, b);
    assert b[0] in a && a[0] in b;
    var i :| 0 <= i < |b| && b[i] == a[0];
    var j :| 0 <= j < |a| && a[j] == b[0];
    assert i == 0 || NotBehind(b[0], b[i]);
    assert j == 0 || NotBehind(a[0], a[j]);
    assert a[0].sequence == a[j].sequence;
  }

  lemma SameLength(a: seq<BookOrder>, b: seq<BookOrder>)
    requires multiset(a) == multiset(b)
    ensures |a| == |b|
  {
    assert |multiset(a)| == |a| && |multiset(b)| == |b|;
  }

  lemma SameTail(a: seq<BookOrder>, b: seq<BookOrder>)
    requires a != [] && b != [] && a[0] == b[0] && multiset(a) == multiset(b)
    ensures multiset(a[1..]) == multiset(b[1..])
  {
    assert a == [a[0]] + a[1..] && b == [b[0]] + b[1..];
    assert multiset(a[1..]) == multiset(a) - multiset{a[0]};
    assert multiset(b[1..]) == multiset(b) - multiset{b[0]};
  }

  /** Price-time order is total on distinct sequences: two sorted books with the same
      orders are the same list. */
  lemma {:induction false} SortedIsUnique(a: seq<BookOrder>, b: seq<BookOrder>, side: Side)
    requires Sorted(a) && Sorted(b) && OneSided(a, side) && OneSided(b, side)
    requires multiset(a) == multiset(b) && DistinctSequences(a)
    ensures a == b
  {
    SameLength(a, b);
    if a != [] {
      SameFirst(a, b, side);
      SameTail(a, b);
      SortedIsUnique(a[1..], b[1..], side);
      assert a == [a[0]] + a[1..] && b == [b[0]] + b[1..];
    }
  }

  /** Same-side makers may arrive in any order: the sorted book, and so every fill and
      remainder of match_taker, is the same. */
  lemma MatchingIgnoresBookOrder(taker: BookOrder, makers: seq<BookOrder>, shuffled: seq<BookOrder>, side: Side)
    requires OneSided(makers, side) && DistinctSequences(makers) && multiset(makers) == multiset(shuffled)
    ensures MatchSorted(taker, SortByPriceTime(makers)) == MatchSorted(taker, SortByPriceTime(shuffled))
  {
    SameElements(makers, shuffled);
    assert OneSided(shuffled, side) by {
      forall k | 0 <= k < |shuffled| ensures shuffled[k].side == side { assert shuffled[k] in makers; }
    }
    SortSorts(makers, side);
    SortSorts(shuffled, side);
    var sorted := SortByPriceTime(makers);
    DistinctIsOrderFree(makers, sorted);
    SortedIsUnique(sorted, SortByPriceTime(shuffled), side);
  }

  lemma DistinctIsOrderFree(a: seq<BookOrder>, b: seq<BookOrder>)
    requires multiset(a) == multiset(b) && DistinctSequences(a)
    ensures DistinctSequences(b)
  {
    forall i, j | 0 <= i < j < |b| ensures b[i].sequence != b[j].sequence {
      SameElements(a, b);
      assert b[i] in a && b[j] in a;
      if b[i] == b[j] {
        OccursTwice(b, i, j);
        OccursOnce(a, b[i]);
      }
    }
  }

  lemma OccursTwice(b: seq<BookOrder>, i: nat, j: nat)
    requires i < j < |b| && b[i] == b[j]
    ensures multiset(b)[b[i]] >= 2
  {
    assert b == b[..j] + b[j..];
    assert multiset(b) == multiset(b[..j]) + multiset(b[j..]);
    assert b[..j][i] == b[i] && b[j..][0] == b[i];
    assert b[i] in b[..j] && b[i] in b[j..];
  }

  lemma {:induction false} OccursOnce(a: seq<BookOrder>, x: BookOrder)
    requires DistinctSequences(a)
    ensures multiset(a)[x] <= 1
  {
    if a != [] {
      assert a == [a[0]] + a[1..];
      OccursOnce(a[1..], x);
      assert forall k :: 0 <= k < |a[1..]| ==> a[1..][k].sequence != a[0].sequence;
    }
  }

  datatype TakerResult = TakerResult(taker: BookOrder, makers: seq<BookOrder>, fills: seq<Match>)

  /** Greedy matching down an already sorted list of makers. */
  function MatchSorted(taker: BookOrder, makers: seq<BookOrder>): TakerResult
    decreases |makers|
  {
    if makers == [] then TakerResult(taker, [], [])
    else if makers[0].remaining <= 0 then
      var r := MatchSorted(taker, makers[1..]);
      TakerResult(r.taker, [makers[0]] + r.makers, r.fills)
    else if taker.remaining <= 0 || !Crosses(taker, makers[0]) then TakerResult(taker, makers, [])
    else
      var quantity := Min(taker.remaining, makers[0].remaining);
      var r := MatchSorted(Reduced(taker, quantity), makers[1..]);
      TakerResult(r.taker, [Reduced(makers[0], quantity)] + r.makers,
                  [Match(makers[0].id, taker.id, makers[0].price, quantity)] + r.fills)
  }

  function Min(a: int, b: int): int {
    if a <= b then a else b
  }

  function Reduced(order: BookOrder, quantity: int): BookOrder {
    order.(remaining := order.remaining - quantity)
  }

  function Prepend(makers: seq<BookOrder>, fills: seq<Match>, r: TakerResult): TakerResult {
    TakerResult(r.taker, makers + r.makers, fills + r.fills)
  }

  // The final result, when the first k makers and these fills are already decided.
  ghost predicate Remains(goal: TakerResult, book: seq<BookOrder>, k: nat, fills: seq<Match>, taker: BookOrder)
    requires k <= |book|
  {
    goal == Prepend(book[..k], fills, MatchSorted(taker, book[k..]))
  }

  lemma Undecided(goal: TakerResult, book: seq<BookOrder>, taker: BookOrder)
    requires goal == MatchSorted(taker, book)
    ensures Remains(goal, book, 0, [], taker)
  {
    assert book[0..] == book;
  }

  lemma Decided(goal: TakerResult, book: seq<BookOrder>, fills: seq<Match>, taker: BookOrder)
    requires Remains(goal, book, |book|, fills, taker)
    ensures goal == TakerResult(taker, book, fills)
  {
    assert book[..|book|] == book && book[|book|..] == [];
  }

  /** One pass of the matching loop decides the next maker. */
  lemma MatchStep(goal: TakerResult, book: seq<BookOrder>, k: nat, fills: seq<Match>, taker: BookOrder)
    requires k < |book| && Remains(goal, book, k, fills, taker)
    ensures var maker := book[k];
            if maker.remaining <= 0 then Remains(goal, book, k + 1, fills, taker)
            else if taker.remaining <= 0 || !Crosses(taker, maker) then goal == TakerResult(taker, book, fills)
            else
              var q := Min(taker.remaining, maker.remaining);
              Remains(goal, book[k := Reduced(maker, q)], k + 1, fills + [Match(maker.id, taker.id, maker.price, q)],
                      Reduced(taker, q))
  {
    var maker := book[k];
    assert book[k..] == [maker] + book[k + 1..];
    if maker.remaining <= 0 {
      var r := MatchSorted(taker, book[k + 1..]);
      assert book[..k] + ([maker] + r.makers) == book[..k + 1] + r.makers;
    } else if taker.remaining <= 0 || !Crosses(taker, maker) {
      assert book[..k] + book[k..] == book;
    } else {
      var q := Min(taker.remaining, maker.remaining);
      var book' := book[k := Reduced(maker, q)];
      var r := MatchSorted(Reduced(taker, q), book[k + 1..]);
      assert book'[k + 1..] == book[k + 1..];
      assert book[..k] + ([Reduced(maker, q)] + r.makers) == book'[..k + 1] + r.makers;
      var m := Match(maker.id, taker.id, maker.price, q);
      assert fills + ([m] + r.fills) == (fills + [m]) + r.fills;
    }
  }

  /** match_taker: sort the makers in place, then walk down the list, reducing the taker
      and each maker it trades with. */
  method MatchTaker(taker: BookOrder, makers: array<BookOrder>) returns (taken: BookOrder, fills: seq<Match>)
    modifies makers
    ensures TakerResult(taken, makers[..], fills) == MatchSorted(taker, SortByPriceTime(old(makers[..])))
  {
    Sort(makers);
    ghost var goal := MatchSorted(taker, makers[..]);
    taken, fills := taker, [];
    Undecided(goal, makers[..], taker);
    for k := 0 to makers.Length
      invariant Remains(goal, makers[..], k, fills, taken)
    {
      var maker := makers[k];
      MatchStep(goal, makers[..], k, fills, taken);
      if maker.remaining <= 0 {
        continue;
      }
      if taken.remaining <= 0 || !Crosses(taken, maker) {
        return;
      }
      var quantity := Min(taken.remaining, maker.remaining);
      UpdateAt(makers, k, Reduced(maker, quantity));
      fills := fills + [Match(maker.id, taken.id, maker.price, quantity)];
      taken := Reduced(taken, quantity);
    }
    Decided(goal, makers[..], fills, taken);
  }

  method UpdateAt(makers: array<BookOrder>, k: nat, x: BookOrder)
    requires k < makers.Length
    modifies makers
    ensures makers[..] == old(makers[..])[k := x]
  {
    makers[k] := x;
  }

  method Sort(makers: array<BookOrder>)
    modifies makers
    ensures makers[..] == SortByPriceTime(old(makers[..]))
  {
    var sorted := SortByPriceTime(makers[..]);
    forall k | 0 <= k < makers.Length { makers[k] := sorted[k]; }
    assert makers[..] == sorted;
  }

  /** An execution trades at the resting limit, or at the reference when both sides are
      market orders; the zero price of a market sell is never used against a bid. */
  function ExecutionPrice(buy: BookOrder, sell: BookOrder, buyType: OrderType, sellType: OrderType, reference: int): int {
    match (buyType, sellType)
    case (Market, Market) => Min(reference, buy.price)
    case (_, Market) => buy.price
    case (Market, _) => sell.price
    case _ => if buy.sequence < sell.sequence then buy.price else sell.price
  }

  /** Every execution price is within both limits, and positive unless an order that
      states a price states zero. Between limit orders the older one trades at exactly its
      limit; a market order never sets the price against a limit order; two market orders
      trade at the reference, or at the buy's cap where that is lower. */
  lemma ExecutionPriceWithinLimits(buy: BookOrder, sell: BookOrder, buyType: OrderType, sellType: OrderType, reference: int)
    requires buy.side == Buy && Crosses(buy, sell) && reference > 0
    requires buy.price >= 0 && sell.price >= 0 && (sellType == Market ==> sell.price == 0)
    ensures sell.price <= ExecutionPrice(buy, sell, buyType, sellType, reference) <= buy.price
    ensures buy.price > 0 && (sellType == Limit ==> sell.price > 0) ==>
              ExecutionPrice(buy, sell, buyType, sellType, reference) > 0
    ensures buyType == sellType == Limit ==>
              ExecutionPrice(buy, sell, buyType, sellType, reference) == (if sell.sequence <= buy.sequence then sell else buy).price
    ensures buyType != sellType ==>
              ExecutionPrice(buy, sell, buyType, sellType, reference) == (if buyType == Limit then buy else sell).price
    ensures buyType == sellType == Market ==>
              var price := ExecutionPrice(buy, sell, buyType, sellType, reference);
              price <= reference && price <= buy.price && (price == reference || price == buy.price)
  {
  }
}

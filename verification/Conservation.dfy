/** How much of a currency all accounts hold together, and what can change it. */
module Conservation {
  import opened FixedPoint
  import opened Sums
  import opened Domain
  import opened State
  import opened Settlement
  import opened Matching
  import opened Tick
  import opened Trading
  import opened Members
  import opened Commands
  import opened Runs

  ghost function HeldOf(accounts: map<AccountKey, Account>, c: Currency): AccountKey -> int {
    (key: AccountKey) => if key in accounts && key.1 == c then accounts[key].available + accounts[key].reserved else 0
  }

  /** Everything held in a currency, available or reserved. */
  ghost function CurrencyTotal(accounts: map<AccountKey, Account>, c: Currency): int {
    Sum(accounts.Keys, HeldOf(accounts, c))
  }

  function PostingTotal(ps: seq<Posting>, c: Currency): int {
    if ps == [] then 0 else (if ps[0].currency == c then ps[0].available + ps[0].reserved else 0) + PostingTotal(ps[1..], c)
  }

  predicate AllExist(accounts: map<AccountKey, Account>, ps: seq<Posting>) {
    forall p :: p in ps ==> (p.user, p.currency) in accounts
  }

  lemma OnePostingTotal(accounts: map<AccountKey, Account>, p: Posting, c: Currency)
    requires (p.user, p.currency) in accounts
    ensures CurrencyTotal(Adjust(accounts, [p]), c)
         == CurrencyTotal(accounts, c) + (if p.currency == c then p.available + p.reserved else 0)
  {
    var after := Adjust(accounts, [p]);
    forall key | key in accounts
      ensures HeldOf(after, c)(key) == HeldOf(accounts, c)(key)
                + (if key == (p.user, p.currency) && key.1 == c then p.available + p.reserved else 0)
    {
      OnePosting(p, key);
    }
    assert after.Keys == accounts.Keys;
    SumChange(accounts.Keys, HeldOf(accounts, c), HeldOf(after, c), (p.user, p.currency));
  }

  lemma {:induction false} PostingsMoveTotal(accounts: map<AccountKey, Account>, ps: seq<Posting>, c: Currency)
    requires AllExist(accounts, ps)
    ensures CurrencyTotal(Adjust(accounts, ps), c) == CurrencyTotal(accounts, c) + PostingTotal(ps, c)
    decreases |ps|
  {
    if ps == [] {
      assert Adjust(accounts, ps) == accounts;
    } else {
      assert ps[0] in ps && ps == [ps[0]] + ps[1..];
      var first := Adjust(accounts, [ps[0]]);
      OnePostingTotal(accounts, ps[0], c);
      AdjustTwice(accounts, [ps[0]], ps[1..]);
      assert AllExist(first, ps[1..]) by { assert forall p :: p in ps[1..] ==> p in ps; }
      PostingsMoveTotal(first, ps[1..], c);
    }
  }

  // What the buying side of a fill gains in a currency, and so what the selling side loses.
  function Leg(f: Fill, c: Currency): int {
    (if Base(f.instrument) == c then f.quantity else 0) - (if Quote(f.instrument) == c then BalanceAmount(f.quantity * f.price) else 0)
  }

  // The part of a fill whose counterparty keeps no account.
  function SystemLeg(orders: map<OrderId, Order>, f: Fill, c: Currency): int
    requires f.maker in orders && f.taker in orders
  {
    (if orders[f.maker].system then Leg(f, c) else 0) - (if orders[f.taker].system then Leg(f, c) else 0)
  }

  lemma FillPostingTotal(orders: map<OrderId, Order>, f: Fill, c: Currency)
    requires Tradable(orders, f)
    ensures PostingTotal(Postings(orders, f), c) == SystemLeg(orders, f, c)
  {
    var buy, sell := orders[f.taker], orders[f.maker];
    var release, spent := Release(buy, f.quantity), BalanceAmount(f.quantity * f.price);
    var b0, b1 := Posting(buy.user, Quote(buy.instrument), release - spent, -release), Posting(buy.user, Base(buy.instrument), f.quantity, 0);
    var s0, s1 := Posting(sell.user, Base(sell.instrument), 0, -f.quantity), Posting(sell.user, Quote(sell.instrument), spent, 0);
    PostingTotalConcat(BuyerPostings(buy, f), SellerPostings(sell, f), c);
    TwoPostingTotal(b0, b1, c);
    TwoPostingTotal(s0, s1, c);
  }

  lemma TwoPostingTotal(p: Posting, q: Posting, c: Currency)
    ensures PostingTotal([p, q], c) == (if p.currency == c then p.available + p.reserved else 0)
                                     + (if q.currency == c then q.available + q.reserved else 0)
  {
    assert [p, q][1..] == [q] && [q][1..] == [];
    assert PostingTotal([q], c) == if q.currency == c then q.available + q.reserved else 0;
  }

  lemma {:induction false} PostingTotalConcat(ps: seq<Posting>, qs: seq<Posting>, c: Currency)
    ensures PostingTotal(ps + qs, c) == PostingTotal(ps, c) + PostingTotal(qs, c)
  {
    if ps == [] {
      assert ps + qs == qs;
    } else {
      assert (ps + qs)[1..] == ps[1..] + qs;
      PostingTotalConcat(ps[1..], qs, c);
    }
  }

  /** Settling a fill changes a currency's total by its system leg only: between two users
      what one account gains the other loses, to the unit, also when they are the same. */
  lemma FillMovesTotal(t: Tables, f: Fill, c: Currency)
    requires OrdersOk(t) && FillsOk(t) && Tradable(t.orders, f)
    ensures CurrencyTotal(ApplyFill(t, f).accounts, c) == CurrencyTotal(t.accounts, c) + SystemLeg(t.orders, f, c)
  {
    ApplyFillTakes(t, f);
    assert AllExist(t.accounts, Postings(t.orders, f));
    PostingsMoveTotal(t.accounts, Postings(t.orders, f), c);
    FillPostingTotal(t.orders, f, c);
  }

  function SystemLegs(orders: map<OrderId, Order>, fills: seq<Fill>, c: Currency): int
    requires Known(orders, fills)
  {
    if fills == [] then 0 else SystemLeg(orders, fills[0], c) + SystemLegs(orders, fills[1..], c)
  }

  lemma {:induction false} SystemLegsEvolve(before: map<OrderId, Order>, after: map<OrderId, Order>, fills: seq<Fill>, c: Currency)
    requires Known(before, fills) && Evolves(before, after)
    ensures Known(after, fills) && SystemLegs(after, fills, c) == SystemLegs(before, fills, c)
  {
    if fills != [] {
      SystemLegsEvolve(before, after, fills[1..], c);
    }
  }

  lemma {:induction false} FillsMoveTotal(t: Tables, fills: seq<Fill>, c: Currency)
    requires Invariant(t) && Known(t.orders, fills) && AllTradable(t, fills)
    ensures CurrencyTotal(ApplyFills(t, fills).accounts, c) == CurrencyTotal(t.accounts, c) + SystemLegs(t.orders, fills, c)
    decreases |fills|
  {
    if fills != [] {
      var mid := ApplyFill(t, fills[0]);
      FillMovesTotal(t, fills[0], c);
      ApplyFillKeepsInvariant(t, fills[0]);
      ApplyFillContinues(t, fills[0]);
      FillsMoveTotal(mid, fills[1..], c);
      SystemLegsEvolve(t.orders, mid.orders, fills[1..], c);
    }
  }

  /** A matching transaction changes a currency's total only through fills with a system
      counterparty. */
  lemma TickConservesCurrency(t: Tables, instrument: Symbol, c: Currency)
    requires Invariant(t) && instrument in t.markets
    ensures CurrencyTotal(MatchTick(t, instrument).accounts, c)
         == CurrencyTotal(t.accounts, c)
            + (if Commits(t, instrument) then SystemLegs(t.orders, TickFills(t, instrument), c) else 0)
  {
    if Commits(t, instrument) {
      TickSettlesEveryFill(t, instrument);
      FillsMoveTotal(t, TickFills(t, instrument), c);
    }
  }

  /** Placing and cancelling only move funds between available and reserved. */
  lemma PlaceConservesCurrency(t: Tables, user: UserId, order: NewOrder, c: Currency)
    ensures CurrencyTotal(Place(t, user, order).0.accounts, c) == CurrencyTotal(t.accounts, c)
  {
    PlaceChangesOnlyByCreating(t, user, order);
    if Places(t, user, order) {
      PlaceInserts(t, user, order);
      SameTotals(t.accounts, Place(t, user, order).0.accounts, c);
    }
  }

  lemma SameTotals(a: map<AccountKey, Account>, b: map<AccountKey, Account>, c: Currency)
    requires a.Keys == b.Keys
    requires forall key :: key in a ==> a[key].available + a[key].reserved == b[key].available + b[key].reserved
    ensures CurrencyTotal(a, c) == CurrencyTotal(b, c)
  {
    SumEqual(a.Keys, HeldOf(a, c), HeldOf(b, c));
  }

  lemma {:induction false} CancelRowsConserve(t: Tables, rows: seq<OrderId>, c: Currency)
    requires AllOpen(t, rows) && NoDuplicates(rows)
    ensures CurrencyTotal(CancelRows(t, rows).accounts, c) == CurrencyTotal(t.accounts, c)
    decreases |rows|
  {
    if rows != [] {
      RestStaysOpen(t, rows);
      CancelRowCancels(t, rows[0]);
      SameTotals(t.accounts, CancelRow(t, rows[0]).accounts, c);
      CancelRowsConserve(CancelRow(t, rows[0]), rows[1..], c);
    }
  }

  lemma CancelConservesCurrency(t: Tables, user: UserId, which: Option<OrderId>, c: Currency)
    requires OrdersOk(t) && user != MARKET_MAKER
    ensures CurrencyTotal(CancelOrders(t, user, which).0.accounts, c) == CurrencyTotal(t.accounts, c)
  {
    CancellableOpen(t, user, which);
    CancelRowsConserve(t, BySequence(t.orders, Cancellable(t, user, which)), c);
  }

  lemma CommandConservesCurrency(t: Tables, command: Command, c: Currency)
    requires OrdersOk(t) && AccountsOk(t)
    ensures CurrencyTotal(Apply(t, command).0.accounts, c) == CurrencyTotal(t.accounts, c)
  {
    if Owns(t, command) {
      match command.action {
        case PlaceOrder(order) => PlaceConservesCurrency(t, command.user, order, c);
        case CancelOrder(id) => CancelConservesCurrency(t, command.user, Some(id), c);
      }
    }
  }

  // --- Accounts that come and go -----------------------------------------------------------------

  lemma SeparateTotals(a: map<AccountKey, Account>, b: map<AccountKey, Account>, c: Currency)
    requires a.Keys !! b.Keys
    ensures CurrencyTotal(a + b, c) == CurrencyTotal(a, c) + CurrencyTotal(b, c)
  {
    assert (a + b).Keys == a.Keys + b.Keys;
    SumDisjoint(a.Keys, b.Keys, HeldOf(a + b, c));
    SumEqual(a.Keys, HeldOf(a, c), HeldOf(a + b, c));
    SumEqual(b.Keys, HeldOf(b, c), HeldOf(a + b, c));
  }

  function KeysOf(users: set<UserId>, c: Currency): set<AccountKey> {
    set user | user in users :: (user, c)
  }

  lemma {:induction false} OneKeyEach(users: set<UserId>, c: Currency)
    ensures |KeysOf(users, c)| == |users|
    decreases |users|
  {
    if users == {} {
      assert KeysOf(users, c) == {};
    } else {
      var user :| user in users;
      var others := users - {user};
      OneKeyEach(others, c);
      assert (user, c) !in KeysOf(others, c);
      assert KeysOf(users, c) == KeysOf(others, c) + {(user, c)};
    }
  }

  lemma FundingOutside(news: set<UserId>, bot: bool, c: Currency, key: AccountKey)
    requires key in FundedRows(news, bot) && key !in KeysOf(news, c)
    ensures HeldOf(FundedRows(news, bot), c)(key) == 0
  {
    assert key == (key.0, key.1);
  }

  lemma FundingInside(news: set<UserId>, bot: bool, c: Currency, key: AccountKey)
    requires c in CURRENCIES && key in KeysOf(news, c)
    ensures key in FundedRows(news, bot) && HeldOf(FundedRows(news, bot), c)(key) == InitialFunding(c, bot)
  {
  }

  /** New users bring a fixed funding each. */
  lemma FundingTotal(news: set<UserId>, bot: bool, c: Currency)
    requires c in CURRENCIES
    ensures CurrencyTotal(FundedRows(news, bot), c) == InitialFunding(c, bot) * |news|
  {
    var rows, keys := FundedRows(news, bot), KeysOf(news, c);
    var f := HeldOf(rows, c);
    forall key | key in rows && key !in keys ensures f(key) == 0 { FundingOutside(news, bot, c, key); }
    forall key | key in keys ensures key in rows && f(key) == InitialFunding(c, bot) { FundingInside(news, bot, c, key); }
    SumSubset(rows.Keys, keys, f);
    SumConstant(keys, f, InitialFunding(c, bot));
    OneKeyEach(news, c);
  }

  function BotRows(t: Tables): map<AccountKey, Account> {
    map key | key in t.accounts && key.0 in BotIds(t) :: t.accounts[key]
  }

  lemma EnrolTotal(t: Tables, r: Tables, news: set<UserId>, bot: bool, c: Currency)
    requires AccountsOk(t) && Enrols(t, r, news, bot)
    ensures CurrencyTotal(r.accounts, c) == CurrencyTotal(t.accounts, c) + CurrencyTotal(FundedRows(news, bot), c)
  {
    forall key | key in t.accounts ensures key !in FundedRows(news, bot) {}
    SeparateTotals(t.accounts, FundedRows(news, bot), c);
  }

  lemma PurgeTotal(t: Tables, purged: Tables, c: Currency)
    requires Purges(t, purged)
    ensures CurrencyTotal(t.accounts, c) == CurrencyTotal(purged.accounts, c) + CurrencyTotal(BotRows(t), c)
  {
    assert t.accounts == purged.accounts + BotRows(t);
    SeparateTotals(purged.accounts, BotRows(t), c);
  }

  /** A reset takes out what the bots held and brings in their successors' funding. */
  lemma ResetTotal(t: Tables, drawn: map<string, UserId>, c: Currency)
    requires AccountsOk(t) && DrawnFresh(t, drawn) && !ResetRefused(t)
    ensures CurrencyTotal(ResetBots(t, drawn).accounts, c)
         == CurrencyTotal(t.accounts, c) - CurrencyTotal(BotRows(t), c) + CurrencyTotal(FundedRows(NewIds(drawn), true), c)
  {
    var purged := ResetIsPurgeThenEnrol(t, drawn);
    PurgeTotal(t, purged, c);
    forall key | key in purged.accounts ensures key !in FundedRows(NewIds(drawn), true) { assert key in t.accounts; }
    SeparateTotals(purged.accounts, FundedRows(NewIds(drawn), true), c);
  }

  // --- Over runs -----------------------------------------------------------------------------------

  // What a transaction adds to a currency: the system's side of fills, new users' funding,
  // and what a reset brings in less what it takes out.
  ghost function StepInflow(t: Tables, step: Step, c: Currency): int {
    match step
    case MatchStep(instrument) =>
      if instrument in t.markets && Commits(t, instrument) then SystemLegs(t.orders, TickFills(t, instrument), c) else 0
    case RegisterStep(user) => CurrencyTotal(FundedRows({user}, false), c)
    case BootstrapStep(trader, user) => if trader in t.traders then 0 else CurrencyTotal(FundedRows({user}, true), c)
    case ResetStep(drawn) =>
      if ResetRefused(t) then 0 else CurrencyTotal(FundedRows(NewIds(drawn), true), c) - CurrencyTotal(BotRows(t), c)
    case _ => 0
  }

  lemma MemberStepTotal(t: Tables, step: Step, c: Currency)
    requires AccountsOk(t) && Enabled(t, step) && (step.RegisterStep? || step.BootstrapStep? || step.ResetStep?)
    ensures CurrencyTotal(Next(t, step).accounts, c) == CurrencyTotal(t.accounts, c) + StepInflow(t, step, c)
  {
    match step {
      case RegisterStep(user) => EnrolTotal(t, Register(t, user), {user}, false, c);
      case BootstrapStep(trader, user) => if trader !in t.traders { EnrolTotal(t, Bootstrap(t, trader, user), {user}, true, c); }
      case ResetStep(drawn) => if !ResetRefused(t) { ResetTotal(t, drawn, c); }
    }
  }

  lemma TradingStepTotal(t: Tables, step: Step, c: Currency)
    requires Invariant(t) && Enabled(t, step) && (step.PlaceStep? || step.CancelStep? || step.ConsumeStep? || step.MatchStep?)
    ensures CurrencyTotal(Next(t, step).accounts, c) == CurrencyTotal(t.accounts, c) + StepInflow(t, step, c)
  {
    match step {
      case PlaceStep(user, order) => PlaceConservesCurrency(t, user, order, c);
      case CancelStep(user, which) => CancelConservesCurrency(t, user, which, c);
      case ConsumeStep(command) => CommandConservesCurrency(t, command, c);
      case MatchStep(instrument) => if instrument in t.markets { TickConservesCurrency(t, instrument, c); }
    }
  }

  lemma StepTotal(t: Tables, step: Step, c: Currency)
    requires Invariant(t) && Enabled(t, step)
    ensures CurrencyTotal(Next(t, step).accounts, c) == CurrencyTotal(t.accounts, c) + StepInflow(t, step, c)
  {
    if step.PlaceStep? || step.CancelStep? || step.ConsumeStep? || step.MatchStep? {
      TradingStepTotal(t, step, c);
    } else if step.SimulateStep? || step.WithdrawStep? || step.StaleStep? {
      SystemStepSpares(t, step);
    } else if !step.AbortStep? {
      MemberStepTotal(t, step, c);
    }
  }

  ghost function RunInflow(t: Tables, steps: seq<Step>, c: Currency): int
    requires Possible(t, steps)
    decreases |steps|
  {
    if steps == [] then 0 else StepInflow(t, steps[0], c) + RunInflow(Next(t, steps[0]), steps[1..], c)
  }

  /** Over any run a currency's total is what it was, plus the funding of new accounts,
      less what removed bots held, plus the system's side of the fills. Nothing else makes
      or loses a unit. */
  lemma {:induction false} RunConservesCurrency(t: Tables, steps: seq<Step>, c: Currency)
    requires Invariant(t) && Possible(t, steps)
    ensures CurrencyTotal(After(t, steps).accounts, c) == CurrencyTotal(t.accounts, c) + RunInflow(t, steps, c)
    decreases |steps|
  {
    if steps != [] {
      StepTotal(t, steps[0], c);
      StepKeepsInvariant(t, steps[0]);
      RunConservesCurrency(Next(t, steps[0]), steps[1..], c);
    }
  }
}

/** Balances over whole runs: the reservation equation with every drift accounted for, and
    how far an available balance can fall. */
module History {
  import opened FixedPoint
  import opened Sums
  import opened Domain
  import opened State
  import opened Tick
  import opened Trading
  import opened Simulator
  import opened Members
  import opened Commands
  import opened Runs
  import opened Identity

  // --- The reservation equation over runs --------------------------------------------------------

  // What one attempted placement adds to an account's distance from the equation.
  function PlaceDrift(t: Tables, user: UserId, order: NewOrder, key: AccountKey): int {
    if !Places(t, user, order) then 0 else
      var reference := t.markets[order.instrument].reference;
      var row := NewRow(user, order, order.instrument, reference, t.nextSequence);
      if key == (user, ReserveCurrency(row)) then PlacementDrift(order, reference) else 0
  }

  function ConsumeDrift(t: Tables, c: Command, key: AccountKey): int {
    if Owns(t, c) && c.action.PlaceOrder? then PlaceDrift(t, c.user, c.action.order, key) else 0
  }

  function StepDrift(t: Tables, step: Step, key: AccountKey): int {
    match step
    case PlaceStep(user, order) => PlaceDrift(t, user, order, key)
    case ConsumeStep(c) => ConsumeDrift(t, c, key)
    case _ => 0
  }

  // The distance, counting an account that does not exist as settled.
  ghost function ResidualOr0(t: Tables, key: AccountKey): int {
    if key in t.accounts then Residual(t, key) else 0
  }

  lemma PlaceStepResidual(t: Tables, user: UserId, order: NewOrder, key: AccountKey)
    requires key in Place(t, user, order).0.accounts
    ensures ResidualOr0(Place(t, user, order).0, key) == ResidualOr0(t, key) + PlaceDrift(t, user, order, key)
  {
    if Places(t, user, order) {
      PlaceInserts(t, user, order);
      PlaceResidual(t, user, order, key);
    } else {
      PlaceChangesOnlyByCreating(t, user, order);
    }
  }

  lemma CancelStepResidual(t: Tables, user: UserId, which: Option<OrderId>, key: AccountKey)
    requires Invariant(t) && user != MARKET_MAKER && key in CancelOrders(t, user, which).0.accounts
    ensures ResidualOr0(CancelOrders(t, user, which).0, key) == ResidualOr0(t, key)
  {
    CancelKeepsInvariant(t, user, which);
  }

  lemma ConsumeResidual(t: Tables, c: Command, key: AccountKey)
    requires Invariant(t) && key in Apply(t, c).0.accounts
    ensures ResidualOr0(Apply(t, c).0, key) == ResidualOr0(t, key) + ConsumeDrift(t, c, key)
  {
    if Owns(t, c) {
      match c.action {
        case PlaceOrder(order) => PlaceStepResidual(t, c.user, order, key);
        case CancelOrder(id) => CancelStepResidual(t, c.user, Some(id), key);
      }
    }
  }

  lemma TradingStepResidual(t: Tables, step: Step, key: AccountKey)
    requires Invariant(t) && Enabled(t, step) && key in Next(t, step).accounts
    requires step.PlaceStep? || step.CancelStep? || step.ConsumeStep? || step.MatchStep?
    ensures ResidualOr0(Next(t, step), key) == ResidualOr0(t, key) + StepDrift(t, step, key)
  {
    match step {
      case PlaceStep(user, order) => PlaceStepResidual(t, user, order, key);
      case CancelStep(user, which) => CancelStepResidual(t, user, which, key);
      case ConsumeStep(c) => ConsumeResidual(t, c, key);
      case MatchStep(instrument) => TickKeepsInvariant(t, instrument);
    }
  }

  lemma SystemStepResidual(t: Tables, step: Step, key: AccountKey)
    requires Invariant(t) && Enabled(t, step) && key in Next(t, step).accounts
    requires step.SimulateStep? || step.WithdrawStep? || step.StaleStep?
    ensures ResidualOr0(Next(t, step), key) == ResidualOr0(t, key)
  {
    SystemStepSpares(t, step);
    UsersAloneKeepsResidual(t, Next(t, step), key);
  }

  lemma RegisterResidual(t: Tables, user: UserId, key: AccountKey)
    requires Invariant(t) && user !in t.users && key in Register(t, user).accounts
    ensures ResidualOr0(Register(t, user), key) == ResidualOr0(t, key)
  {
    RegisterEnrols(t, user);
  }

  lemma BootstrapResidual(t: Tables, trader: string, user: UserId, key: AccountKey)
    requires Invariant(t) && user !in t.users && key in Bootstrap(t, trader, user).accounts
    ensures ResidualOr0(Bootstrap(t, trader, user), key) == ResidualOr0(t, key)
  {
    BootstrapEnrols(t, trader, user);
  }

  lemma MemberStepResidual(t: Tables, step: Step, key: AccountKey)
    requires Invariant(t) && Enabled(t, step) && key in Next(t, step).accounts
    requires step.RegisterStep? || step.BootstrapStep? || step.ResetStep?
    ensures ResidualOr0(Next(t, step), key) == ResidualOr0(t, key)
  {
    match step {
      case RegisterStep(user) => RegisterResidual(t, user, key);
      case BootstrapStep(trader, user) => BootstrapResidual(t, trader, user, key);
      case ResetStep(drawn) => ResetKeepsInvariant(t, drawn);
    }
  }

  /** Only the rounding of a market buy's cap moves an account away from the reservation
      equation, whatever the transaction. */
  lemma StepResidual(t: Tables, step: Step, key: AccountKey)
    requires Invariant(t) && Enabled(t, step) && key in Next(t, step).accounts
    ensures ResidualOr0(Next(t, step), key) == ResidualOr0(t, key) + StepDrift(t, step, key)
  {
    if step.PlaceStep? || step.CancelStep? || step.ConsumeStep? || step.MatchStep? {
      TradingStepResidual(t, step, key);
    } else if step.SimulateStep? || step.WithdrawStep? || step.StaleStep? {
      SystemStepResidual(t, step, key);
    } else if !step.AbortStep? {
      MemberStepResidual(t, step, key);
    }
  }

  // References that 1.05 times needs no more decimals than the column has.
  ghost predicate Storable(t: Tables) {
    forall m :: m in t.markets ==> t.markets[m].reference % 20 == 0
  }

  predicate QuotesStorable(step: Step) {
    step.SimulateStep? ==> forall q :: q in step.quotes ==> q.price % 20 == 0
  }

  lemma PlacementDriftZero(order: NewOrder, reference: int)
    requires Validate(order) == Valid && reference > 0 && reference % 20 == 0
    ensures PlacementDrift(order, reference) == 0
  {
    ValidOrderIsBounded(order);
    StorableIsExact(reference, Units(order.quantity));
  }

  lemma PlaceDriftZero(t: Tables, user: UserId, order: NewOrder, key: AccountKey)
    requires Storable(t) && AccountsOk(t)
    ensures PlaceDrift(t, user, order, key) == 0
  {
    if Places(t, user, order) {
      var symbol: Symbol := order.instrument;
      assert t.markets[symbol].reference % 20 == 0 && t.markets[symbol].reference > 0;
      PlacementDriftZero(order, t.markets[symbol].reference);
    }
  }

  lemma {:induction false} SimTickStorable(t: Tables, quotes: seq<Quoted>, liquidity: int)
    requires Storable(t) && liquidity > 0 && AllPositive(quotes) && forall q :: q in quotes ==> q.price % 20 == 0
    ensures Storable(SimTick(t, quotes, liquidity))
    decreases |quotes|
  {
    if quotes != [] {
      assert quotes[0] in quotes;
      SimTickStorable(SimMarket(t, quotes[0], liquidity), quotes[1..], liquidity);
    }
  }

  lemma CancelMarkets(t: Tables, user: UserId, which: Option<OrderId>)
    requires OrdersOk(t) && user != MARKET_MAKER
    ensures CancelOrders(t, user, which).0.markets == t.markets
  {
    CancellableOpen(t, user, which);
    CancelRowsCancels(t, BySequence(t.orders, Cancellable(t, user, which)));
  }

  lemma PlaceMarkets(t: Tables, user: UserId, order: NewOrder)
    ensures Place(t, user, order).0.markets == t.markets
  {
  }

  lemma ConsumeMarkets(t: Tables, c: Command)
    requires OrdersOk(t) && AccountsOk(t)
    ensures Apply(t, c).0.markets == t.markets
  {
    if Owns(t, c) {
      match c.action {
        case PlaceOrder(order) => PlaceMarkets(t, c.user, order);
        case CancelOrder(id) => CancelMarkets(t, c.user, Some(id));
      }
    }
  }

  lemma StepMarkets(t: Tables, step: Step)
    requires OrdersOk(t) && AccountsOk(t) && Enabled(t, step) && !step.SimulateStep? && !step.StaleStep?
    ensures Next(t, step).markets == t.markets
  {
    match step {
      case PlaceStep(user, order) => PlaceMarkets(t, user, order);
      case CancelStep(user, which) => CancelMarkets(t, user, which);
      case ConsumeStep(c) => ConsumeMarkets(t, c);
      case _ =>
    }
  }

  lemma StepStorable(t: Tables, step: Step)
    requires OrdersOk(t) && AccountsOk(t) && Enabled(t, step) && Storable(t) && QuotesStorable(step)
    ensures Storable(Next(t, step))
  {
    if step.SimulateStep? {
      SimTickStorable(t, step.quotes, step.liquidity);
    } else if !step.StaleStep? {
      StepMarkets(t, step);
    }
  }

  lemma StepDriftZero(t: Tables, step: Step, key: AccountKey)
    requires Storable(t) && AccountsOk(t)
    ensures StepDrift(t, step, key) == 0
  {
    match step {
      case PlaceStep(user, order) => PlaceDriftZero(t, user, order, key);
      case ConsumeStep(c) => if c.action.PlaceOrder? { PlaceDriftZero(t, c.user, c.action.order, key); }
      case _ =>
    }
  }

  lemma StepExactAt(t: Tables, step: Step, key: AccountKey)
    requires Invariant(t) && Enabled(t, step) && Storable(t) && key in Next(t, step).accounts && ResidualOr0(t, key) == 0
    ensures ResidualOr0(Next(t, step), key) == 0
  {
    StepResidual(t, step, key);
    StepDriftZero(t, step, key);
  }

  lemma StepExact(t: Tables, step: Step)
    requires Invariant(t) && Enabled(t, step) && Storable(t) && ReservationsExact(t)
    ensures ReservationsExact(Next(t, step))
  {
    forall key | key in Next(t, step).accounts
      ensures Next(t, step).accounts[key].reserved == OpenReserves(Next(t, step).orders, key)
    {
      assert ResidualOr0(t, key) == 0;
      StepExactAt(t, step, key);
    }
  }

  /** In every state of every run whose reference prices are storable, each reserved
      balance equals the sum over the user's open orders. */
  lemma {:induction false} RunKeepsReservations(t: Tables, steps: seq<Step>)
    requires Invariant(t) && Possible(t, steps) && Storable(t) && ReservationsExact(t)
    requires forall step :: step in steps ==> QuotesStorable(step)
    ensures ReservationsExact(After(t, steps)) && Storable(After(t, steps))
    decreases |steps|
  {
    if steps != [] {
      assert steps[0] in steps;
      StepKeepsInvariant(t, steps[0]);
      StepExact(t, steps[0]);
      StepStorable(t, steps[0]);
      RunKeepsReservations(Next(t, steps[0]), steps[1..]);
    }
  }

  // --- The equation with every drift accounted for -----------------------------------------------

  ghost function RunDrift(t: Tables, steps: seq<Step>, key: AccountKey): int
    requires Possible(t, steps)
    decreases |steps|
  {
    if steps == [] then 0 else StepDrift(t, steps[0], key) + RunDrift(Next(t, steps[0]), steps[1..], key)
  }

  lemma {:induction false} AbsentForGood(t: Tables, steps: seq<Step>, user: UserId, c: Currency)
    requires Invariant(t) && Possible(t, steps) && user in t.users && (user, c) !in t.accounts
    ensures (user, c) !in After(t, steps).accounts
    decreases |steps|
  {
    if steps != [] {
      StepKeepsInvariant(t, steps[0]);
      StepFollows(t, steps[0]);
      AbsentForGood(Next(t, steps[0]), steps[1..], user, c);
    }
  }

  lemma StepResidualThrough(t: Tables, step: Step, rest: seq<Step>, key: AccountKey)
    requires Invariant(t) && Enabled(t, step) && Possible(Next(t, step), rest) && key in After(Next(t, step), rest).accounts
    ensures ResidualOr0(Next(t, step), key) == ResidualOr0(t, key) + StepDrift(t, step, key)
  {
    var mid := Next(t, step);
    if key in mid.accounts {
      StepResidual(t, step, key);
    } else {
      StepKeepsInvariant(t, step);
      StepFollows(t, step);
      if key.0 in mid.users { AbsentForGood(mid, rest, key.0, key.1); }
      NoDriftWithoutAccount(t, step, key);
    }
  }

  lemma NoDriftWithoutAccount(t: Tables, step: Step, key: AccountKey)
    requires AccountsOk(t) && key.0 !in t.users
    ensures StepDrift(t, step, key) == 0 && key !in t.accounts
  {
  }

  /** Over any run, an account's distance from the reservation equation is exactly the sum
      of the drifts of the market buys it placed: nothing else ever moves it. */
  lemma {:induction false} RunResidual(t: Tables, steps: seq<Step>, key: AccountKey)
    requires Invariant(t) && Possible(t, steps) && key in After(t, steps).accounts
    ensures ResidualOr0(After(t, steps), key) == ResidualOr0(t, key) + RunDrift(t, steps, key)
    decreases |steps|
  {
    if steps != [] {
      StepKeepsInvariant(t, steps[0]);
      StepResidualThrough(t, steps[0], steps[1..], key);
      RunResidual(Next(t, steps[0]), steps[1..], key);
    }
  }

  /** Over any run reserved is what the open orders hold plus the distance from the
      equation, so it is negative exactly when the drifts outweigh the open orders; and for
      an account without open orders exactly when they are negative. */
  lemma ReservedNegativeIff(t: Tables, steps: seq<Step>, key: AccountKey)
    requires Invariant(t) && Possible(t, steps) && key in After(t, steps).accounts
    ensures var r := After(t, steps);
            var distance := ResidualOr0(t, key) + RunDrift(t, steps, key);
            && (r.accounts[key].reserved < 0 <==> OpenReserves(r.orders, key) < -distance)
            && (distance >= 0 ==> r.accounts[key].reserved >= 0)
            && (OpenOrdersOf(r.orders, key.0) == {} ==> r.accounts[key].reserved == distance)
  {
    RunResidual(t, steps, key);
    RunKeepsInvariant(t, steps);
    ReservedIs(After(t, steps), key);
  }

  lemma ReservedIs(t: Tables, key: AccountKey)
    requires OrdersOk(t) && key in t.accounts
    ensures t.accounts[key].reserved == OpenReserves(t.orders, key) + Residual(t, key) && OpenReserves(t.orders, key) >= 0
    ensures OpenOrdersOf(t.orders, key.0) == {} ==> OpenReserves(t.orders, key) == 0
  {
    OpenReservesNonNegative(t, key);
    if OpenOrdersOf(t.orders, key.0) == {} { NoOpenOrdersNoReserves(t.orders, key); }
  }

  // --- Which transactions can overdraw -------------------------------------------------------------

  lemma PlaceDoesNotOverdraw(t: Tables, user: UserId, order: NewOrder, key: AccountKey)
    requires key in t.accounts && t.accounts[key].available >= 0
    ensures var r := Place(t, user, order).0; key in r.accounts && r.accounts[key].available >= 0
  {
    PlaceChangesOnlyByCreating(t, user, order);
    if Places(t, user, order) { PlaceInserts(t, user, order); }
  }

  lemma CancelDoesNotOverdraw(t: Tables, user: UserId, which: Option<OrderId>, key: AccountKey)
    requires OrdersOk(t) && SequencesDistinct(t.orders) && user != MARKET_MAKER
    requires key in t.accounts && t.accounts[key].available >= 0
    ensures var r := CancelOrders(t, user, which).0; key in r.accounts && r.accounts[key].available >= 0
  {
    CancellableOpen(t, user, which);
    CancelRowsRefund(t, BySequence(t.orders, Cancellable(t, user, which)), key);
  }

  lemma CommandDoesNotOverdraw(t: Tables, c: Command, key: AccountKey)
    requires OrdersOk(t) && SequencesDistinct(t.orders) && AccountsOk(t)
    requires key in t.accounts && t.accounts[key].available >= 0
    ensures var r := Apply(t, c).0; key in r.accounts && r.accounts[key].available >= 0
  {
    if Owns(t, c) {
      match c.action {
        case PlaceOrder(order) => PlaceDoesNotOverdraw(t, c.user, order, key);
        case CancelOrder(id) => CancelDoesNotOverdraw(t, c.user, Some(id), key);
      }
    }
  }

  lemma FundingIsPositive(news: set<UserId>, bot: bool, key: AccountKey)
    requires key in FundedRows(news, bot)
    ensures FundedRows(news, bot)[key].available >= 0
  {
  }

  lemma RegisterDoesNotOverdraw(t: Tables, user: UserId, key: AccountKey)
    requires key in Register(t, user).accounts && NotOverdrawn(t, key)
    ensures NotOverdrawn(Register(t, user), key)
  {
    if key in FundedRows({user}, false) { FundingIsPositive({user}, false, key); }
  }

  lemma BootstrapDoesNotOverdraw(t: Tables, trader: string, user: UserId, key: AccountKey)
    requires NotOverdrawn(t, key)
    ensures NotOverdrawn(Bootstrap(t, trader, user), key)
  {
    if key in FundedRows({user}, true) { FundingIsPositive({user}, true, key); }
  }

  lemma ResetDoesNotOverdraw(t: Tables, drawn: map<string, UserId>, key: AccountKey)
    requires drawn.Keys == t.traders.Keys && NotOverdrawn(t, key)
    ensures NotOverdrawn(ResetBots(t, drawn), key)
  {
    if key in FundedRows(NewIds(drawn), true) { FundingIsPositive(NewIds(drawn), true, key); }
  }

  // The account, if it is there, is at zero or above.
  predicate NotOverdrawn(t: Tables, key: AccountKey) {
    key in t.accounts ==> t.accounts[key].available >= 0
  }

  lemma MemberStepDoesNotOverdraw(t: Tables, step: Step, key: AccountKey)
    requires Enabled(t, step) && (step.RegisterStep? || step.BootstrapStep? || step.ResetStep?) && NotOverdrawn(t, key)
    ensures NotOverdrawn(Next(t, step), key)
  {
    match step {
      case RegisterStep(user) => if key in Register(t, user).accounts { RegisterDoesNotOverdraw(t, user, key); }
      case BootstrapStep(trader, user) => BootstrapDoesNotOverdraw(t, trader, user, key);
      case ResetStep(drawn) => ResetDoesNotOverdraw(t, drawn, key);
    }
  }

  lemma TradingStepDoesNotOverdraw(t: Tables, step: Step, key: AccountKey)
    requires OrdersOk(t) && SequencesDistinct(t.orders) && AccountsOk(t) && Enabled(t, step)
    requires (step.PlaceStep? || step.CancelStep? || step.ConsumeStep?) && NotOverdrawn(t, key)
    ensures NotOverdrawn(Next(t, step), key)
  {
    if key in t.accounts {
      match step {
        case PlaceStep(user, order) => PlaceDoesNotOverdraw(t, user, order, key);
        case CancelStep(user, which) => CancelDoesNotOverdraw(t, user, which, key);
        case ConsumeStep(c) => CommandDoesNotOverdraw(t, c, key);
      }
    } else {
      TradingOpensNoAccounts(t, step);
    }
  }

  lemma TradingOpensNoAccounts(t: Tables, step: Step)
    requires OrdersOk(t) && AccountsOk(t) && Enabled(t, step) && (step.PlaceStep? || step.CancelStep? || step.ConsumeStep?)
    ensures Next(t, step).accounts.Keys == t.accounts.Keys
  {
    match step {
      case PlaceStep(user, order) => PlaceAccountKeys(t, user, order);
      case CancelStep(user, which) => CancelAccountKeys(t, user, which);
      case ConsumeStep(c) =>
        if Owns(t, c) {
          match c.action {
            case PlaceOrder(order) => PlaceAccountKeys(t, c.user, order);
            case CancelOrder(id) => CancelAccountKeys(t, c.user, Some(id));
          }
        }
    }
  }

  lemma PlaceAccountKeys(t: Tables, user: UserId, order: NewOrder)
    ensures Place(t, user, order).0.accounts.Keys == t.accounts.Keys
  {
    PlaceChangesOnlyByCreating(t, user, order);
    if Places(t, user, order) { PlaceInserts(t, user, order); }
  }

  lemma CancelAccountKeys(t: Tables, user: UserId, which: Option<OrderId>)
    requires OrdersOk(t) && user != MARKET_MAKER
    ensures CancelOrders(t, user, which).0.accounts.Keys == t.accounts.Keys
  {
    CancellableOpen(t, user, which);
    CancelRowsCancels(t, BySequence(t.orders, Cancellable(t, user, which)));
  }

  /** Only a matching transaction can take an available balance below zero or open an
      account there; which of its fills do is the condition on one fill. */
  lemma OnlyMatchingOverdraws(t: Tables, step: Step, key: AccountKey)
    requires Invariant(t) && Enabled(t, step) && NotOverdrawn(t, key) && !NotOverdrawn(Next(t, step), key)
    ensures step.MatchStep?
  {
    if step.PlaceStep? || step.CancelStep? || step.ConsumeStep? {
      TradingStepDoesNotOverdraw(t, step, key);
    } else if step.SimulateStep? || step.WithdrawStep? || step.StaleStep? {
      SystemStepSpares(t, step);
    } else if step.RegisterStep? || step.BootstrapStep? || step.ResetStep? {
      MemberStepDoesNotOverdraw(t, step, key);
    }
  }

  // --- Available balances over runs -----------------------------------------------------------------

  function BoughtWith(o: Order, key: AccountKey): int {
    if !o.system && (o.user, Quote(o.instrument)) == key then 1 else 0
  }

  ghost function BoughtOf(orders: map<OrderId, Order>, key: AccountKey): Fill -> int {
    (f: Fill) => if f.taker in orders then BoughtWith(orders[f.taker], key) else 0
  }

  // How many buy fills an account has paid for.
  ghost function BuyFills(t: Tables, key: AccountKey): int {
    Sum(t.fills, BoughtOf(t.orders, key))
  }

  lemma RoundedAtMostBought(t: Tables, key: AccountKey)
    ensures RoundedBuys(t, key) <= BuyFills(t, key)
  {
    var rounded, bought := RoundedOf(t.orders, key), BoughtOf(t.orders, key);
    var gap := (f: Fill) => bought(f) - rounded(f);
    SumNonNegative(t.fills, gap);
    SumPlus(t.fills, rounded, gap, bought);
  }

  // None of the account's own buys had its cost rounded up.
  ghost predicate NoneRoundedUp(t: Tables, key: AccountKey) {
    forall f :: f in t.fills && f.taker in t.orders && BoughtWith(t.orders[f.taker], key) == 1 ==> !RoundsUp(f.quantity * f.price)
  }

  lemma AvailableBounded(t: Tables, key: AccountKey)
    requires AvailableOk(t) && key in t.accounts
    ensures t.accounts[key].available >= -BuyFills(t, key)
    ensures NoneRoundedUp(t, key) ==> t.accounts[key].available >= 0
  {
    RoundedAtMostBought(t, key);
    if NoneRoundedUp(t, key) {
      SumZero(t.fills, RoundedOf(t.orders, key));
    }
  }

  /** Over any run an available balance falls below zero by at most one unit per buy fill
      of the account, counting those rounded up, and never when none of its own costs was
      rounded up, so in particular not when they were whole numbers of units. */
  lemma RunBoundsAvailable(t: Tables, steps: seq<Step>, key: AccountKey)
    requires Invariant(t) && Possible(t, steps) && key in After(t, steps).accounts
    ensures var r := After(t, steps);
            && r.accounts[key].available >= -BuyFills(r, key)
            && r.accounts[key].available >= -RoundedBuys(r, key)
            && (NoneRoundedUp(r, key) ==> r.accounts[key].available >= 0)
  {
    RunKeepsInvariant(t, steps);
    AvailableBounded(After(t, steps), key);
  }
}

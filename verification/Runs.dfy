/** Every run of the exchange: any interleaving of its transactions. */
module Runs {
  import opened FixedPoint
  import opened Domain
  import opened State
  import opened Matching
  import opened Tick
  import opened Trading
  import opened Simulator
  import opened Members
  import opened Commands

  // One committed transaction, or one that aborted.
  datatype Step =
    | PlaceStep(user: UserId, order: NewOrder)
    | CancelStep(user: UserId, which: Option<OrderId>)
    | ConsumeStep(command: Command)
    | MatchStep(instrument: Symbol)
    | SimulateStep(quotes: seq<Quoted>, liquidity: int)
    | WithdrawStep(symbol: Symbol)
    | StaleStep(symbol: Symbol)
    | RegisterStep(newUser: UserId)
    | BootstrapStep(trader: string, newUser: UserId)
    | ResetStep(drawn: map<string, UserId>)
    | AbortStep

  // What the surroundings guarantee: no one signs in as the market maker, drawn ids are
  // new, and quotes are positive prices of existing markets.
  ghost predicate Enabled(t: Tables, step: Step) {
    match step
    case PlaceStep(user, _) => user != MARKET_MAKER
    case CancelStep(user, _) => user != MARKET_MAKER
    case SimulateStep(quotes, liquidity) => liquidity > 0 && AllListed(t, quotes)
    case StaleStep(symbol) => symbol in t.markets
    case RegisterStep(user) => user !in t.users
    case BootstrapStep(_, user) => user !in t.users
    case ResetStep(drawn) => DrawnFresh(t, drawn)
    case _ => true
  }

  ghost function Next(t: Tables, step: Step): Tables
    requires Enabled(t, step)
  {
    match step
    case PlaceStep(user, order) => Place(t, user, order).0
    case CancelStep(user, which) => CancelOrders(t, user, which).0
    case ConsumeStep(command) => Apply(t, command).0
    case MatchStep(instrument) => MatchTick(t, instrument)
    case SimulateStep(quotes, liquidity) => SimTick(t, quotes, liquidity)
    case WithdrawStep(symbol) => WithdrawSystem(t, symbol)
    case StaleStep(symbol) => t.(markets := t.markets[symbol := t.markets[symbol].(live := false)])
    case RegisterStep(user) => Register(t, user)
    case BootstrapStep(trader, user) => Bootstrap(t, trader, user)
    case ResetStep(drawn) => ResetBots(t, drawn)
    case AbortStep => t
  }

  ghost predicate Possible(t: Tables, steps: seq<Step>)
    decreases |steps|
  {
    steps == [] || (Enabled(t, steps[0]) && Possible(Next(t, steps[0]), steps[1..]))
  }

  ghost function After(t: Tables, steps: seq<Step>): Tables
    requires Possible(t, steps)
    decreases |steps|
  {
    if steps == [] then t else After(Next(t, steps[0]), steps[1..])
  }

  // --- The invariant --------------------------------------------------------------------------

  lemma RegisterEnrols(t: Tables, user: UserId)
    requires Invariant(t) && user !in t.users
    ensures Invariant(Register(t, user))
    ensures forall key :: key in t.accounts ==> key in Register(t, user).accounts && Residual(Register(t, user), key) == Residual(t, key)
    ensures forall key :: key in Register(t, user).accounts && key !in t.accounts ==> Residual(Register(t, user), key) == 0
  {
    EnrolKeepsInvariant(t, Register(t, user), {user}, false);
  }

  lemma BootstrapEnrols(t: Tables, trader: string, user: UserId)
    requires Invariant(t) && user !in t.users
    ensures var r := Bootstrap(t, trader, user);
            && Invariant(r)
            && (forall key :: key in t.accounts ==> key in r.accounts && Residual(r, key) == Residual(t, key))
            && (forall key :: key in r.accounts && key !in t.accounts ==> Residual(r, key) == 0)
  {
    if trader !in t.traders {
      EnrolKeepsInvariant(t, Bootstrap(t, trader, user), {user}, true);
    }
  }

  lemma SystemStepSpares(t: Tables, step: Step)
    requires Invariant(t) && Enabled(t, step) && (step.SimulateStep? || step.WithdrawStep? || step.StaleStep?)
    ensures LeavesUsersAlone(t, Next(t, step))
  {
    match step {
      case SimulateStep(quotes, liquidity) => SimTickKeepsInvariant(t, quotes, liquidity);
      case WithdrawStep(symbol) => WithdrawLeavesUsersAlone(t, symbol);
      case StaleStep(symbol) => QuoteKeepsInvariant(t, symbol, t.markets[symbol].(live := false));
    }
  }

  /** Every transaction keeps the invariant. */
  lemma StepKeepsInvariant(t: Tables, step: Step)
    requires Invariant(t) && Enabled(t, step)
    ensures Invariant(Next(t, step))
  {
    match step {
      case PlaceStep(user, order) => PlaceKeepsInvariant(t, user, order);
      case CancelStep(user, which) => CancelKeepsInvariant(t, user, which);
      case ConsumeStep(command) => ApplyKeepsInvariant(t, command);
      case MatchStep(instrument) => TickKeepsInvariant(t, instrument);
      case SimulateStep(quotes, liquidity) => SimTickKeepsInvariant(t, quotes, liquidity);
      case WithdrawStep(symbol) => WithdrawKeepsInvariant(t, symbol);
      case StaleStep(symbol) => QuoteKeepsInvariant(t, symbol, t.markets[symbol].(live := false));
      case RegisterStep(user) => RegisterEnrols(t, user);
      case BootstrapStep(trader, user) => BootstrapEnrols(t, trader, user);
      case ResetStep(drawn) => ResetKeepsInvariant(t, drawn);
      case AbortStep =>
    }
  }

  /** So does every run: order lifecycle, fills inside both limits that exhausted an
      order, quantities explained by fills, account totals explained by funding and fills,
      the bound on available balances and the limit of open orders hold in every state. */
  lemma {:induction false} RunKeepsInvariant(t: Tables, steps: seq<Step>)
    requires Invariant(t) && Possible(t, steps)
    ensures Invariant(After(t, steps))
    decreases |steps|
  {
    if steps != [] {
      StepKeepsInvariant(t, steps[0]);
      RunKeepsInvariant(Next(t, steps[0]), steps[1..]);
    }
  }

  // --- Where a run starts -----------------------------------------------------------------------

  const BTC_USD: Symbol := "BTC-USD"
  const ETH_USD: Symbol := "ETH-USD"
  const SOL_USD: Symbol := "SOL-USD"

  function LiquidityFunding(c: Currency): int {
    if c == "USD" then 1_000_000_000 * ONE else if c == "BTC" then 100_000 * ONE
    else if c == "ETH" then 1_000_000 * ONE else 10_000_000 * ONE
  }

  /** The migrated database with the market maker's rows. */
  function Genesis(): Tables {
    Tables(map c | c in CURRENCIES :: (MARKET_MAKER, c) := Account(LiquidityFunding(c), 0, LiquidityFunding(c)),
           map[], {},
           map[BTC_USD := MarketState(65_000 * ONE, true), ETH_USD := MarketState(3_500 * ONE, true), SOL_USD := MarketState(150 * ONE, true)],
           map[], {MARKET_MAKER}, 0)
  }

  lemma SymbolParts(s: Symbol)
    requires |s| == 7 && s[3] == '-' && forall k :: 0 <= k < 7 && k != 3 ==> s[k] != '-'
    ensures Base(s) == s[..3] && Quote(s) == s[4..]
  {
    assert IndexOfDash(s, 0) == IndexOfDash(s, 1) == IndexOfDash(s, 2) == IndexOfDash(s, 3) == 3;
    assert IndexOfDash(s, 4) == IndexOfDash(s, 5) == IndexOfDash(s, 6) == IndexOfDash(s, 7) == 7;
  }

  lemma ListedSymbol(s: Symbol)
    requires s == BTC_USD || s == ETH_USD || s == SOL_USD
    ensures Base(s) in CURRENCIES && Quote(s) in CURRENCIES
  {
    SymbolParts(s);
    assert s[..3] == "BTC" || s[..3] == "ETH" || s[..3] == "SOL";
    assert s[4..] == "USD";
  }

  lemma GenesisMarkets()
    ensures forall m :: m in Genesis().markets ==> Base(m) in CURRENCIES && Quote(m) in CURRENCIES && Genesis().markets[m].reference > 0
  {
    forall m | m in Genesis().markets
      ensures Base(m) in CURRENCIES && Quote(m) in CURRENCIES && Genesis().markets[m].reference > 0
    {
      ListedSymbol(m);
    }
  }

  lemma EmptyTablesOk(t: Tables)
    requires t.orders == map[] && t.fills == {}
    requires forall key :: key in t.accounts ==> t.accounts[key].reserved == 0 && t.accounts[key].available == t.accounts[key].funded >= 0
    ensures OrdersOk(t) && SequencesDistinct(t.orders) && FillsOk(t) && PairsOnce(t.fills) && QuantitiesOk(t)
    ensures HoldingsOk(t) && AvailableOk(t) && OpenLimitOk(t) && ReservationsExact(t)
  {
    forall user ensures OpenOrdersOf(t.orders, user) == {} {}
  }

  /** A run's first state satisfies the invariant and the reservation equation. */
  lemma GenesisOk()
    ensures Invariant(Genesis()) && ReservationsExact(Genesis())
  {
    GenesisMarkets();
    EmptyTablesOk(Genesis());
  }
}

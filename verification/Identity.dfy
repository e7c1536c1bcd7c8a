/** What one transaction may do to identities: terminal orders stay as they are, orders
    disappear only with their account, new orders need an account, ids never return. */
module Identity {
  import opened Domain
  import opened State
  import opened Settlement
  import opened Matching
  import opened Tick
  import opened Trading
  import opened Simulator
  import opened Members
  import opened Commands
  import opened Runs

  // A user that was drawn once and has no account (any more).
  ghost predicate Departed(t: Tables, user: UserId) {
    user in t.users && forall c :: (user, c) !in t.accounts
  }

  ghost predicate OrderFollows(t: Tables, r: Tables, id: OrderId)
    requires id in t.orders
  {
    if id in r.orders then SameTerms(r.orders[id], t.orders[id]) && (!IsOpen(t.orders[id]) ==> r.orders[id] == t.orders[id])
    else Departed(r, t.orders[id].user)
  }

  // A user's new order starts open, and its user has an account.
  ghost predicate OrderStarts(t: Tables, r: Tables, id: OrderId)
    requires id in r.orders
  {
    id.UserOrder? ==> r.orders[id].status == Open && !Departed(t, id.user)
  }

  ghost predicate Follows(t: Tables, r: Tables) {
    && t.users <= r.users
    && (forall user, c :: user in t.users && (user, c) !in t.accounts ==> (user, c) !in r.accounts)
    && (forall id :: id in t.orders ==> OrderFollows(t, r, id))
    && (forall id :: id in t.orders && t.orders[id].system ==> id in r.orders)
    && (forall id :: id in r.orders && id !in t.orders ==> OrderStarts(t, r, id))
    && (forall user :: user in t.users && user !in BotIds(t) ==> user !in BotIds(r))
  }

  // Steps that leave users, accounts' existence and traders alone and keep every order.
  ghost predicate Trades(t: Tables, r: Tables) {
    && r.users == t.users && r.accounts.Keys == t.accounts.Keys && r.traders == t.traders
    && (forall id :: id in t.orders ==> id in r.orders && OrderFollows(t, r, id))
  }

  lemma TradesFollow(t: Tables, r: Tables)
    requires Trades(t, r)
    requires forall id :: id in r.orders && id !in t.orders ==> OrderStarts(t, r, id)
    ensures Follows(t, r)
  {
  }

  lemma PlaceFollows(t: Tables, user: UserId, order: NewOrder)
    ensures Follows(t, Place(t, user, order).0)
  {
    PlaceChangesOnlyByCreating(t, user, order);
    var r := Place(t, user, order).0;
    if Places(t, user, order) {
      PlaceInserts(t, user, order);
      assert !Departed(t, user);
    }
    TradesFollow(t, r);
  }

  lemma CancelsAllFollows(t: Tables, r: Tables, rows: seq<OrderId>)
    requires CancelsAll(t, r, rows) && AllOpen(t, rows)
    ensures Follows(t, r)
  {
    TradesFollow(t, r);
  }

  lemma CancelFollows(t: Tables, user: UserId, which: Option<OrderId>)
    requires OrdersOk(t) && user != MARKET_MAKER
    ensures Follows(t, CancelOrders(t, user, which).0)
  {
    var rows := BySequence(t.orders, Cancellable(t, user, which));
    CancellableOpen(t, user, which);
    CancelRowsCancels(t, rows);
    if which.Some? && rows == [] {
      NothingFollows(t);
    } else {
      CancelsAllFollows(t, CancelRows(t, rows), rows);
    }
  }

  // A closed order is in no book, so a pass leaves its row alone.
  lemma ClosedRowsStay(t: Tables, instrument: Symbol)
    requires Invariant(t) && instrument in t.markets && Commits(t, instrument)
    ensures forall id :: id in t.orders && !IsOpen(t.orders[id]) ==> MatchTick(t, instrument).orders[id] == t.orders[id]
  {
    TickSettlesEveryFill(t, instrument);
    var buys, sells := Book(t.orders, instrument, Buy), Book(t.orders, instrument, Sell);
    forall id | id in t.orders && !IsOpen(t.orders[id]) ensures !InBook(buys, id) && !InBook(sells, id) {
      forall k | 0 <= k < |buys| ensures buys[k].id != id { assert buys[k] in buys; }
      forall k | 0 <= k < |sells| ensures sells[k].id != id { assert sells[k] in sells; }
    }
  }

  lemma CommittedTickTrades(t: Tables, instrument: Symbol)
    requires Invariant(t) && instrument in t.markets && Commits(t, instrument)
    ensures Trades(t, MatchTick(t, instrument))
  {
    ClosedRowsStay(t, instrument);
    TickSettlesEveryFill(t, instrument);
    ApplyFillsContinues(t, TickFills(t, instrument));
  }

  lemma MatchFollows(t: Tables, instrument: Symbol)
    requires Invariant(t)
    ensures Follows(t, MatchTick(t, instrument))
  {
    if instrument in t.markets && Commits(t, instrument) {
      CommittedTickTrades(t, instrument);
      TradesFollow(t, MatchTick(t, instrument));
    } else {
      NothingFollows(t);
    }
  }

  lemma UsersAloneFollows(t: Tables, r: Tables)
    requires LeavesUsersAlone(t, r)
    ensures Follows(t, r)
  {
    TradesFollow(t, r);
  }

  lemma EnrolFollows(t: Tables, r: Tables, news: set<UserId>, bot: bool)
    requires Enrols(t, r, news, bot) && BotIds(r) <= BotIds(t) + news
    ensures Follows(t, r)
  {
    forall user, c | user in t.users && (user, c) !in t.accounts ensures (user, c) !in r.accounts {
      assert user !in news;
    }
  }

  lemma BootstrapFollows(t: Tables, trader: string, user: UserId)
    requires user !in t.users
    ensures Follows(t, Bootstrap(t, trader, user))
  {
    if trader !in t.traders {
      EnrolFollows(t, Bootstrap(t, trader, user), {user}, true);
    }
  }

  lemma ResetKeepsAbsence(t: Tables, drawn: map<string, UserId>)
    requires DrawnFresh(t, drawn) && !ResetRefused(t)
    ensures forall user, c :: user in t.users && (user, c) !in t.accounts ==> (user, c) !in ResetBots(t, drawn).accounts
    ensures forall user :: user in t.users && user in BotIds(t) ==> Departed(ResetBots(t, drawn), user)
    ensures forall user :: user in t.users ==> user !in BotIds(ResetBots(t, drawn))
  {
    assert forall key :: key in FundedRows(NewIds(drawn), true) ==> key.0 in NewIds(drawn);
    assert BotIds(ResetBots(t, drawn)) == NewIds(drawn);
  }

  lemma ResetDropsOrders(t: Tables, drawn: map<string, UserId>)
    requires DrawnFresh(t, drawn) && !ResetRefused(t)
    ensures var r := ResetBots(t, drawn);
            && (forall id :: id in r.orders ==> id in t.orders && r.orders[id] == t.orders[id])
            && (forall id :: id in t.orders && id !in r.orders ==> t.orders[id].user in BotIds(t))
  {
  }

  lemma ResetFollows(t: Tables, drawn: map<string, UserId>)
    requires OrdersOk(t) && AccountsOk(t) && DrawnFresh(t, drawn)
    ensures Follows(t, ResetBots(t, drawn))
  {
    if !ResetRefused(t) {
      BotsAreDrawn(t);
      ResetKeepsAbsence(t, drawn);
      ResetDropsOrders(t, drawn);
      ResetRowsFollow(t, ResetBots(t, drawn), BotIds(t));
    } else {
      NothingFollows(t);
    }
  }

  // Rows that go belonged to users who go, and none of those is the market maker.
  lemma ResetRowsFollow(t: Tables, r: Tables, gone: set<UserId>)
    requires OrdersOk(t) && MARKET_MAKER !in gone && forall user :: user in gone ==> Departed(r, user)
    requires forall id :: id in r.orders ==> id in t.orders && r.orders[id] == t.orders[id]
    requires forall id :: id in t.orders && id !in r.orders ==> t.orders[id].user in gone
    ensures forall id :: id in t.orders ==> OrderFollows(t, r, id)
    ensures forall id :: id in t.orders && t.orders[id].system ==> id in r.orders
  {
  }

  lemma ConsumeFollows(t: Tables, c: Command)
    requires Invariant(t)
    ensures Follows(t, Apply(t, c).0)
  {
    if Owns(t, c) {
      assert c.user != MARKET_MAKER;
      match c.action {
        case PlaceOrder(order) => PlaceFollows(t, c.user, order);
        case CancelOrder(id) => CancelFollows(t, c.user, Some(id));
      }
    }
  }

  lemma SystemStepFollows(t: Tables, step: Step)
    requires Invariant(t) && Enabled(t, step) && (step.SimulateStep? || step.WithdrawStep? || step.StaleStep?)
    ensures Follows(t, Next(t, step))
  {
    SystemStepSpares(t, step);
    UsersAloneFollows(t, Next(t, step));
  }

  lemma MemberStepFollows(t: Tables, step: Step)
    requires Invariant(t) && Enabled(t, step) && (step.RegisterStep? || step.BootstrapStep? || step.ResetStep?)
    ensures Follows(t, Next(t, step))
  {
    match step {
      case RegisterStep(user) => EnrolFollows(t, Register(t, user), {user}, false);
      case BootstrapStep(trader, user) => BootstrapFollows(t, trader, user);
      case ResetStep(drawn) => ResetFollows(t, drawn);
    }
  }

  lemma TradingStepFollows(t: Tables, step: Step)
    requires Invariant(t) && Enabled(t, step) && (step.PlaceStep? || step.CancelStep? || step.ConsumeStep? || step.MatchStep?)
    ensures Follows(t, Next(t, step))
  {
    match step {
      case PlaceStep(user, order) => PlaceFollows(t, user, order);
      case CancelStep(user, which) => CancelFollows(t, user, which);
      case ConsumeStep(c) => ConsumeFollows(t, c);
      case MatchStep(instrument) => MatchFollows(t, instrument);
    }
  }

  lemma NothingFollows(t: Tables)
    ensures Follows(t, t)
  {
  }

  /** Every transaction respects identities. */
  lemma StepFollows(t: Tables, step: Step)
    requires Invariant(t) && Enabled(t, step)
    ensures Follows(t, Next(t, step))
  {
    if step.PlaceStep? || step.CancelStep? || step.ConsumeStep? || step.MatchStep? {
      TradingStepFollows(t, step);
    } else if step.SimulateStep? || step.WithdrawStep? || step.StaleStep? {
      SystemStepFollows(t, step);
    } else if step.AbortStep? {
      NothingFollows(t);
    } else {
      MemberStepFollows(t, step);
    }
  }

  // --- Terminal orders ---------------------------------------------------------------------------

  lemma DepartedStays(t: Tables, r: Tables, user: UserId)
    requires Follows(t, r) && Departed(t, user)
    ensures Departed(r, user)
  {
  }

  // --- At most one creation, at most one refund --------------------------------------------------

  predicate CreatesNow(t: Tables, r: Tables, id: OrderId) {
    id !in t.orders && id in r.orders
  }

  predicate RefundsNow(t: Tables, r: Tables, id: OrderId) {
    id in t.orders && IsOpen(t.orders[id]) && id in r.orders && r.orders[id].status == Cancelled
  }

  ghost function Creations(t: Tables, steps: seq<Step>, id: OrderId): nat
    requires Possible(t, steps)
    decreases |steps|
  {
    if steps == [] then 0 else
      var r := Next(t, steps[0]);
      (if CreatesNow(t, r, id) then 1 else 0) + Creations(r, steps[1..], id)
  }

  ghost function Refunds(t: Tables, steps: seq<Step>, id: OrderId): nat
    requires Possible(t, steps)
    decreases |steps|
  {
    if steps == [] then 0 else
      var r := Next(t, steps[0]);
      (if RefundsNow(t, r, id) then 1 else 0) + Refunds(r, steps[1..], id)
  }

  // The client order id can never create an order again.
  ghost predicate Used(t: Tables, id: OrderId) {
    id.UserOrder? && (id in t.orders || Departed(t, id.user))
  }

  // The order can never be refunded again.
  ghost predicate Closed(t: Tables, id: OrderId) {
    Used(t, id) && (id in t.orders ==> !IsOpen(t.orders[id]))
  }

  lemma UsedStays(t: Tables, r: Tables, id: OrderId)
    requires OrdersOk(t) && Follows(t, r) && Used(t, id)
    ensures Used(r, id) && !CreatesNow(t, r, id)
    ensures Closed(t, id) ==> Closed(r, id) && !RefundsNow(t, r, id)
  {
    if id in t.orders {
      assert OwnedBy(id, t.orders[id]) && OrderFollows(t, r, id);
    } else {
      DepartedStays(t, r, id.user);
      assert id !in r.orders;
    }
  }

  lemma {:induction false} UsedCreatesNothing(t: Tables, steps: seq<Step>, id: OrderId)
    requires Invariant(t) && Possible(t, steps) && Used(t, id)
    ensures Creations(t, steps, id) == 0
    ensures Closed(t, id) ==> Refunds(t, steps, id) == 0
    decreases |steps|
  {
    if steps != [] {
      StepKeepsInvariant(t, steps[0]);
      StepFollows(t, steps[0]);
      UsedStays(t, Next(t, steps[0]), id);
      UsedCreatesNothing(Next(t, steps[0]), steps[1..], id);
    }
  }

  // The terminal row is there unchanged, or its user's id is used up for good.
  ghost predicate Settled(t: Tables, id: OrderId, row: Order) {
    !IsOpen(row) && if id in t.orders then t.orders[id] == row else Used(t, id)
  }

  lemma SettledStays(t: Tables, r: Tables, id: OrderId, row: Order)
    requires OrdersOk(t) && Follows(t, r) && Settled(t, id, row)
    ensures Settled(r, id, row)
  {
    if id in t.orders {
      assert OrderFollows(t, r, id) && OwnedBy(id, t.orders[id]);
    } else {
      UsedStays(t, r, id);
    }
  }

  lemma {:induction false} SettledForever(t: Tables, steps: seq<Step>, id: OrderId, row: Order)
    requires Invariant(t) && Possible(t, steps) && Settled(t, id, row)
    ensures Settled(After(t, steps), id, row)
    decreases |steps|
  {
    if steps != [] {
      StepKeepsInvariant(t, steps[0]);
      StepFollows(t, steps[0]);
      SettledStays(t, Next(t, steps[0]), id, row);
      SettledForever(Next(t, steps[0]), steps[1..], id, row);
    }
  }

  /** Filled and cancelled are absorbing: over any run such an order's row never changes
      again. A system order's row stays for good; a user's only a reset can delete, together
      with its accounts, for good. */
  lemma TerminalOrdersAbsorb(t: Tables, steps: seq<Step>, id: OrderId)
    requires Invariant(t) && Possible(t, steps) && id in t.orders && !IsOpen(t.orders[id])
    ensures var r := After(t, steps);
            if id in r.orders then r.orders[id] == t.orders[id] else id.UserOrder? && Departed(r, id.user)
  {
    SettledForever(t, steps, id, t.orders[id]);
  }

  /** Under any interleaving and duplication of placements, cancellations, commands, ticks
      and resets, a user's client order id creates at most one order, and so one
      reservation, and that order is refunded by cancellation at most once. */
  lemma {:induction false} OnceOnly(t: Tables, steps: seq<Step>, user: UserId, clientId: string)
    requires Invariant(t) && Possible(t, steps)
    ensures Creations(t, steps, UserOrder(user, clientId)) <= 1
    ensures Refunds(t, steps, UserOrder(user, clientId)) <= 1
    decreases |steps|
  {
    if steps != [] {
      var id, r := UserOrder(user, clientId), Next(t, steps[0]);
      StepKeepsInvariant(t, steps[0]);
      OnceOnly(r, steps[1..], user, clientId);
      if CreatesNow(t, r, id) || RefundsNow(t, r, id) {
        NowUsed(t, r, id);
        UsedCreatesNothing(r, steps[1..], id);
      }
    }
  }

  lemma NowUsed(t: Tables, r: Tables, id: OrderId)
    requires id.UserOrder? && (CreatesNow(t, r, id) || RefundsNow(t, r, id))
    ensures Used(r, id) && (RefundsNow(t, r, id) ==> Closed(r, id))
  {
  }

  // --- The fence around reset bots -----------------------------------------------------------------

  ghost predicate FencedOff(t: Tables, user: UserId) {
    user in t.users && user !in BotIds(t)
  }

  lemma {:induction false} FenceHolds(t: Tables, steps: seq<Step>, user: UserId)
    requires Invariant(t) && Possible(t, steps) && FencedOff(t, user)
    ensures FencedOff(After(t, steps), user)
    decreases |steps|
  {
    if steps != [] {
      StepKeepsInvariant(t, steps[0]);
      StepFollows(t, steps[0]);
      FenceHolds(Next(t, steps[0]), steps[1..], user);
    }
  }

  /** After a committed reset, a command carrying a bot's old user id has no effect in any
      later state. */
  lemma OldCommandsAreFenced(t: Tables, drawn: map<string, UserId>, steps: seq<Step>, command: Command)
    requires Invariant(t) && DrawnFresh(t, drawn) && !ResetRefused(t) && command.user in BotIds(t)
    requires Possible(ResetBots(t, drawn), steps)
    ensures Apply(After(ResetBots(t, drawn), steps), command) == (After(ResetBots(t, drawn), steps), Done)
  {
    var r := ResetBots(t, drawn);
    BotsAreDrawn(t);
    assert BotIds(r) == NewIds(drawn);
    ResetKeepsInvariant(t, drawn);
    FenceHolds(r, steps, command.user);
  }
}

/** The command log among all other writers: the consumer's events interleaved with API
    calls, matching, the simulator and the operator. */
module Interference {
  import opened Domain
  import opened State
  import opened Trading
  import opened Matching
  import opened Tick
  import opened Members
  import opened Commands
  import opened Runs
  import opened Identity
  import opened Consumer
  import opened Outcomes

  datatype Move = Log(event: Event) | Write(step: Step)

  ghost predicate CanMove(p: Partition, m: Move) {
    match m
    case Log(e) => Allowed(p, e)
    case Write(step) => Enabled(p.tables, step)
  }

  ghost function Moved(p: Partition, m: Move): Partition
    requires CanMove(p, m)
  {
    match m
    case Log(e) => Happens(p, e)
    case Write(step) => p.(tables := Next(p.tables, step))
  }

  ghost predicate CanRun(p: Partition, moves: seq<Move>)
    decreases |moves|
  {
    moves == [] || (CanMove(p, moves[0]) && CanRun(Moved(p, moves[0]), moves[1..]))
  }

  ghost function Ran(p: Partition, moves: seq<Move>): Partition
    requires CanRun(p, moves)
    decreases |moves|
  {
    if moves == [] then p else Ran(Moved(p, moves[0]), moves[1..])
  }

  // --- What the moves do to the tables is a run ----------------------------------------------------

  // An attempt that reaches the database is a transaction of its command.
  function StepOf(p: Partition, m: Move): Step {
    match m
    case Write(step) => step
    case Log(Attempt(ending)) =>
      if (ending == Normal || ending == AnswerLost) && p.committed < |p.log| && p.log[p.committed].Carries?
      then ConsumeStep(p.log[p.committed].command) else AbortStep
    case Log(_) => AbortStep
  }

  ghost function StepsOf(p: Partition, moves: seq<Move>): seq<Step>
    requires CanRun(p, moves)
    decreases |moves|
  {
    if moves == [] then [] else [StepOf(p, moves[0])] + StepsOf(Moved(p, moves[0]), moves[1..])
  }

  lemma MoveIsStep(p: Partition, m: Move)
    requires CanMove(p, m)
    ensures Enabled(p.tables, StepOf(p, m)) && Moved(p, m).tables == Next(p.tables, StepOf(p, m))
  {
    if m.Log? && m.event.Attempt? && p.log[p.committed].Carries? {
      var c := p.log[p.committed].command;
      if Apply(p.tables, c).1 == Retry { RetryChangesNothing(p.tables, c); }
    }
  }

  /** However the consumer's events and the other writers interleave, the tables go through
      a run of the exchange's transactions, so every theorem about runs holds of them. */
  lemma {:induction false} MovesAreRun(p: Partition, moves: seq<Move>)
    requires CanRun(p, moves)
    ensures Possible(p.tables, StepsOf(p, moves))
    ensures After(p.tables, StepsOf(p, moves)) == Ran(p, moves).tables
    decreases |moves|
  {
    if moves != [] {
      var q := Moved(p, moves[0]);
      MoveIsStep(p, moves[0]);
      MovesAreRun(q, moves[1..]);
      assert StepsOf(p, moves)[1..] == StepsOf(q, moves[1..]);
    }
  }

  // --- A command has at most one effect --------------------------------------------------------------

  // The command can change nothing any more.
  ghost predicate Inert(t: Tables, c: Command) {
    match c.action
    case PlaceOrder(order) => Used(t, UserOrder(c.user, order.clientOrderId))
    case CancelOrder(id) => Closed(t, id)
  }

  lemma UsedPlacesNothing(t: Tables, user: UserId, order: NewOrder)
    requires Used(t, UserOrder(user, order.clientOrderId))
    ensures Place(t, user, order).0 == t
  {
    PlaceChangesOnlyByCreating(t, user, order);
    if Places(t, user, order) {
      PlaceInserts(t, user, order);
      assert false;
    }
  }

  lemma NothingToCancel(t: Tables, user: UserId, id: OrderId)
    requires id !in Cancellable(t, user, Some(id))
    ensures CancelOrders(t, user, Some(id)).0 == t
  {
    assert Cancellable(t, user, Some(id)) == {};
    CancellingNothing(t, user, Some(id));
  }

  lemma InertDoesNothing(t: Tables, c: Command)
    requires Inert(t, c)
    ensures Apply(t, c).0 == t
  {
    match c.action {
      case PlaceOrder(order) => UsedPlacesNothing(t, c.user, order);
      case CancelOrder(id) => NothingToCancel(t, c.user, id);
    }
  }

  lemma EffectNamesOpenOrder(t: Tables, user: UserId, id: OrderId)
    requires OrdersOk(t) && user != MARKET_MAKER && CancelOrders(t, user, Some(id)).0 != t
    ensures id in Cancellable(t, user, Some(id)) && id.UserOrder? && CancelOrders(t, user, Some(id)).1.Ok?
  {
    if id !in Cancellable(t, user, Some(id)) {
      NothingToCancel(t, user, id);
      assert false;
    }
    assert OwnedBy(id, t.orders[id]);
  }

  lemma CancelledIsClosed(t: Tables, r: Tables, rows: seq<OrderId>, id: OrderId)
    requires CancelsAll(t, r, rows) && id in rows && id in t.orders && id.UserOrder?
    ensures Closed(r, id)
  {
  }

  lemma CancelCloses(t: Tables, user: UserId, id: OrderId)
    requires OrdersOk(t) && user != MARKET_MAKER && CancelOrders(t, user, Some(id)).0 != t
    ensures Closed(CancelOrders(t, user, Some(id)).0, id)
  {
    var rows := BySequence(t.orders, Cancellable(t, user, Some(id)));
    EffectNamesOpenOrder(t, user, id);
    CancellableOpen(t, user, Some(id));
    CancelRowsCancels(t, rows);
    CancelledIsClosed(t, CancelRows(t, rows), rows, id);
  }

  lemma EffectMakesInert(t: Tables, c: Command)
    requires OrdersOk(t) && AccountsOk(t) && Apply(t, c).0 != t
    ensures Inert(Apply(t, c).0, c)
  {
    match c.action {
      case PlaceOrder(order) => PlaceChangesOnlyByCreating(t, c.user, order);
      case CancelOrder(id) => CancelCloses(t, c.user, id);
    }
  }

  lemma InertStays(t: Tables, r: Tables, c: Command)
    requires OrdersOk(t) && Follows(t, r) && Inert(t, c)
    ensures Inert(r, c)
  {
    match c.action {
      case PlaceOrder(order) => UsedStays(t, r, UserOrder(c.user, order.clientOrderId));
      case CancelOrder(id) => UsedStays(t, r, id);
    }
  }

  // How often applying the command changed the tables.
  ghost function Effects(t: Tables, steps: seq<Step>, c: Command): nat
    requires Possible(t, steps)
    decreases |steps|
  {
    if steps == [] then 0 else
      (if steps[0] == ConsumeStep(c) && Next(t, steps[0]) != t then 1 else 0) + Effects(Next(t, steps[0]), steps[1..], c)
  }

  lemma {:induction false} InertHasNoEffect(t: Tables, steps: seq<Step>, c: Command)
    requires Invariant(t) && Possible(t, steps) && Inert(t, c)
    ensures Effects(t, steps, c) == 0
    decreases |steps|
  {
    if steps != [] {
      InertDoesNothing(t, c);
      StepKeepsInvariant(t, steps[0]);
      StepFollows(t, steps[0]);
      InertStays(t, Next(t, steps[0]), c);
      InertHasNoEffect(Next(t, steps[0]), steps[1..], c);
    }
  }

  /** Among any other transactions, and however often it is applied, a command changes the
      tables at most once. */
  lemma {:induction false} CommandActsOnce(t: Tables, steps: seq<Step>, c: Command)
    requires Invariant(t) && Possible(t, steps)
    ensures Effects(t, steps, c) <= 1
    decreases |steps|
  {
    if steps != [] {
      var r := Next(t, steps[0]);
      StepKeepsInvariant(t, steps[0]);
      if steps[0] == ConsumeStep(c) && r != t {
        EffectMakesInert(t, c);
        InertHasNoEffect(r, steps[1..], c);
      } else {
        CommandActsOnce(r, steps[1..], c);
      }
    }
  }

  // --- A committed command was applied -----------------------------------------------------------------

  // The offsets whose attempts ended with a final answer.
  ghost function Answered(p: Partition, moves: seq<Move>): set<nat>
    requires CanRun(p, moves)
    decreases |moves|
  {
    if moves == [] then {} else
      var q := Moved(p, moves[0]);
      (if moves[0].Log? && moves[0].event.Attempt? && q.phase == Applied(false) then {p.committed} else {})
      + Answered(q, moves[1..])
  }

  // Every committed entry was answered or lost its INSERT, and the one at hand if applied.
  predicate Accounted(p: Partition, answered: set<nat>) {
    && (forall k :: 0 <= k < p.committed ==> k in answered || k in p.dropped)
    && (p.phase == Applied(false) ==> p.committed in answered)
  }

  lemma {:induction false} CommittedWasAnswered(p: Partition, moves: seq<Move>, answered: set<nat>)
    requires CanRun(p, moves) && Accounted(p, answered)
    ensures Accounted(Ran(p, moves), answered + Answered(p, moves))
    decreases |moves|
  {
    if moves != [] {
      var q := Moved(p, moves[0]);
      var more := if moves[0].Log? && moves[0].event.Attempt? && q.phase == Applied(false) then {p.committed} else {};
      CommittedWasAnswered(q, moves[1..], answered + more);
      assert answered + Answered(p, moves) == answered + more + Answered(q, moves[1..]);
    }
  }

  /** Among other writers, with crashes, lost answers and restarts anywhere: the exchange's
      invariant holds, no offset is committed past a command that was not applied, failed
      INSERTs aside, and no command takes effect twice. */
  lemma ExactlyOnceAmongWriters(p: Partition, moves: seq<Move>, c: Command)
    requires Invariant(p.tables) && p.committed == 0 && p.phase == Receiving && CanRun(p, moves)
    ensures Invariant(Ran(p, moves).tables)
    ensures Accounted(Ran(p, moves), Answered(p, moves))
    ensures Possible(p.tables, StepsOf(p, moves)) && Effects(p.tables, StepsOf(p, moves), c) <= 1
  {
    MovesAreRun(p, moves);
    RunKeepsInvariant(p.tables, StepsOf(p, moves));
    CommandActsOnce(p.tables, StepsOf(p, moves), c);
    CommittedWasAnswered(p, moves, {});
    assert {} + Answered(p, moves) == Answered(p, moves);
  }

  /** A trader's placement that can act when an attempt reaches the database has acted: the
      order is there with its reservation, and the client id creates no other. */
  lemma AnsweredPlacementHasActed(p: Partition, ending: Ending, c: Command, order: NewOrder)
    requires Allowed(p, Attempt(ending)) && (ending == Normal || ending == AnswerLost)
    requires p.log[p.committed] == Carries(c) && c.action == PlaceOrder(order)
    requires c.trader in p.tables.traders && p.tables.traders[c.trader] == c.user
    requires Considered(p.tables, c.user, order) && OnFreshMarket(p.tables, order) && Covered(p.tables, c.user, order)
    ensures var r := Happens(p, Attempt(ending)).tables;
            Created(p.tables, r, c.user, order) && UserOrder(c.user, order.clientOrderId) in r.orders && Inert(r, c)
  {
    OwnPlacement(p.tables, c, order);
  }

  // --- A committed cancellation has acted ----------------------------------------------------------------

  // The trader's own order, open or not, or one that is closed for good.
  ghost predicate OwnedOrClosed(t: Tables, c: Command, id: OrderId) {
    (Owns(t, c) && id in t.orders && t.orders[id].user == c.user && id.UserOrder?) || Closed(t, id)
  }

  lemma OwnerStays(t: Tables, step: Step, c: Command)
    requires Invariant(t) && Enabled(t, step) && Owns(t, c)
    ensures Owns(Next(t, step), c) || Departed(Next(t, step), c.user)
  {
    match step {
      case PlaceStep(user, order) => TradersStay(t, user, order);
      case CancelStep(user, which) => CancelOwner(t, user, which);
      case ConsumeStep(other) => CommandKeepsTraders(t, other);
      case MatchStep(instrument) => MatchKeepsTraders(t, instrument);
      case SimulateStep(_, _) => SystemStepSpares(t, step);
      case ResetStep(drawn) => ResetMovesOwner(t, drawn, c);
      case _ =>
    }
  }

  lemma TradersStay(t: Tables, user: UserId, order: NewOrder)
    ensures Place(t, user, order).0.traders == t.traders
  {
  }

  lemma CommandKeepsTraders(t: Tables, c: Command)
    requires OrdersOk(t) && AccountsOk(t)
    ensures Apply(t, c).0.traders == t.traders
  {
    if Owns(t, c) {
      match c.action {
        case PlaceOrder(order) => TradersStay(t, c.user, order);
        case CancelOrder(id) => CancelOwner(t, c.user, Some(id));
      }
    }
  }

  lemma MatchKeepsTraders(t: Tables, instrument: Symbol)
    requires Invariant(t)
    ensures MatchTick(t, instrument).traders == t.traders
  {
    if instrument in t.markets && Commits(t, instrument) { CommittedTickTrades(t, instrument); }
  }

  lemma ResetMovesOwner(t: Tables, drawn: map<string, UserId>, c: Command)
    requires Invariant(t) && DrawnFresh(t, drawn) && Owns(t, c)
    ensures Owns(ResetBots(t, drawn), c) || Departed(ResetBots(t, drawn), c.user)
  {
    if !ResetRefused(t) {
      BotsAreDrawn(t);
      ResetKeepsAbsence(t, drawn);
      assert c.user in BotIds(t);
    }
  }

  lemma DepartedOrderIsClosed(t: Tables, id: OrderId, user: UserId)
    requires OrdersOk(t) && Departed(t, user) && id.UserOrder? && id.user == user
    ensures Closed(t, id)
  {
    if id in t.orders { assert false; }
  }

  lemma OwnedOrClosedStays(t: Tables, step: Step, c: Command, id: OrderId)
    requires Invariant(t) && Enabled(t, step) && OwnedOrClosed(t, c, id)
    ensures OwnedOrClosed(Next(t, step), c, id)
    ensures Closed(t, id) ==> Closed(Next(t, step), id)
  {
    StepKeepsInvariant(t, step);
    StepFollows(t, step);
    if Closed(t, id) {
      UsedStays(t, Next(t, step), id);
    } else {
      OwnerStays(t, step, c);
      OwnedOrderStays(t, Next(t, step), c, id);
    }
  }

  lemma OwnedOrderStays(t: Tables, r: Tables, c: Command, id: OrderId)
    requires OrdersOk(t) && OrdersOk(r) && Follows(t, r) && (Owns(r, c) || Departed(r, c.user))
    requires id in t.orders && t.orders[id].user == c.user && id.UserOrder?
    ensures OwnedOrClosed(r, c, id)
  {
    assert OwnedBy(id, t.orders[id]) && OrderFollows(t, r, id);
    if Departed(r, c.user) || id !in r.orders {
      DepartedOrderIsClosed(r, id, c.user);
    }
  }

  lemma OpenCancelCloses(t: Tables, user: UserId, id: OrderId)
    requires OrdersOk(t) && user != MARKET_MAKER && id in OpenOrdersOf(t.orders, user) && id.UserOrder?
    ensures Closed(CancelOrders(t, user, Some(id)).0, id)
  {
    var rows := BySequence(t.orders, Cancellable(t, user, Some(id)));
    assert id in Cancellable(t, user, Some(id));
    CancellableOpen(t, user, Some(id));
    CancelRowsCancels(t, rows);
    CancelledIsClosed(t, CancelRows(t, rows), rows, id);
  }

  lemma OwnCancelCloses(t: Tables, c: Command, id: OrderId)
    requires OrdersOk(t) && AccountsOk(t) && c.action == CancelOrder(id) && OwnedOrClosed(t, c, id)
    ensures Closed(Apply(t, c).0, id)
  {
    if Closed(t, id) {
      InertDoesNothing(t, c);
    } else {
      OwnCancelIsCancel(t, c, id);
      OpenCancelCloses(t, c.user, id);
    }
  }

  // While the entry waits its order is the trader's.
  ghost predicate Waits(t: Tables, c: Command, id: OrderId) {
    Invariant(t) && OwnedOrClosed(t, c, id)
  }

  // Once the entry is answered, or committed and not lost, the order is closed.
  predicate Honoured(p: Partition, k: nat, c: Command, closed: bool) {
    && (k < |p.log| ==> p.log[k] == Carries(c))
    && (p.committed == k && p.phase == Applied(false) ==> closed)
    && (p.committed > k && k !in p.dropped ==> closed)
  }

  lemma TablesWait(p: Partition, m: Move, c: Command, id: OrderId)
    requires CanMove(p, m) && Waits(p.tables, c, id)
    ensures Waits(Moved(p, m).tables, c, id) && (Closed(p.tables, id) ==> Closed(Moved(p, m).tables, id))
  {
    MoveIsStep(p, m);
    StepKeepsInvariant(p.tables, StepOf(p, m));
    OwnedOrClosedStays(p.tables, StepOf(p, m), c, id);
  }

  lemma AnswerCloses(p: Partition, ending: Ending, k: nat, c: Command, id: OrderId)
    requires c.action == CancelOrder(id) && Waits(p.tables, c, id) && Allowed(p, Attempt(ending))
    requires p.committed == k && k < |p.log| && p.log[k] == Carries(c) && Happens(p, Attempt(ending)).phase == Applied(false)
    ensures Closed(Happens(p, Attempt(ending)).tables, id)
  {
    OwnCancelCloses(p.tables, c, id);
  }

  lemma PromiseHonoured(p: Partition, m: Move, k: nat, c: Command, before: bool, after: bool)
    requires CanMove(p, m) && Honoured(p, k, c, before) && (before ==> after)
    requires k < |Moved(p, m).log| ==> Moved(p, m).log[k] == Carries(c)
    requires m.Log? && m.event.Attempt? && p.committed == k && Moved(p, m).phase == Applied(false) ==> after
    ensures Honoured(Moved(p, m), k, c, after)
  {
  }

  lemma MoveKeepsTrack(p: Partition, m: Move, k: nat, c: Command, id: OrderId)
    requires c.action == CancelOrder(id) && CanMove(p, m) && Waits(p.tables, c, id) && Honoured(p, k, c, Closed(p.tables, id))
    requires k < |Moved(p, m).log| ==> Moved(p, m).log[k] == Carries(c)
    ensures Waits(Moved(p, m).tables, c, id) && Honoured(Moved(p, m), k, c, Closed(Moved(p, m).tables, id))
  {
    TablesWait(p, m, c, id);
    if m.Log? && m.event.Attempt? && p.committed == k && Moved(p, m).phase == Applied(false) {
      AnswerCloses(p, m.event.ending, k, c, id);
    }
    PromiseHonoured(p, m, k, c, Closed(p.tables, id), Closed(Moved(p, m).tables, id));
  }

  lemma {:induction false} LogGrows(p: Partition, moves: seq<Move>)
    requires CanRun(p, moves)
    ensures p.log <= Ran(p, moves).log
    decreases |moves|
  {
    if moves != [] { LogGrows(Moved(p, moves[0]), moves[1..]); }
  }

  lemma {:induction false} TrackedToTheEnd(p: Partition, moves: seq<Move>, k: nat, c: Command, id: OrderId)
    requires c.action == CancelOrder(id) && CanRun(p, moves)
    requires Waits(p.tables, c, id) && Honoured(p, k, c, Closed(p.tables, id))
    requires k < |Ran(p, moves).log| && Ran(p, moves).log[k] == Carries(c)
    ensures Honoured(Ran(p, moves), k, c, Closed(Ran(p, moves).tables, id))
    decreases |moves|
  {
    if moves != [] {
      LogGrows(Moved(p, moves[0]), moves[1..]);
      MoveKeepsTrack(p, moves[0], k, c, id);
      TrackedToTheEnd(Moved(p, moves[0]), moves[1..], k, c, id);
    }
  }

  lemma OwnOrderWaits(t: Tables, c: Command, id: OrderId)
    requires Invariant(t) && c.trader in t.traders && t.traders[c.trader] == c.user
    requires id in t.orders && t.orders[id].user == c.user
    ensures Waits(t, c, id)
  {
    assert OwnedBy(id, t.orders[id]) && c.user != MARKET_MAKER;
  }

  lemma ClosedIsNotOpen(t: Tables, id: OrderId)
    requires Closed(t, id)
    ensures id !in t.orders || t.orders[id].status in {Filled, Cancelled}
  {
  }

  /** A trader's command to cancel its own order has acted once its offset is committed,
      whatever crashes and whoever else writes: the order is not open, then or later. */
  lemma CommittedCancelHasActed(p: Partition, moves: seq<Move>, k: nat, c: Command, id: OrderId)
    requires Invariant(p.tables) && p.committed <= k && p.phase == Receiving && CanRun(p, moves)
    requires c.action == CancelOrder(id) && c.trader in p.tables.traders && p.tables.traders[c.trader] == c.user
    requires id in p.tables.orders && p.tables.orders[id].user == c.user
    requires var q := Ran(p, moves); k < q.committed && k < |q.log| && q.log[k] == Carries(c) && k !in q.dropped
    ensures var q := Ran(p, moves); id !in q.tables.orders || q.tables.orders[id].status in {Filled, Cancelled}
  {
    OwnOrderWaits(p.tables, c, id);
    LogGrows(p, moves);
    TrackedToTheEnd(p, moves, k, c, id);
    ClosedIsNotOpen(Ran(p, moves).tables, id);
  }
}

/** Applying one trader command from the log (crates/worker/src/commands.rs, apply). */
module Commands {
  import opened Domain
  import opened State
  import opened Trading

  datatype Action = PlaceOrder(order: NewOrder) | CancelOrder(id: OrderId)

  datatype Command = Command(trader: string, user: UserId, action: Action)

  // Retry is the error that makes the consumer restart at its committed offset.
  datatype Verdict = Done | Retry

  predicate Owns(t: Tables, c: Command) {
    c.trader in t.traders && t.traders[c.trader] == c.user
  }

  function VerdictOf<T>(reply: Reply<T>): Verdict {
    if reply == Err(Unavailable) then Retry else Done
  }

  /** Only the trader's current account may act; every refusal by the trading rules is
      final, and only Unavailable asks to be tried again. */
  ghost function Apply(t: Tables, c: Command): (Tables, Verdict) {
    if !Owns(t, c) then (t, Done) else
      match c.action
      case PlaceOrder(order) => var (r, reply) := Place(t, c.user, order); (r, VerdictOf(reply))
      case CancelOrder(id) => var (r, reply) := CancelOrders(t, c.user, Some(id)); (r, VerdictOf(reply))
  }

  /** A command that asks to be retried has changed nothing. */
  lemma RetryChangesNothing(t: Tables, c: Command)
    requires Apply(t, c).1 == Retry
    ensures Apply(t, c).0 == t
  {
    if Owns(t, c) && c.action.PlaceOrder? {
      PlaceChangesOnlyByCreating(t, c.user, c.action.order);
    }
  }

  lemma PlaceTwice(t: Tables, user: UserId, order: NewOrder)
    ensures Place(Place(t, user, order).0, user, order).0 == Place(t, user, order).0
    ensures Places(t, user, order) ==> Place(Place(t, user, order).0, user, order).1.Ok?
  {
    PlaceChangesOnlyByCreating(t, user, order);
  }

  /** Applying a command a second time has no further effect, and is final if the first
      time was. */
  lemma ApplyTwice(t: Tables, c: Command)
    requires Invariant(t)
    ensures Apply(Apply(t, c).0, c).0 == Apply(t, c).0
    ensures Apply(t, c).1 == Done ==> Apply(Apply(t, c).0, c).1 == Done
  {
    if Owns(t, c) {
      match c.action {
        case PlaceOrder(order) =>
          PlaceTwice(t, c.user, order);
          PlaceChangesOnlyByCreating(t, c.user, order);
        case CancelOrder(id) =>
          assert c.user != MARKET_MAKER;
          CancelTwice(t, c.user, Some(id));
          CancelOwner(t, c.user, Some(id));
      }
    }
  }

  lemma CancelOwner(t: Tables, user: UserId, which: Option<OrderId>)
    requires OrdersOk(t) && user != MARKET_MAKER
    ensures CancelOrders(t, user, which).0.traders == t.traders
  {
    CancellableOpen(t, user, which);
    CancelRowsCancels(t, BySequence(t.orders, Cancellable(t, user, which)));
  }

  lemma ApplyKeepsInvariant(t: Tables, c: Command)
    requires Invariant(t)
    ensures Invariant(Apply(t, c).0)
  {
    if Owns(t, c) {
      assert c.user != MARKET_MAKER;
      match c.action {
        case PlaceOrder(order) => PlaceKeepsInvariant(t, c.user, order);
        case CancelOrder(id) => CancelKeepsInvariant(t, c.user, Some(id));
      }
    }
  }
}

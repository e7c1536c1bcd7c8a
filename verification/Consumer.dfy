/** The at-least-once command log: one partition, its consumer and its producers
    (crates/worker/src/commands.rs run and supervise, crates/config/src/kafka.rs send). */
module Consumer {
  import opened State
  import opened Trading
  import opened Commands

  // A message is a command, or a payload that does not parse.
  datatype Entry = Poison | Carries(command: Command)

  // Between receiving a message and committing its offset the consumer has applied it;
  // `lost` remembers that the INSERT of its order failed and was answered Invalid.
  datatype Phase = Receiving | Applied(lost: bool)

  // `dropped` is history: the committed entries whose INSERT had failed.
  datatype Partition = Partition(log: seq<Entry>, committed: nat, phase: Phase, tables: Tables, dropped: set<nat>)

  // How the database lets one attempt end: normally; committed but with the answer lost;
  // rolled back; or with the INSERT of the order failing.
  datatype Ending = Normal | AnswerLost | RolledBack | InsertFailed

  datatype Event =
    | Attempt(ending: Ending)
    | CommitOffset
    | Restart
    | Append(entry: Entry)

  predicate InsertCanFail(t: Tables, c: Command) {
    Owns(t, c) && c.action.PlaceOrder? && Places(t, c.user, c.action.order)
  }

  predicate Allowed(p: Partition, e: Event) {
    match e
    case Attempt(ending) =>
      && p.phase == Receiving && p.committed < |p.log|
      && (ending == InsertFailed ==> p.log[p.committed].Carries? && InsertCanFail(p.tables, p.log[p.committed].command))
    case CommitOffset => p.phase.Applied?
    case _ => true
  }

  /** One event. A retry, a lost answer and a failed offset commit all end in Restart's
      state: back to receiving at the committed offset. A commit whose acknowledgement is
      lost is CommitOffset followed by Restart. */
  ghost function Happens(p: Partition, e: Event): Partition
    requires Allowed(p, e)
  {
    match e
    case Attempt(ending) =>
      if p.log[p.committed].Poison? then p.(phase := Applied(false)) else
        var (applied, verdict) := Apply(p.tables, p.log[p.committed].command);
        (match ending
         case Normal => if verdict == Retry then p else p.(tables := applied, phase := Applied(false))
         case AnswerLost => p.(tables := applied)
         case RolledBack => p
         case InsertFailed => p.(phase := Applied(true)))
    case CommitOffset =>
      p.(committed := p.committed + 1, phase := Receiving,
         dropped := if p.phase.lost then p.dropped + {p.committed} else p.dropped)
    case Restart => p.(phase := Receiving)
    case Append(entry) => p.(log := p.log + [entry])
  }

  ghost predicate CanHappen(p: Partition, events: seq<Event>)
    decreases |events|
  {
    events == [] || (Allowed(p, events[0]) && CanHappen(Happens(p, events[0]), events[1..]))
  }

  ghost function Ends(p: Partition, events: seq<Event>): Partition
    requires CanHappen(p, events)
    decreases |events|
  {
    if events == [] then p else Ends(Happens(p, events[0]), events[1..])
  }

  /** Undisturbed, a final answer is applied once and its offset committed, and a retry
      leaves the partition as it was. */
  lemma NormalProgress(p: Partition)
    requires p.phase == Receiving && p.committed < |p.log| && p.log[p.committed].Carries?
    ensures var c := p.log[p.committed].command;
            var r := Happens(p, Attempt(Normal));
            if Apply(p.tables, c).1 == Retry then r == p
            else r.phase == Applied(false)
                 && Happens(r, CommitOffset) == p.(committed := p.committed + 1, tables := Apply(p.tables, c).0)
  {
  }

  /** A message that does not parse is passed over and changes nothing. */
  lemma PoisonIsPassed(p: Partition)
    requires p.phase == Receiving && p.committed < |p.log| && p.log[p.committed].Poison?
    ensures Happens(Happens(p, Attempt(Normal)), CommitOffset) == p.(committed := p.committed + 1)
  {
  }

  // --- What the log means ---------------------------------------------------------------------

  ghost function ApplyEntry(t: Tables, e: Entry): Tables {
    if e.Poison? then t else Apply(t, e.command).0
  }

  /** The first n entries applied once each, in order, leaving out the dropped ones. */
  ghost function Fold(t: Tables, log: seq<Entry>, n: nat, dropped: set<nat>): Tables
    requires n <= |log|
  {
    if n == 0 then t else
      var before := Fold(t, log, n - 1, dropped);
      if n - 1 in dropped then before else ApplyEntry(before, log[n - 1])
  }

  lemma {:induction false} FoldDependsOnPrefix(t: Tables, a: seq<Entry>, b: seq<Entry>, n: nat, d: set<nat>, d': set<nat>)
    requires n <= |a| && n <= |b| && a[..n] == b[..n] && forall k :: 0 <= k < n ==> (k in d <==> k in d')
    ensures Fold(t, a, n, d) == Fold(t, b, n, d')
    decreases n
  {
    if n > 0 {
      assert a[..n - 1] == a[..n][..n - 1] == b[..n - 1];
      assert a[n - 1] == a[..n][n - 1] == b[n - 1];
      FoldDependsOnPrefix(t, a, b, n - 1, d, d');
    }
  }

  lemma {:induction false} FoldKeepsInvariant(t: Tables, log: seq<Entry>, n: nat, dropped: set<nat>)
    requires Invariant(t) && n <= |log|
    ensures Invariant(Fold(t, log, n, dropped))
    decreases n
  {
    if n > 0 {
      FoldKeepsInvariant(t, log, n - 1, dropped);
      var before := Fold(t, log, n - 1, dropped);
      if log[n - 1].Carries? { ApplyKeepsInvariant(before, log[n - 1].command); }
    }
  }

  // --- Crash refinement ------------------------------------------------------------------------

  /** The tables are the fold of the committed entries, or of one more. */
  ghost predicate Refines(t0: Tables, p: Partition) {
    && p.committed <= |p.log|
    && (forall k :: k in p.dropped ==> k < p.committed)
    && var done := Fold(t0, p.log, p.committed, p.dropped);
       match p.phase
       case Receiving => p.tables == done || (p.committed < |p.log| && p.tables == ApplyEntry(done, p.log[p.committed]))
       case Applied(lost) =>
         && p.committed < |p.log| && p.tables == (if lost then done else ApplyEntry(done, p.log[p.committed]))
         && (lost ==> p.log[p.committed].Carries? && InsertCanFail(p.tables, p.log[p.committed].command))
  }

  lemma AttemptRefines(t0: Tables, p: Partition, ending: Ending)
    requires Invariant(t0) && Refines(t0, p) && Allowed(p, Attempt(ending))
    ensures Refines(t0, Happens(p, Attempt(ending)))
  {
    var done := Fold(t0, p.log, p.committed, p.dropped);
    FoldKeepsInvariant(t0, p.log, p.committed, p.dropped);
    AttemptFrom(done, p, ending);
  }

  lemma AttemptFrom(done: Tables, p: Partition, ending: Ending)
    requires Invariant(done) && Allowed(p, Attempt(ending))
    requires p.tables == done || p.tables == ApplyEntry(done, p.log[p.committed])
    ensures var r := Happens(p, Attempt(ending));
            var applied := ApplyEntry(done, p.log[p.committed]);
            && r == p.(phase := r.phase, tables := r.tables)
            && match r.phase
               case Receiving => r.tables == done || r.tables == applied
               case Applied(lost) =>
                 && r.tables == (if lost then done else applied)
                 && (lost ==> p.log[p.committed].Carries? && InsertCanFail(r.tables, p.log[p.committed].command))
  {
    var entry := p.log[p.committed];
    if entry.Carries? {
      AttemptOutcome(done, p.tables, entry.command);
      AttemptEffect(done, ApplyEntry(done, entry), p, ending, entry.command);
    }
  }

  lemma AttemptEffect(done: Tables, applied: Tables, p: Partition, ending: Ending, c: Command)
    requires Allowed(p, Attempt(ending)) && p.log[p.committed] == Carries(c)
    requires (p.tables == done || p.tables == applied) && Apply(p.tables, c).0 == applied
    requires InsertCanFail(p.tables, c) ==> p.tables == done
    ensures var r := Happens(p, Attempt(ending));
            && r == p.(phase := r.phase, tables := r.tables)
            && match r.phase
               case Receiving => r.tables == done || r.tables == applied
               case Applied(lost) => r.tables == (if lost then done else applied) && (lost ==> InsertCanFail(r.tables, c))
  {
  }

  // A command tried on the tables before or after its own effect lands on that effect; its
  // INSERT can only fail before.
  lemma AttemptOutcome(done: Tables, t: Tables, c: Command)
    requires Invariant(done) && (t == done || t == Apply(done, c).0)
    ensures Apply(t, c).0 == Apply(done, c).0
    ensures InsertCanFail(t, c) ==> t == done
  {
    ApplyTwice(done, c);
    if InsertCanFail(t, c) && t != done {
      AppliedOnce(done, c);
      assert false;
    }
  }

  lemma AppliedOnce(done: Tables, c: Command)
    requires Invariant(done) && Apply(done, c).0 != done
    ensures !InsertCanFail(Apply(done, c).0, c)
  {
    if c.action.PlaceOrder? {
      PlaceChangesOnlyByCreating(done, c.user, c.action.order);
      PlaceChangesOnlyByCreating(Apply(done, c).0, c.user, c.action.order);
    }
  }

  lemma FoldStep(t0: Tables, log: seq<Entry>, n: nat, dropped: set<nat>, lost: bool)
    requires n < |log| && forall k :: k in dropped ==> k < n
    ensures var dropped' := if lost then dropped + {n} else dropped;
            var before := Fold(t0, log, n, dropped);
            Fold(t0, log, n + 1, dropped') == if lost then before else ApplyEntry(before, log[n])
  {
    FoldDependsOnPrefix(t0, log, log, n, dropped, if lost then dropped + {n} else dropped);
  }

  lemma CommitRefines(t0: Tables, p: Partition)
    requires Refines(t0, p) && p.phase.Applied?
    ensures Refines(t0, Happens(p, CommitOffset))
  {
    FoldStep(t0, p.log, p.committed, p.dropped, p.phase.lost);
  }

  lemma AppendRefines(t0: Tables, p: Partition, entry: Entry)
    requires Refines(t0, p)
    ensures Refines(t0, Happens(p, Append(entry)))
  {
    var r := Happens(p, Append(entry));
    assert p.log[..p.committed] == r.log[..p.committed];
    FoldDependsOnPrefix(t0, p.log, r.log, p.committed, p.dropped, p.dropped);
  }

  ghost predicate Starts(t0: Tables, p: Partition) {
    p.committed == 0 && p.phase == Receiving && p.tables == t0 && p.dropped == {}
  }

  /** However crashes, lost answers, ambiguous commits, restarts and appends interleave,
      the tables are always the fold of apply over the committed entries or over one more,
      each entry counted once and dropped only where its INSERT failed. */
  lemma {:induction false} CrashRefinement(t0: Tables, p: Partition, events: seq<Event>)
    requires Invariant(t0) && Refines(t0, p) && CanHappen(p, events)
    ensures Refines(t0, Ends(p, events))
    decreases |events|
  {
    if events != [] {
      match events[0] {
        case Attempt(ending) => AttemptRefines(t0, p, ending);
        case CommitOffset => CommitRefines(t0, p);
        case Restart =>
        case Append(entry) => AppendRefines(t0, p, entry);
      }
      CrashRefinement(t0, Happens(p, events[0]), events[1..]);
    }
  }

  // No offset is committed right after a failed INSERT.
  ghost predicate CommitsOnlyApplied(p: Partition, events: seq<Event>)
    requires CanHappen(p, events)
    decreases |events|
  {
    events == [] ||
    ((events[0] == CommitOffset ==> p.phase != Applied(true)) && CommitsOnlyApplied(Happens(p, events[0]), events[1..]))
  }

  /** An entry is left out exactly by committing its offset after its INSERT failed. */
  lemma {:induction false} DroppedIff(p: Partition, events: seq<Event>)
    requires CanHappen(p, events) && forall k :: k in p.dropped ==> k < p.committed
    ensures p.dropped <= Ends(p, events).dropped
    ensures Ends(p, events).dropped == p.dropped <==> CommitsOnlyApplied(p, events)
    decreases |events|
  {
    if events != [] {
      var r := Happens(p, events[0]);
      assert forall k :: k in r.dropped ==> k < r.committed;
      DroppedIff(r, events[1..]);
    }
  }

  // The exactly-once state of a partition whose committed entries were all applied.
  ghost predicate OnceEach(t0: Tables, p: Partition) {
    && p.committed <= |p.log|
    && (p.tables == Fold(t0, p.log, p.committed, {})
        || (p.committed < |p.log| && p.tables == Fold(t0, p.log, p.committed + 1, {})))
  }

  lemma NoneDroppedIsOnceEach(t0: Tables, p: Partition)
    requires Refines(t0, p) && p.dropped == {}
    ensures OnceEach(t0, p)
  {
    if p.committed < |p.log| {
      FoldStep(t0, p.log, p.committed, {}, false);
    }
  }

  /** Unless an offset is committed right after a failed INSERT the effect is exactly once:
      the first n entries, or the first n + 1, where n is the committed offset. An INSERT
      that fails and is tried again after a restart does no harm. */
  lemma ExactlyOnce(t0: Tables, p: Partition, events: seq<Event>)
    requires Invariant(t0) && Starts(t0, p) && CanHappen(p, events) && CommitsOnlyApplied(p, events)
    ensures OnceEach(t0, Ends(p, events))
  {
    CrashRefinement(t0, p, events);
    DroppedIff(p, events);
    NoneDroppedIsOnceEach(t0, Ends(p, events));
  }

  /** At any offset, committing keeps the effect of the entry exactly when its INSERT had
      not failed: a failed INSERT is answered Invalid, so the consumer commits past a
      command that would have created its order. */
  lemma CommitLosesIff(t0: Tables, p: Partition)
    requires Refines(t0, p) && p.phase.Applied?
    ensures var done := Fold(t0, p.log, p.committed, p.dropped);
            var r := Happens(p, CommitOffset);
            && (r.tables == ApplyEntry(done, p.log[p.committed]) <==> !p.phase.lost)
            && (p.committed in r.dropped <==> p.phase.lost)
  {
    if p.phase.lost {
      EffectIsVisible(p.tables, p.log[p.committed].command);
    }
  }

  lemma EffectIsVisible(t: Tables, c: Command)
    requires InsertCanFail(t, c)
    ensures Apply(t, c).0 != t
  {
    PlaceChangesOnlyByCreating(t, c.user, c.action.order);
  }

  /** The loss can happen wherever the consumer is about to create an order: two events
      move the offset on and leave the order missing. */
  lemma FailedInsertIsCommittedPast(t0: Tables, p: Partition)
    requires Refines(t0, p) && p.phase == Receiving && p.committed < |p.log|
    requires p.log[p.committed].Carries? && InsertCanFail(p.tables, p.log[p.committed].command)
    ensures CanHappen(p, [Attempt(InsertFailed), CommitOffset])
    ensures var r := Ends(p, [Attempt(InsertFailed), CommitOffset]);
            && r.committed == p.committed + 1 && r.tables == p.tables
            && r.tables != ApplyEntry(p.tables, p.log[p.committed])
            && p.committed in r.dropped
  {
    var mid := Happens(p, Attempt(InsertFailed));
    TwoEvents(p, Attempt(InsertFailed), CommitOffset);
    EffectIsVisible(p.tables, p.log[p.committed].command);
  }

  lemma TwoEvents(p: Partition, first: Event, second: Event)
    requires Allowed(p, first) && Allowed(Happens(p, first), second)
    ensures CanHappen(p, [first, second]) && Ends(p, [first, second]) == Happens(Happens(p, first), second)
  {
    assert [first, second][1..] == [second];
    OneEvent(Happens(p, first), second);
  }

  lemma OneEvent(p: Partition, e: Event)
    requires Allowed(p, e)
    ensures CanHappen(p, [e]) && Ends(p, [e]) == Happens(p, e)
  {
    var r := Happens(p, e);
    assert [e][1..] == [] && [e][0] == e;
    assert CanHappen(r, []) && Ends(r, []) == r;
    assert CanHappen(r, [e][1..]);
  }

  // --- Producer retries --------------------------------------------------------------------------

  ghost function ApplyAll(t: Tables, entries: seq<Entry>): Tables
    decreases |entries|
  {
    if entries == [] then t else ApplyAll(ApplyEntry(t, entries[0]), entries[1..])
  }

  lemma {:induction false} ApplyAllConcat(t: Tables, a: seq<Entry>, b: seq<Entry>)
    ensures ApplyAll(t, a + b) == ApplyAll(ApplyAll(t, a), b)
    decreases |a|
  {
    if a == [] {
      assert a + b == b;
    } else {
      assert (a + b)[1..] == a[1..] + b;
      ApplyAllConcat(ApplyEntry(t, a[0]), a[1..], b);
    }
  }

  /** The fold over a prefix is that prefix applied in order. */
  lemma {:induction false} FoldIsApplyAll(t: Tables, log: seq<Entry>, n: nat)
    requires n <= |log|
    ensures Fold(t, log, n, {}) == ApplyAll(t, log[..n])
    decreases n
  {
    if n > 0 {
      FoldIsApplyAll(t, log, n - 1);
      assert log[..n] == log[..n - 1] + [log[n - 1]];
      ApplyAllConcat(t, log[..n - 1], [log[n - 1]]);
      var before := ApplyAll(t, log[..n - 1]);
      assert [log[n - 1]][1..] == [];
      assert ApplyAll(before, [log[n - 1]]) == ApplyEntry(before, log[n - 1]);
    }
  }

  function Copies(e: Entry, k: nat): (copies: seq<Entry>)
    ensures |copies| == k
  {
    if k == 0 then [] else [e] + Copies(e, k - 1)
  }

  // Every entry repeated as often as its sender was left without an answer, plus once.
  function Duplicated(log: seq<Entry>, counts: seq<nat>): seq<Entry>
    requires |counts| == |log|
  {
    if log == [] then [] else Copies(log[0], counts[0] + 1) + Duplicated(log[1..], counts[1..])
  }

  lemma EntryKeepsInvariant(t: Tables, e: Entry)
    requires Invariant(t)
    ensures Invariant(ApplyEntry(t, e)) && ApplyEntry(ApplyEntry(t, e), e) == ApplyEntry(t, e)
  {
    if e.Carries? {
      ApplyTwice(t, e.command);
      ApplyKeepsInvariant(t, e.command);
    }
  }

  lemma {:induction false} CopiesCollapse(t: Tables, e: Entry, k: nat)
    requires Invariant(t) && ApplyEntry(t, e) == t
    ensures ApplyAll(t, Copies(e, k)) == t
    decreases k
  {
    if k > 0 {
      assert Copies(e, k)[1..] == Copies(e, k - 1);
      CopiesCollapse(t, e, k - 1);
    }
  }

  /** However often each send was repeated, the log has the effect of sending once. */
  lemma {:induction false} DuplicatesCollapse(t: Tables, log: seq<Entry>, counts: seq<nat>)
    requires Invariant(t) && |counts| == |log|
    ensures ApplyAll(t, Duplicated(log, counts)) == ApplyAll(t, log)
    decreases |log|
  {
    if log != [] {
      var e, after := log[0], ApplyEntry(t, log[0]);
      EntryKeepsInvariant(t, e);
      var copies := Copies(e, counts[0] + 1);
      ApplyAllConcat(t, copies, Duplicated(log[1..], counts[1..]));
      assert copies == [e] + Copies(e, counts[0]) && copies[1..] == Copies(e, counts[0]);
      CopiesCollapse(after, e, counts[0]);
      DuplicatesCollapse(after, log[1..], counts[1..]);
    }
  }

  // How the broker answers one send: stored and acknowledged, stored with the answer
  // lost, or not stored.
  datatype Delivery = Acknowledged | StoredSilently | NotStored

  function StoredCopies(deliveries: seq<Delivery>): nat {
    if deliveries == [] then 0 else if deliveries[0] == Acknowledged then 1
    else (if deliveries[0] == StoredSilently then 1 else 0) + StoredCopies(deliveries[1..])
  }

  /** Publisher::send: the same command again until one delivery is acknowledged. Whatever
      the broker answers, the log grows by copies of that one command, at least one of
      them when the send returns. */
  method Send(log: seq<Entry>, entry: Entry, deliveries: seq<Delivery>) returns (log': seq<Entry>, returned: bool)
    ensures log' == log + Copies(entry, StoredCopies(deliveries))
    ensures returned <==> Acknowledged in deliveries
    ensures returned ==> StoredCopies(deliveries) >= 1
  {
    log', returned := log, false;
    ghost var stored: nat := 0;
    assert log + Copies(entry, 0) == log;
    for k := 0 to |deliveries|
      invariant log' == log + Copies(entry, stored)
      invariant !returned && Acknowledged !in deliveries[..k]
      invariant StoredCopies(deliveries) == stored + StoredCopies(deliveries[k..])
    {
      assert deliveries[k..][1..] == deliveries[k + 1..];
      assert deliveries[..k + 1] == deliveries[..k] + [deliveries[k]];
      match deliveries[k] {
        case Acknowledged =>
          log', returned := log' + [entry], true;
          OneMoreCopy(log, entry, stored);
          assert deliveries[k] in deliveries;
          return;
        case StoredSilently =>
          log' := log' + [entry];
          OneMoreCopy(log, entry, stored);
          stored := stored + 1;
        case NotStored =>
      }
    }
    assert deliveries[..|deliveries|] == deliveries;
  }

  lemma {:induction false} OneMoreCopy(log: seq<Entry>, entry: Entry, k: nat)
    ensures log + Copies(entry, k) + [entry] == log + Copies(entry, k + 1)
    decreases k
  {
    if k > 0 {
      OneMoreCopy([], entry, k - 1);
      assert Copies(entry, k) + [entry] == [entry] + (Copies(entry, k - 1) + [entry]);
      assert [] + Copies(entry, k - 1) + [entry] == Copies(entry, k - 1) + [entry];
      assert [] + Copies(entry, k) == Copies(entry, k);
    }
    assert Copies(entry, k) + [entry] == Copies(entry, k + 1);
    assert log + Copies(entry, k) + [entry] == log + (Copies(entry, k) + [entry]);
  }
}

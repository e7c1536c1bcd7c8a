/** The fixed-window request limiter (crates/api/src/security.rs, Controls::admit). */
module Limiter {
  import opened Sums

  // Sixty seconds, in nanoseconds.
  const WINDOW: int := 60_000_000_000
  const CAPACITY: nat := 4096

  datatype Bucket = Bucket(start: int, count: nat)

  type Buckets = map<string, Bucket>

  predicate Live(b: Buckets, key: string, now: int) {
    key in b && now - b[key].start < WINDOW
  }

  function Retain(b: Buckets, now: int): Buckets {
    map key | key in b && now - b[key].start < WINDOW :: b[key]
  }

  /** What one request does to the table, and whether it is let through. */
  function AdmitOne(b: Buckets, key: string, limit: nat, now: int): (Buckets, bool) {
    var kept := Retain(b, now);
    if |kept| >= CAPACITY && key !in kept then (kept, false) else
      var bucket := if key in kept then kept[key] else Bucket(now, 0);
      if bucket.count >= limit then (kept[key := bucket], false)
      else (kept[key := bucket.(count := bucket.count + 1)], true)
  }

  // The keys whose buckets have not expired.
  function LiveKeys(b: Buckets, now: int): set<string> {
    set key | key in b && now - b[key].start < 60_000_000_000
  }

  /** A request is let through exactly when its live bucket is below the limit, or when
      fewer than 4096 buckets are live and the limit is not zero; then it is counted, and
      expired buckets are gone. */
  lemma AdmitOutcome(b: Buckets, key: string, limit: nat, now: int)
    ensures var (after, admitted) := AdmitOne(b, key, limit, now);
            var live := LiveKeys(b, now);
            && (admitted <==> if key in live then b[key].count < limit else |live| < 4096 && limit > 0)
            && (forall other :: other != key ==> (other in after <==> other in live))
            && (forall other :: other != key && other in live ==> after[other] == b[other])
            && (key in after <==> key in live || |live| < 4096)
            && (key in live ==> after[key] == Bucket(b[key].start, b[key].count + if admitted then 1 else 0))
            && (key !in live && |live| < 4096 ==> after[key] == Bucket(now, if admitted then 1 else 0))
  {
    assert Retain(b, now).Keys == LiveKeys(b, now);
    assert |Retain(b, now)| == |Retain(b, now).Keys|;
  }

  class Controls {
    var buckets: Buckets

    constructor ()
      ensures buckets == map[]
    {
      buckets := map[];
    }

    /** Prunes expired buckets, then counts the request in its key's bucket. */
    method Admit(key: string, limit: nat, now: int) returns (admitted: bool)
      modifies this
      ensures (buckets, admitted) == AdmitOne(old(buckets), key, limit, now)
    {
      buckets := Retain(buckets, now);
      ghost var kept := buckets;
      if |buckets| >= CAPACITY && key !in buckets {
        return false;
      }
      if key !in buckets {
        buckets := buckets[key := Bucket(now, 0)];
      }
      assert key in kept ==> kept[key := kept[key]] == kept;
      if buckets[key].count >= limit {
        return false;
      }
      buckets := buckets[key := buckets[key].(count := buckets[key].count + 1)];
      assert buckets == kept[key := buckets[key]];
      return true;
    }
  }

  datatype Request = Request(key: string, limit: nat, at: int)

  predicate InOrder(requests: seq<Request>, now: int) {
    requests == [] || (now <= requests[0].at && InOrder(requests[1..], requests[0].at))
  }

  // The API derives a key's limit from the key's own prefix, so it never varies.
  predicate LimitIs(requests: seq<Request>, key: string, limit: nat) {
    forall r :: r in requests && r.key == key ==> r.limit == limit
  }

  function Step(b: Buckets, r: Request): (Buckets, bool) {
    AdmitOne(b, r.key, r.limit, r.at)
  }

  /** How many of a key's requests between two instants are let through. */
  function AdmittedWithin(b: Buckets, requests: seq<Request>, key: string, since: int, until: int): nat
    decreases |requests|
  {
    if requests == [] then 0 else
      var (after, admitted) := Step(b, requests[0]);
      (if admitted && requests[0].key == key && since <= requests[0].at <= until then 1 else 0)
      + AdmittedWithin(after, requests[1..], key, since, until)
  }

  // --- Size --------------------------------------------------------------------------------------

  lemma RetainShrinks(b: Buckets, now: int)
    ensures |Retain(b, now)| <= |b|
  {
    SubsetSize(Retain(b, now).Keys, b.Keys);
  }

  ghost function TableAfter(b: Buckets, requests: seq<Request>): Buckets
    decreases |requests|
  {
    if requests == [] then b else TableAfter(Step(b, requests[0]).0, requests[1..])
  }

  /** The table never holds more than its capacity, whoever sends what. */
  lemma {:induction false} TableBounded(b: Buckets, requests: seq<Request>)
    requires |b| <= CAPACITY
    ensures |TableAfter(b, requests)| <= CAPACITY
    decreases |requests|
  {
    if requests != [] {
      RetainShrinks(b, requests[0].at);
      TableBounded(Step(b, requests[0]).0, requests[1..]);
    }
  }

  // --- Rate ----------------------------------------------------------------------------------------

  predicate WithinLimit(b: Buckets, key: string, limit: nat) {
    key in b ==> b[key].count <= limit
  }

  // The most that can still be admitted within a window's length after `since`. A window
  // that began after `since` outlasts the interval; one that began at most a window
  // before it can be followed by one more.
  function Allowance(b: Buckets, key: string, limit: nat, since: int, now: int): int {
    if Live(b, key, now) then
      if b[key].start > since then limit - b[key].count
      else if b[key].start > since - WINDOW then 2 * limit - b[key].count
      else 2 * limit
    else if now > since then limit else 2 * limit
  }

  lemma AllowanceFalls(b: Buckets, r: Request, key: string, limit: nat, since: int, now: int)
    requires WithinLimit(b, key, limit) && now <= r.at <= since + WINDOW && (r.key == key ==> r.limit == limit)
    ensures var (after, admitted) := Step(b, r);
            && WithinLimit(after, key, limit)
            && Allowance(after, key, limit, since, r.at)
                 <= Allowance(b, key, limit, since, now) - (if admitted && r.key == key && since <= r.at then 1 else 0)
  {
  }

  lemma {:induction false} LateRequestsDoNotCount(b: Buckets, requests: seq<Request>, key: string, since: int, until: int, now: int)
    requires InOrder(requests, now) && until < now
    ensures AdmittedWithin(b, requests, key, since, until) == 0
    decreases |requests|
  {
    if requests != [] {
      LateRequestsDoNotCount(Step(b, requests[0]).0, requests[1..], key, since, until, requests[0].at);
    }
  }

  lemma {:induction false} AllowanceBounds(b: Buckets, requests: seq<Request>, key: string, limit: nat, since: int, now: int)
    requires WithinLimit(b, key, limit) && InOrder(requests, now) && LimitIs(requests, key, limit)
    ensures AdmittedWithin(b, requests, key, since, since + WINDOW) <= Allowance(b, key, limit, since, now)
    decreases |requests|
  {
    if requests != [] {
      assert requests[0] in requests && forall r :: r in requests[1..] ==> r in requests;
      if requests[0].at <= since + WINDOW {
        AllowanceFalls(b, requests[0], key, limit, since, now);
        AllowanceBounds(Step(b, requests[0]).0, requests[1..], key, limit, since, requests[0].at);
      } else {
        LateRequestsDoNotCount(b, requests, key, since, since + WINDOW, requests[0].at);
      }
    }
  }

  /** Within one bucket's window a key is let through at most its limit, counting what the
      bucket has already let through; without a bucket, from now on. */
  lemma AtMostTheLimitPerWindow(b: Buckets, requests: seq<Request>, key: string, limit: nat, now: int)
    requires WithinLimit(b, key, limit) && InOrder(requests, now) && LimitIs(requests, key, limit)
    ensures var start := if Live(b, key, now) then b[key].start else now;
            var used := if Live(b, key, now) then b[key].count else 0;
            used + AdmittedWithin(b, requests, key, start - 1, start - 1 + WINDOW) <= limit
  {
    AllowanceBounds(b, requests, key, limit, (if Live(b, key, now) then b[key].start else now) - 1, now);
  }

  /** In any sixty-second interval, both ends included, a key is let through at most twice
      its limit. */
  lemma AtMostTwiceTheLimit(requests: seq<Request>, key: string, limit: nat, since: int, now: int)
    requires InOrder(requests, now) && LimitIs(requests, key, limit)
    ensures AdmittedWithin(map[], requests, key, since, since + WINDOW) <= 2 * limit
  {
    AllowanceBounds(map[], requests, key, limit, since, now);
  }

  // The same request a number of times at one instant.
  function Burst(r: Request, n: nat): (requests: seq<Request>)
    ensures |requests| == n
  {
    if n == 0 then [] else [r] + Burst(r, n - 1)
  }

  // With room in its bucket the next request of the only key is let through.
  lemma BurstStep(b: Buckets, r: Request)
    requires (forall key :: key in b ==> key == r.key) && (if Live(b, r.key, r.at) then b[r.key].count else 0) < r.limit
    ensures Step(b, r).0 == map[r.key := if Live(b, r.key, r.at) then b[r.key].(count := b[r.key].count + 1) else Bucket(r.at, 1)]
    ensures Step(b, r).1
  {
    var kept := Retain(b, r.at);
    assert forall key :: key in kept ==> key == r.key;
    SubsetSize(kept.Keys, {r.key});
    assert |kept| == |kept.Keys|;
    assert kept == if Live(b, r.key, r.at) then map[r.key := b[r.key]] else map[];
  }

  lemma {:induction false} BurstFills(b: Buckets, r: Request, n: nat, rest: seq<Request>, since: int, until: int)
    requires forall key :: key in b ==> key == r.key
    requires var used := if Live(b, r.key, r.at) then b[r.key].count else 0; used + n == r.limit && n > 0
    requires since <= r.at <= until
    ensures var start := if Live(b, r.key, r.at) then b[r.key].start else r.at;
            AdmittedWithin(b, Burst(r, n) + rest, r.key, since, until)
              == n + AdmittedWithin(map[r.key := Bucket(start, r.limit)], rest, r.key, since, until)
    decreases n
  {
    BurstStep(b, r);
    assert (Burst(r, n) + rest)[1..] == Burst(r, n - 1) + rest;
    if n > 1 {
      BurstFills(Step(b, r).0, r, n - 1, rest, since, until);
    } else {
      assert Burst(r, 0) + rest == rest;
    }
  }

  /** For every positive limit the bound is reached: a full bucket can be followed at once
      by another. */
  lemma TwiceIsReached(key: string, limit: nat, at: int)
    requires limit > 0
    ensures var requests := Burst(Request(key, limit, at), limit) + Burst(Request(key, limit, at + WINDOW), limit);
            AdmittedWithin(map[], requests, key, at, at + WINDOW) == 2 * limit
  {
    var first, second := Request(key, limit, at), Request(key, limit, at + WINDOW);
    BurstFills(map[], first, limit, Burst(second, limit), at, at + WINDOW);
    BurstFills(map[key := Bucket(at, limit)], second, limit, [], at, at + WINDOW);
    assert Burst(second, limit) + [] == Burst(second, limit);
  }

  // --- Isolation -----------------------------------------------------------------------------------

  function Own(requests: seq<Request>, key: string): seq<Request> {
    if requests == [] then []
    else (if requests[0].key == key then [requests[0]] else []) + Own(requests[1..], key)
  }

  /** The answers a key's requests get, in order. */
  function Answers(b: Buckets, requests: seq<Request>, key: string): seq<bool>
    decreases |requests|
  {
    if requests == [] then [] else
      var (after, admitted) := Step(b, requests[0]);
      (if requests[0].key == key then [admitted] else []) + Answers(after, requests[1..], key)
  }

  // At each of the key's requests the pruned table knows the key or has room for it.
  predicate Roomy(b: Buckets, requests: seq<Request>, key: string)
    decreases |requests|
  {
    requests == []
    || (&& (requests[0].key == key ==> key in Retain(b, requests[0].at) || |Retain(b, requests[0].at)| < CAPACITY)
        && Roomy(Step(b, requests[0]).0, requests[1..], key))
  }

  // Two tables that the key cannot tell apart from now on.
  predicate Alike(b: Buckets, c: Buckets, key: string, now: int) {
    && (Live(b, key, now) <==> Live(c, key, now))
    && (Live(b, key, now) ==> b[key] == c[key])
  }

  // Every bucket alive in the smaller table is alive in the larger one, for as long.
  predicate Covers(b: Buckets, c: Buckets, now: int) {
    forall key :: key in c && Live(c, key, now) ==> Live(b, key, now) && b[key].start == c[key].start
  }

  lemma CoveredHasRoom(b: Buckets, c: Buckets, key: string, now: int)
    requires Covers(b, c, now) && Alike(b, c, key, now)
    requires key in Retain(b, now) || |Retain(b, now)| < CAPACITY
    ensures key in Retain(c, now) || |Retain(c, now)| < CAPACITY
  {
    SubsetSize(Retain(c, now).Keys, Retain(b, now).Keys);
  }

  lemma TimePasses(b: Buckets, c: Buckets, key: string, now: int, later: int)
    requires Alike(b, c, key, now) && Covers(b, c, now) && now <= later
    ensures Alike(b, c, key, later) && Covers(b, c, later)
  {
  }

  lemma OwnStepAlike(b: Buckets, c: Buckets, r: Request)
    requires Alike(b, c, r.key, r.at) && Covers(b, c, r.at)
    requires r.key in Retain(b, r.at) || |Retain(b, r.at)| < CAPACITY
    ensures Step(b, r).1 == Step(c, r).1
    ensures Alike(Step(b, r).0, Step(c, r).0, r.key, r.at) && Covers(Step(b, r).0, Step(c, r).0, r.at)
  {
    CoveredHasRoom(b, c, r.key, r.at);
  }

  lemma OtherStepAlike(b: Buckets, c: Buckets, r: Request, key: string)
    requires Alike(b, c, key, r.at) && Covers(b, c, r.at) && r.key != key
    ensures Alike(Step(b, r).0, c, key, r.at) && Covers(Step(b, r).0, c, r.at)
  {
  }

  lemma {:induction false} IsolatedFrom(b: Buckets, c: Buckets, requests: seq<Request>, key: string, now: int)
    requires Alike(b, c, key, now) && Covers(b, c, now) && InOrder(requests, now) && Roomy(b, requests, key)
    ensures Answers(b, requests, key) == Answers(c, Own(requests, key), key)
    decreases |requests|
  {
    if requests != [] {
      var r := requests[0];
      TimePasses(b, c, key, now, r.at);
      if r.key == key {
        OwnStepAlike(b, c, r);
        IsolatedFrom(Step(b, r).0, Step(c, r).0, requests[1..], key, r.at);
        assert Own(requests, key)[1..] == Own(requests[1..], key);
      } else {
        OtherStepAlike(b, c, r, key);
        IsolatedFrom(Step(b, r).0, c, requests[1..], key, r.at);
        assert Own(requests, key) == Own(requests[1..], key);
        assert Answers(b, requests, key) == Answers(Step(b, r).0, requests[1..], key);
      }
    }
  }

  /** While the pruned table has room at the key's own requests, what others send never
      changes the answers the key gets: they are those it would get alone. */
  lemma KeysAreIsolated(b: Buckets, requests: seq<Request>, key: string, now: int)
    requires InOrder(requests, now) && Roomy(b, requests, key)
    ensures Answers(b, requests, key) == Answers(b, Own(requests, key), key)
  {
    IsolatedFrom(b, b, requests, key, now);
  }
}

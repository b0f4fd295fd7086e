/**
 The sliding-window limiters: pruned lists of recent acceptances per key, against
 a specification that remembers every acceptance. Times are in nanoseconds.
 */
module Limiters {
  import opened Common

  type Key = string
  type Time = int
  type Buckets<T> = map<Key, seq<T>>

  const SECOND := 1_000_000_000
  const MINUTE := 60 * SECOND

  // ---------------------------------------------------------------- pruning

  /** `Vec::retain` of the entries younger than `window`; `at` reads an entry's time. */
  function Retain<T>(xs: seq<T>, at: T -> Time, now: Time, window: nat): (kept: seq<T>)
    ensures |kept| <= |xs|
  {
    if xs == [] then []
    else
      var last, rest := xs[|xs| - 1], Retain(xs[..|xs| - 1], at, now, window);
      if Elapsed(at(last), now) < window then rest + [last] else rest
  }

  function Get<T>(buckets: Buckets<T>, key: Key): seq<T> {
    if key in buckets then buckets[key] else []
  }

  /** Prune every bucket and drop the empty ones. */
  function CleanUp<T>(buckets: Buckets<T>, at: T -> Time, now: Time, window: nat): Buckets<T> {
    map key | key in buckets && Retain(buckets[key], at, now, window) != [] :: Retain(buckets[key], at, now, window)
  }

  lemma {:induction false} RetainKeeps<T>(xs: seq<T>, at: T -> Time, now: Time, window: nat, x: T)
    ensures x in Retain(xs, at, now, window) <==> x in xs && Elapsed(at(x), now) < window
  {
    if xs != [] {
      var n := |xs| - 1;
      RetainKeeps(xs[..n], at, now, window, x);
      assert xs == xs[..n] + [xs[n]];
    }
  }

  /** Pruning is not seen at a time `t` at which nothing that it drops would count. */
  lemma {:induction false} PruneUnseen<T>(xs: seq<T>, at: T -> Time, now: Time, used: nat, t: Time, own: nat)
    requires forall x :: x in xs && used <= Elapsed(at(x), now) ==> own <= Elapsed(at(x), t)
    ensures Retain(Retain(xs, at, now, used), at, t, own) == Retain(xs, at, t, own)
  {
    if xs != [] {
      var n := |xs| - 1;
      PruneUnseen(xs[..n], at, now, used, t, own);
      assert xs[n] in xs;
    }
  }

  lemma {:induction false} PruneShrinks<T>(xs: seq<T>, at: T -> Time, now: Time, used: nat, t: Time, own: nat)
    ensures |Retain(Retain(xs, at, now, used), at, t, own)| <= |Retain(xs, at, t, own)|
  {
    if xs != [] {
      PruneShrinks(xs[..|xs| - 1], at, now, used, t, own);
    }
  }

  /** At a time at which something dropped would count, fewer count than there were. */
  lemma {:induction false} PruneForgets<T>(xs: seq<T>, at: T -> Time, now: Time, used: nat, t: Time, own: nat, x: T)
    requires x in xs && used <= Elapsed(at(x), now) && Elapsed(at(x), t) < own
    ensures |Retain(Retain(xs, at, now, used), at, t, own)| < |Retain(xs, at, t, own)|
  {
    var n := |xs| - 1;
    if x == xs[n] {
      PruneShrinks(xs[..n], at, now, used, t, own);
    } else {
      assert xs == xs[..n] + [xs[n]];
      PruneForgets(xs[..n], at, now, used, t, own, x);
    }
  }

  /** Every bucket holds something, and nothing as old as the window. */
  ghost predicate OnlyLive(buckets: Buckets<Time>, now: Time, window: nat) {
    forall key :: key in buckets ==>
      buckets[key] != [] && forall t :: t in buckets[key] ==> Elapsed(t, now) < window
  }

  lemma CleanUpLeavesLive(buckets: Buckets<Time>, now: Time, window: nat)
    ensures OnlyLive(CleanUp(buckets, Stamp(), now, window), now, window)
  {
    forall key, t | key in buckets && t in Retain(buckets[key], Stamp(), now, window) ensures Elapsed(t, now) < window {
      RetainKeeps(buckets[key], Stamp(), now, window, t);
    }
  }

  lemma {:induction false} RetainGone(xs: seq<Time>, now: Time, window: nat)
    requires forall x :: x in xs ==> Elapsed(x, now) >= window
    ensures Retain(xs, Stamp(), now, window) == []
  {
    if xs != [] {
      RetainGone(xs[..|xs| - 1], now, window);
    }
  }

  lemma {:induction false} RetainAll(xs: seq<Time>, now: Time, window: nat)
    requires forall x :: x in xs ==> Elapsed(x, now) < window
    ensures Retain(xs, Stamp(), now, window) == xs
  {
    if xs != [] {
      RetainAll(xs[..|xs| - 1], now, window);
    }
  }

  // ---------------------------------------------------------------- the specification

  /** Every acceptance so far, oldest first. */
  datatype Hit<T> = Hit(key: Key, entry: T)

  function Entries<T>(history: seq<Hit<T>>, key: Key): seq<T> {
    if history == [] then []
    else
      var last, rest := history[|history| - 1], Entries(history[..|history| - 1], key);
      if last.key == key then rest + [last.entry] else rest
  }

  /** The acceptances of `key` at times in [from, to). */
  function CountBetween(history: seq<Hit<Time>>, key: Key, from: Time, to: Time): nat {
    if history == [] then 0
    else
      var last := history[|history| - 1];
      CountBetween(history[..|history| - 1], key, from, to)
        + if last.key == key && from <= last.entry < to then 1 else 0
  }

  /** The acceptances of `key` that are younger than `window`. */
  function CountWithin(history: seq<Hit<Time>>, key: Key, now: Time, window: nat): nat {
    if history == [] then 0
    else
      var last := history[|history| - 1];
      CountWithin(history[..|history| - 1], key, now, window)
        + if last.key == key && Elapsed(last.entry, now) < window then 1 else 0
  }

  datatype Call = Call(key: Key, limit: nat, at: Time)

  /** The window of each key, and the least limit a limiter enforces whatever it is told. */
  datatype Rule = Rule(window: Key -> nat, leastLimit: nat)

  function Always(window: nat): Key -> nat { (key: Key) => window }

  function Limit(call: Call, rule: Rule): nat {
    if call.limit < rule.leastLimit then rule.leastLimit else call.limit
  }

  predicate Allowed(history: seq<Hit<Time>>, call: Call, rule: Rule) {
    CountWithin(history, call.key, call.at, rule.window(call.key)) < Limit(call, rule)
  }

  /** The acceptances of a run of calls, when each is decided by counting all earlier acceptances. */
  function Accepted(calls: seq<Call>, rule: Rule): seq<Hit<Time>> {
    if calls == [] then []
    else
      var last, before := calls[|calls| - 1], Accepted(calls[..|calls| - 1], rule);
      if Allowed(before, last, rule) then before + [Hit(last.key, last.at)] else before
  }

  ghost predicate Monotone(calls: seq<Call>) {
    forall i, j :: 0 <= i < j < |calls| ==> calls[i].at <= calls[j].at
  }

  function Stamp(): Time -> Time { (t: Time) => t }

  lemma {:induction false} CountIsLength(history: seq<Hit<Time>>, key: Key, now: Time, window: nat)
    ensures |Retain(Entries(history, key), Stamp(), now, window)| == CountWithin(history, key, now, window)
  {
    if history != [] {
      var n := |history| - 1;
      CountIsLength(history[..n], key, now, window);
    }
  }

  // ---------------------------------------------------------------- refinement

  /** From `now` on, the buckets and the whole history show the same live entries, key by key. */
  ghost predicate Matches<T>(
    buckets: Buckets<T>, history: seq<Hit<T>>, at: T -> Time, now: Time, window: Key -> nat)
  {
    forall key, t :: now <= t ==> SameLive(Get(buckets, key), Entries(history, key), at, t, window(key))
  }

  ghost predicate SameLive<T>(xs: seq<T>, ys: seq<T>, at: T -> Time, t: Time, window: nat) {
    Retain(xs, at, t, window) == Retain(ys, at, t, window)
  }

  /** The sweep forgets nothing that its key's own window still counts. */
  ghost predicate SparesLive<T(!new)>(buckets: Buckets<T>, at: T -> Time, now: Time, window: Key -> nat, used: nat) {
    forall key, x :: x in Get(buckets, key) ==> !(used <= Elapsed(at(x), now) < window(key))
  }

  lemma SweepKeepsLive<T>(xs: seq<T>, at: T -> Time, now: Time, t: Time, used: nat, own: nat)
    requires now <= t
    requires forall x :: x in xs ==> !(used <= Elapsed(at(x), now) < own)
    ensures Retain(Retain(xs, at, now, used), at, t, own) == Retain(xs, at, t, own)
  {
    PruneUnseen(xs, at, now, used, t, own);
  }

  /** Such a sweep changes nothing that any later call will count. */
  lemma CleanUpMatches<T(!new)>(
    buckets: Buckets<T>, history: seq<Hit<T>>, at: T -> Time, before: Time, now: Time, window: Key -> nat, used: nat)
    requires Matches(buckets, history, at, before, window) && before <= now
    requires SparesLive(buckets, at, now, window, used)
    ensures Matches(CleanUp(buckets, at, now, used), history, at, now, window)
  {
    forall key, t | now <= t
      ensures SameLive(Get(CleanUp(buckets, at, now, used), key), Entries(history, key), at, t, window(key))
    {
      assert SameLive(Get(buckets, key), Entries(history, key), at, t, window(key));
      CleanedBucket(buckets, at, now, used, key);
      SweepKeepsLive(Get(buckets, key), at, now, t, used, window(key));
    }
  }

  lemma CleanedBucket<T>(buckets: Buckets<T>, at: T -> Time, now: Time, window: nat, key: Key)
    ensures Get(CleanUp(buckets, at, now, window), key) == Retain(Get(buckets, key), at, now, window)
  {
  }

  lemma PruneMatches<T>(
    buckets: Buckets<T>, history: seq<Hit<T>>, at: T -> Time, before: Time, now: Time, window: Key -> nat, key: Key)
    requires Matches(buckets, history, at, before, window) && before <= now
    ensures Matches(buckets[key := Retain(Get(buckets, key), at, now, window(key))], history, at, now, window)
  {
    var pruned := buckets[key := Retain(Get(buckets, key), at, now, window(key))];
    forall k, t | now <= t ensures SameLive(Get(pruned, k), Entries(history, k), at, t, window(k)) {
      assert SameLive(Get(buckets, k), Entries(history, k), at, t, window(k));
      SweepKeepsLive(Get(buckets, key), at, now, t, window(key), window(key));
    }
  }

  lemma PushMatches<T>(
    buckets: Buckets<T>, history: seq<Hit<T>>, at: T -> Time, now: Time, window: Key -> nat, key: Key, x: T)
    requires Matches(buckets, history, at, now, window)
    ensures Matches(buckets[key := Get(buckets, key) + [x]], history + [Hit(key, x)], at, now, window)
  {
    var pushed, longer := buckets[key := Get(buckets, key) + [x]], history + [Hit(key, x)];
    assert longer[..|history|] == history;
    forall k, t | now <= t ensures SameLive(Get(pushed, k), Entries(longer, k), at, t, window(k)) {
      assert SameLive(Get(buckets, k), Entries(history, k), at, t, window(k));
    }
  }

  /** A limiter step: what it does to its state, and whether it accepts. */
  type Limiter<!S> = (S, Call) -> (S, bool)

  /** Calls after which the state still shows all that later calls will count. */
  type Safe<!S> = (S, Call) -> bool

  /**
   In a state that matches the history each step decides as the specification does; a safe step keeps the
   live entries in step with the history.
   */
  ghost predicate Simulates<S(!new)>(step: Limiter<S>, safe: Safe<S>, view: S -> Buckets<Time>, rule: Rule) {
    forall s: S, history: seq<Hit<Time>>, call: Call, before: Time ::
      before <= call.at && Matches(view(s), history, Stamp(), before, rule.window) ==>
        StepAgrees(step, safe, view, rule, s, history, call)
  }

  ghost predicate StepAgrees<S>(
    step: Limiter<S>, safe: Safe<S>, view: S -> Buckets<Time>, rule: Rule, s: S, history: seq<Hit<Time>>, call: Call)
  {
    var (s', ok) := step(s, call);
    && ok == Allowed(history, call, rule)
    && (safe(s, call) ==>
          Matches(view(s'), if ok then history + [Hit(call.key, call.at)] else history, Stamp(), call.at, rule.window))
  }

  function AnyState<S>(): Safe<S> { (s: S, call: Call) => true }

  /** Every call of the run is safe in the state it finds. */
  ghost predicate SafeRun<S>(step: Limiter<S>, safe: Safe<S>, s: S, calls: seq<Call>) {
    calls == []
    || (SafeRun(step, safe, s, calls[..|calls| - 1])
        && safe(Decisions(step, s, calls[..|calls| - 1]).0, calls[|calls| - 1]))
  }

  lemma {:induction false} AnyRunIsSafe<S>(step: Limiter<S>, s: S, calls: seq<Call>)
    ensures SafeRun(step, AnyState(), s, calls)
  {
    if calls != [] {
      AnyRunIsSafe(step, s, calls[..|calls| - 1]);
    }
  }

  function Decisions<S>(step: Limiter<S>, s: S, calls: seq<Call>): (S, seq<bool>) {
    if calls == [] then (s, [])
    else
      var (before, decided) := Decisions(step, s, calls[..|calls| - 1]);
      var (after, ok) := step(before, calls[|calls| - 1]);
      (after, decided + [ok])
  }

  /** The decisions the specification makes along a run of calls. */
  function Verdicts(calls: seq<Call>, rule: Rule): seq<bool> {
    if calls == [] then []
    else
      var n := |calls| - 1;
      Verdicts(calls[..n], rule) + [Allowed(Accepted(calls[..n], rule), calls[n], rule)]
  }

  lemma EndsDiffer<T>(a: seq<T>, b: seq<T>, x: T, y: T)
    requires x != y
    ensures a + [x] != b + [y]
  {
    assert (a + [x])[|a + [x]| - 1] == x && (b + [y])[|b + [y]| - 1] == y;
  }

  /** A limiter that simulates the specification decides every safe run in time order exactly as it does. */
  lemma {:induction false} LimiterRefines<S(!new)>(
    step: Limiter<S>, safe: Safe<S>, view: S -> Buckets<Time>, rule: Rule, s: S, start: Time, calls: seq<Call>)
    requires Simulates(step, safe, view, rule) && view(s) == map[] && SafeRun(step, safe, s, calls)
    requires Monotone(calls) && (calls != [] ==> start <= calls[0].at)
    ensures Decisions(step, s, calls).1 == Verdicts(calls, rule)
    ensures Matches(view(Decisions(step, s, calls).0), Accepted(calls, rule), Stamp(),
                    if calls == [] then start else calls[|calls| - 1].at, rule.window)
  {
    if calls != [] {
      var n := |calls| - 1;
      LimiterRefines(step, safe, view, rule, s, start, calls[..n]);
      var before := Decisions(step, s, calls[..n]).0;
      assert StepAgrees(step, safe, view, rule, before, Accepted(calls[..n], rule), calls[n]);
    }
  }

  // ---------------------------------------------------------------- the window bound

  ghost predicate LimitedBy(calls: seq<Call>, rule: Rule, key: Key, limit: nat) {
    forall c :: c in calls && c.key == key ==> Limit(c, rule) <= limit
  }

  lemma {:induction false} IntervalIsWithin(
    history: seq<Hit<Time>>, key: Key, from: Time, now: Time, window: nat)
    requires now - from < window
    ensures CountBetween(history, key, from, from + window) <= CountWithin(history, key, now, window)
  {
    if history != [] {
      IntervalIsWithin(history[..|history| - 1], key, from, now, window);
    }
  }

  /** Every half-open interval as long as the window holds at most `limit` acceptances of a key so limited. */
  lemma {:induction false} WindowBound(calls: seq<Call>, rule: Rule, key: Key, limit: nat, from: Time)
    requires LimitedBy(calls, rule, key, limit)
    ensures CountBetween(Accepted(calls, rule), key, from, from + rule.window(key)) <= limit
  {
    if calls != [] {
      var n := |calls| - 1;
      WindowBound(calls[..n], rule, key, limit, from);
      var before, call := Accepted(calls[..n], rule), calls[n];
      assert call in calls;
      if Allowed(before, call, rule) && call.key == key && from <= call.at < from + rule.window(key) {
        IntervalIsWithin(before, key, from, call.at, rule.window(key));
        assert (before + [Hit(call.key, call.at)])[..|before|] == before;
      } else if Allowed(before, call, rule) {
        assert (before + [Hit(call.key, call.at)])[..|before|] == before;
      }
    }
  }

  /** The calls of a run that were let through. */
  function Passed(calls: seq<Call>, decided: seq<bool>): seq<Hit<Time>> {
    if calls == [] || |decided| != |calls| then []
    else
      var n := |calls| - 1;
      Passed(calls[..n], decided[..n]) + if decided[n] then [Hit(calls[n].key, calls[n].at)] else []
  }

  lemma {:induction false} VerdictsPass(calls: seq<Call>, rule: Rule)
    ensures |Verdicts(calls, rule)| == |calls| && Passed(calls, Verdicts(calls, rule)) == Accepted(calls, rule)
  {
    if calls != [] {
      var n := |calls| - 1;
      VerdictsPass(calls[..n], rule);
      assert Verdicts(calls, rule)[..n] == Verdicts(calls[..n], rule);
    }
  }

  /** So whoever decides as the specification does keeps to the limit in every interval. */
  lemma PassedIsBounded(calls: seq<Call>, decided: seq<bool>, rule: Rule, key: Key, limit: nat, from: Time)
    requires decided == Verdicts(calls, rule) && LimitedBy(calls, rule, key, limit)
    ensures CountBetween(Passed(calls, decided), key, from, from + rule.window(key)) <= limit
  {
    VerdictsPass(calls, rule);
    WindowBound(calls, rule, key, limit, from);
  }

  // ---------------------------------------------------------------- the gateway's limiter, per IP

  function Max(a: int, b: int): int { if a < b then b else a }

  /** `Vec::first`, if there is one, read as seconds left of the window and rounded down. */
  function IpRetryAfter(live: seq<Time>, now: Time): nat {
    if live == [] then 1 else Max(Max(MINUTE - Elapsed(live[0], now), 0) / SECOND, 1)
  }

  function IpCheck(hits: Buckets<Time>, key: Key, maxPerMinute: nat, now: Time)
    : (Buckets<Time>, Result<(), nat>)
  {
    var live := Retain(Get(hits, key), Stamp(), now, MINUTE);
    if |live| >= Max(maxPerMinute, 1) then (hits[key := live], Failure(IpRetryAfter(live, now)))
    else (hits[key := live + [now]], Success(()))
  }

  class IpRateLimiter {
    var hits: Buckets<Time>

    constructor ()
      ensures hits == map[]
    {
      hits := map[];
    }

    method Check(key: Key, maxPerMinute: nat, now: Time) returns (verdict: Result<(), nat>)
      modifies this
      ensures (hits, verdict) == IpCheck(old(hits), key, maxPerMinute, now)
    {
      if key !in hits {
        hits := hits[key := []];
      }
      var entry := Retain(hits[key], Stamp(), now, MINUTE);
      hits := hits[key := entry];
      assert hits == old(hits)[key := entry];
      if |entry| >= Max(maxPerMinute, 1) {
        return Failure(IpRetryAfter(entry, now));
      }
      assert hits[key := entry + [now]] == old(hits)[key := entry + [now]];
      hits := hits[key := entry + [now]];
      verdict := Success(());
    }
  }

  // ---------------------------------------------------------------- the auth limiter

  /** Above this many keys, an acceptance sweeps the whole map. */
  const AUTH_SWEEP := 10_000

  function AuthRetryAfter(live: seq<Time>, windowSecs: nat, now: Time): nat {
    Max(Max(windowSecs - (if live == [] then 0 else Elapsed(live[0], now) / SECOND), 0), 1)
  }

  function AuthCheck(attempts: Buckets<Time>, key: Key, maxAttempts: nat, windowSecs: nat, now: Time)
    : (Buckets<Time>, Result<(), nat>)
  {
    var window := windowSecs * SECOND;
    var live := Retain(Get(attempts, key), Stamp(), now, window);
    if |live| >= maxAttempts then (attempts[key := live], Failure(AuthRetryAfter(live, windowSecs, now)))
    else
      var pushed := attempts[key := live + [now]];
      (if |pushed| > AUTH_SWEEP then CleanUp(pushed, Stamp(), now, window) else pushed, Success(()))
  }

  class AuthRateLimiter {
    var attempts: Buckets<Time>

    constructor ()
      ensures attempts == map[]
    {
      attempts := map[];
    }

    method Check(key: Key, maxAttempts: nat, windowSecs: nat, now: Time) returns (verdict: Result<(), nat>)
      modifies this
      ensures (attempts, verdict) == AuthCheck(old(attempts), key, maxAttempts, windowSecs, now)
      ensures verdict.Success? && |old(attempts)[key := []]| > 10_000 ==> OnlyLive(attempts, now, windowSecs * SECOND)
    {
      var window := windowSecs * SECOND;
      if key !in attempts {
        attempts := attempts[key := []];
      }
      var entries := Retain(attempts[key], Stamp(), now, window);
      attempts := attempts[key := entries];
      assert attempts == old(attempts)[key := entries];
      if |entries| >= maxAttempts {
        return Failure(AuthRetryAfter(entries, windowSecs, now));
      }
      assert attempts[key := entries + [now]] == old(attempts)[key := entries + [now]];
      attempts := attempts[key := entries + [now]];
      assert attempts.Keys == old(attempts)[key := []].Keys;
      assert |attempts| == |attempts.Keys| && |old(attempts)[key := []]| == |old(attempts)[key := []].Keys|;
      if |attempts| > AUTH_SWEEP {
        CleanUpLeavesLive(attempts, now, window);
        attempts := CleanUp(attempts, Stamp(), now, window);
      }
      verdict := Success(());
    }
  }

  // ---------------------------------------------------------------- the models API's global limiter

  const SWEEP_EVERY := 120 * SECOND

  datatype GlobalState = GlobalState(buckets: Buckets<Time>, lastCleanup: Time)

  function GlobalCheck(s: GlobalState, key: Key, maxPerMinute: nat, now: Time): (GlobalState, bool) {
    var swept := if Elapsed(s.lastCleanup, now) > SWEEP_EVERY
                 then GlobalState(CleanUp(s.buckets, Stamp(), now, MINUTE), now) else s;
    var live := Retain(Get(swept.buckets, key), Stamp(), now, MINUTE);
    if |live| >= maxPerMinute then (swept.(buckets := swept.buckets[key := live]), false)
    else (swept.(buckets := swept.buckets[key := live + [now]]), true)
  }

  class GlobalRateLimiter {
    var buckets: Buckets<Time>
    var lastCleanup: Time

    constructor (now: Time)
      ensures buckets == map[] && lastCleanup == now
    {
      buckets, lastCleanup := map[], now;
    }

    method Check(key: Key, maxPerMinute: nat, now: Time) returns (ok: bool)
      modifies this
      ensures (GlobalState(buckets, lastCleanup), ok)
           == GlobalCheck(old(GlobalState(buckets, lastCleanup)), key, maxPerMinute, now)
      ensures now > old(lastCleanup) + 120_000_000_000 ==> lastCleanup == now && OnlyLive(buckets - {key}, now, 60_000_000_000)
    {
      if Elapsed(lastCleanup, now) > SWEEP_EVERY {
        CleanUpLeavesLive(buckets, now, MINUTE);
        buckets := CleanUp(buckets, Stamp(), now, MINUTE);
        lastCleanup := now;
      }
      ghost var swept := buckets;
      if key !in buckets {
        buckets := buckets[key := []];
      }
      var entries := Retain(buckets[key], Stamp(), now, MINUTE);
      buckets := buckets[key := entries];
      assert buckets == swept[key := entries];
      if |entries| >= maxPerMinute {
        return false;
      }
      assert buckets[key := entries + [now]] == swept[key := entries + [now]];
      buckets := buckets[key := entries + [now]];
      ok := true;
    }
  }

  // ---------------------------------------------------------------- the three limiters refine the specification

  function IpStep(): Limiter<Buckets<Time>> {
    (hits: Buckets<Time>, call: Call) =>
      var (after, verdict) := IpCheck(hits, call.key, call.limit, call.at);
      (after, verdict.Success?)
  }

  function AuthStep(windowSecs: Key -> nat): Limiter<Buckets<Time>> {
    (attempts: Buckets<Time>, call: Call) =>
      var (after, verdict) := AuthCheck(attempts, call.key, call.limit, windowSecs(call.key), call.at);
      (after, verdict.Success?)
  }

  function GlobalStep(): Limiter<GlobalState> {
    (s: GlobalState, call: Call) => GlobalCheck(s, call.key, call.limit, call.at)
  }

  function Whole(): Buckets<Time> -> Buckets<Time> { (b: Buckets<Time>) => b }

  function BucketsOf(): GlobalState -> Buckets<Time> { (s: GlobalState) => s.buckets }

  /** Pruning the caller's bucket, deciding on its length, and pushing on acceptance. */
  lemma PruneDecidePush(
    buckets: Buckets<Time>, history: seq<Hit<Time>>, before: Time, window: Key -> nat, key: Key, now: Time)
    requires Matches(buckets, history, Stamp(), before, window) && before <= now
    ensures
      var live := Retain(Get(buckets, key), Stamp(), now, window(key));
      && |live| == CountWithin(history, key, now, window(key))
      && Matches(buckets[key := live], history, Stamp(), now, window)
      && Matches(buckets[key := live + [now]], history + [Hit(key, now)], Stamp(), now, window)
  {
    var live := Retain(Get(buckets, key), Stamp(), now, window(key));
    assert SameLive(Get(buckets, key), Entries(history, key), Stamp(), now, window(key));
    CountIsLength(history, key, now, window(key));
    PruneMatches(buckets, history, Stamp(), before, now, window, key);
    PushMatches(buckets[key := live], history, Stamp(), now, window, key, now);
    assert buckets[key := live][key := live + [now]] == buckets[key := live + [now]];
  }

  // The auth limiter is asked with different windows for different keys.

  function Windows(windowSecs: Key -> nat): Key -> nat { (key: Key) => windowSecs(key) * SECOND }

  /** The map just before the sweep of an accepted call, if it comes to one. */
  function PushedBy(windowSecs: Key -> nat, attempts: Buckets<Time>, call: Call): Buckets<Time> {
    var live := Retain(Get(attempts, call.key), Stamp(), call.at, windowSecs(call.key) * SECOND);
    attempts[call.key := live + [call.at]]
  }

  predicate Sweeps(windowSecs: Key -> nat, attempts: Buckets<Time>, call: Call) {
    && |Retain(Get(attempts, call.key), Stamp(), call.at, windowSecs(call.key) * SECOND)| < call.limit
    && |PushedBy(windowSecs, attempts, call)| > AUTH_SWEEP
  }

  /** The call does not sweep, or its sweep forgets nothing that is still live. */
  ghost predicate SweepIsSafe(windowSecs: Key -> nat, attempts: Buckets<Time>, call: Call) {
    Sweeps(windowSecs, attempts, call) ==>
      SparesLive(PushedBy(windowSecs, attempts, call), Stamp(), call.at, Windows(windowSecs), windowSecs(call.key) * SECOND)
  }

  ghost function SafeSweeps(windowSecs: Key -> nat): Safe<Buckets<Time>> {
    (attempts: Buckets<Time>, call: Call) => SweepIsSafe(windowSecs, attempts, call)
  }

  lemma AuthSimulates(windowSecs: Key -> nat)
    ensures Simulates(AuthStep(windowSecs), SafeSweeps(windowSecs), Whole(), Rule(Windows(windowSecs), 0))
  {
    forall s: Buckets<Time>, history: seq<Hit<Time>>, call: Call, before: Time
      | before <= call.at && Matches(Whole()(s), history, Stamp(), before, Windows(windowSecs))
      ensures StepAgrees(
                AuthStep(windowSecs), SafeSweeps(windowSecs), Whole(), Rule(Windows(windowSecs), 0), s, history, call)
    {
      AuthStepAgrees(windowSecs, s, history, before, call);
    }
  }

  lemma AuthStepAgrees(
    windowSecs: Key -> nat, s: Buckets<Time>, history: seq<Hit<Time>>, before: Time, call: Call)
    requires before <= call.at && Matches(s, history, Stamp(), before, Windows(windowSecs))
    ensures StepAgrees(
              AuthStep(windowSecs), SafeSweeps(windowSecs), Whole(), Rule(Windows(windowSecs), 0), s, history, call)
  {
    var used := windowSecs(call.key) * SECOND;
    PruneDecidePush(s, history, before, Windows(windowSecs), call.key, call.at);
    if Sweeps(windowSecs, s, call) && SweepIsSafe(windowSecs, s, call) {
      CleanUpMatches(PushedBy(windowSecs, s, call), history + [Hit(call.key, call.at)], Stamp(), call.at, call.at,
                     Windows(windowSecs), used);
    }
  }

  lemma GlobalSimulates()
    ensures Simulates(GlobalStep(), AnyState(), BucketsOf(), Rule(Always(MINUTE), 0))
  {
    forall s: GlobalState, history: seq<Hit<Time>>, call: Call, before: Time
      | before <= call.at && Matches(BucketsOf()(s), history, Stamp(), before, Always(MINUTE))
      ensures StepAgrees(GlobalStep(), AnyState(), BucketsOf(), Rule(Always(MINUTE), 0), s, history, call)
    {
      CleanUpMatches(s.buckets, history, Stamp(), before, call.at, Always(MINUTE), MINUTE);
      PruneDecidePush(s.buckets, history, before, Always(MINUTE), call.key, call.at);
      PruneDecidePush(
        CleanUp(s.buckets, Stamp(), call.at, MINUTE), history, call.at, Always(MINUTE), call.key, call.at);
    }
  }

  // ---------------------------------------------------------------- every run

  function FirstAt(calls: seq<Call>): Time { if calls == [] then 0 else calls[0].at }

  function AfterIp(calls: seq<Call>): Buckets<Time> {
    Decisions(IpStep(), map[], calls).0
  }

  function AfterAuth(windowSecs: Key -> nat, calls: seq<Call>): Buckets<Time> {
    Decisions(AuthStep(windowSecs), map[], calls).0
  }

  ghost predicate SafeAuthRun(windowSecs: Key -> nat, calls: seq<Call>) {
    SafeRun(AuthStep(windowSecs), SafeSweeps(windowSecs), map[], calls)
  }

  /** The decisions along the run are the ones that counting everything would make. */
  ghost predicate AuthAgrees(windowSecs: Key -> nat, calls: seq<Call>) {
    Decisions(AuthStep(windowSecs), map[], calls).1 == Verdicts(calls, Rule(Windows(windowSecs), 0))
  }

  lemma AuthRunMatches(windowSecs: Key -> nat, calls: seq<Call>)
    requires Monotone(calls) && SafeAuthRun(windowSecs, calls)
    ensures AuthAgrees(windowSecs, calls)
    ensures Matches(AfterAuth(windowSecs, calls), Accepted(calls, Rule(Windows(windowSecs), 0)), Stamp(),
                    if calls == [] then FirstAt(calls) else calls[|calls| - 1].at, Windows(windowSecs))
  {
    AuthSimulates(windowSecs);
    LimiterRefines(AuthStep(windowSecs), SafeSweeps(windowSecs), Whole(), Rule(Windows(windowSecs), 0), map[],
                   FirstAt(calls), calls);
  }

  /**
   In time order, the auth limiter, each key with its own window, decides as if it remembered every acceptance,
   as long as no sweep forgets a live entry.
   */
  lemma AuthRefines(windowSecs: Key -> nat, calls: seq<Call>)
    requires Monotone(calls) && SafeAuthRun(windowSecs, calls)
    ensures AuthAgrees(windowSecs, calls)
  {
    AuthRunMatches(windowSecs, calls);
  }

  /** With one window for all keys that is every run, sweeps included. */
  lemma AuthOneWindowRefines(windowSecs: nat, calls: seq<Call>)
    requires Monotone(calls)
    ensures AuthAgrees(Always(windowSecs), calls)
  {
    OneWindowIsSafe(windowSecs, calls);
    AuthRefines(Always(windowSecs), calls);
  }

  lemma {:induction false} OneWindowIsSafe(windowSecs: nat, calls: seq<Call>)
    ensures SafeAuthRun(Always(windowSecs), calls)
  {
    if calls != [] {
      OneWindowIsSafe(windowSecs, calls[..|calls| - 1]);
    }
  }

  /** With no more than 10,000 keys, it is every run too, whatever the windows. */
  lemma AuthFewKeysRefines(windowSecs: Key -> nat, keys: set<Key>, calls: seq<Call>)
    requires Monotone(calls) && |keys| <= 10_000 && forall c :: c in calls ==> c.key in keys
    ensures AuthAgrees(windowSecs, calls)
  {
    FewKeysAreSafe(windowSecs, keys, calls);
    AuthRefines(windowSecs, calls);
  }

  lemma {:induction false} FewKeysAreSafe(windowSecs: Key -> nat, keys: set<Key>, calls: seq<Call>)
    requires |keys| <= AUTH_SWEEP && forall c :: c in calls ==> c.key in keys
    ensures SafeAuthRun(windowSecs, calls) && AfterAuth(windowSecs, calls).Keys <= keys
  {
    if calls != [] {
      var earlier, last := calls[..|calls| - 1], calls[|calls| - 1];
      assert last in calls;
      FewKeysAreSafe(windowSecs, keys, earlier);
      FewKeysDoNotSweep(windowSecs, keys, AfterAuth(windowSecs, earlier), last);
    }
  }

  lemma FewKeysDoNotSweep(windowSecs: Key -> nat, keys: set<Key>, attempts: Buckets<Time>, call: Call)
    requires attempts.Keys <= keys && call.key in keys && |keys| <= AUTH_SWEEP
    ensures !Sweeps(windowSecs, attempts, call)
  {
    var pushed := PushedBy(windowSecs, attempts, call);
    assert pushed.Keys <= keys;
    SubsetIsSmaller(pushed.Keys, keys);
    assert |pushed| == |pushed.Keys|;
  }

  lemma SubsetIsSmaller<T>(a: set<T>, b: set<T>)
    requires a <= b
    ensures |a| <= |b|
  {
    assert b == a + (b - a);
  }

  /** So does the global limiter, whenever its periodic sweeps happen and whatever limits share a key. */
  lemma GlobalRefines(started: Time, calls: seq<Call>)
    requires Monotone(calls)
    ensures Decisions(GlobalStep(), GlobalState(map[], started), calls).1 == Verdicts(calls, Rule(Always(MINUTE), 0))
  {
    GlobalSimulates();
    AnyRunIsSafe(GlobalStep(), GlobalState(map[], started), calls);
    LimiterRefines(GlobalStep(), AnyState(), BucketsOf(), Rule(Always(MINUTE), 0), GlobalState(map[], started),
                   FirstAt(calls), calls);
  }

  // ---------------------------------------------------------------- how much a limiter lets through

  lemma AuthLetsThrough(windowSecs: Key -> nat, calls: seq<Call>, key: Key, limit: nat, from: Time)
    requires Monotone(calls) && SafeAuthRun(windowSecs, calls)
    requires LimitedBy(calls, Rule(Windows(windowSecs), 0), key, limit)
    ensures CountBetween(Passed(calls, Decisions(AuthStep(windowSecs), map[], calls).1), key,
                         from, from + windowSecs(key) * 1_000_000_000) <= limit
  {
    AuthRefines(windowSecs, calls);
    PassedIsBounded(calls, Decisions(AuthStep(windowSecs), map[], calls).1, Rule(Windows(windowSecs), 0), key, limit, from);
  }

  lemma GlobalLetsThrough(started: Time, calls: seq<Call>, key: Key, limit: nat, from: Time)
    requires Monotone(calls) && LimitedBy(calls, Rule(Always(MINUTE), 0), key, limit)
    ensures CountBetween(Passed(calls, Decisions(GlobalStep(), GlobalState(map[], started), calls).1), key,
                         from, from + 60_000_000_000) <= limit
  {
    GlobalRefines(started, calls);
    PassedIsBounded(calls, Decisions(GlobalStep(), GlobalState(map[], started), calls).1,
                    Rule(Always(MINUTE), 0), key, limit, from);
  }
}

/**
 The seconds a limiter tells whoever it turns away (section 10.2.3 of RFC 9110), against the wait after which
 it would accept.
 */
module RetryAfter {
  import opened Common
  import opened Limiters

  /** Oldest first, and nothing later than `last`. */
  ghost predicate InOrder(xs: seq<Time>, last: Time) {
    xs == [] || (xs[|xs| - 1] <= last && InOrder(xs[..|xs| - 1], xs[|xs| - 1]))
  }

  /** A bucket in time order, no longer than the limit. */
  ghost predicate Tidy(xs: seq<Time>, limit: nat, now: Time) {
    |xs| <= limit && InOrder(xs, now)
  }

  ghost predicate ConstantLimit(calls: seq<Call>, key: Key, limit: nat) {
    forall c :: c in calls && c.key == key ==> c.limit == limit
  }

  lemma {:induction false} RetainInOrder(xs: seq<Time>, last: Time, now: Time, window: nat)
    requires InOrder(xs, last)
    ensures InOrder(Retain(xs, Stamp(), now, window), last)
  {
    if xs != [] {
      var n := |xs| - 1;
      var rest := Retain(xs[..n], Stamp(), now, window);
      RetainInOrder(xs[..n], xs[n], now, window);
      assert (rest + [xs[n]])[..|rest|] == rest;
    }
  }

  lemma {:induction false} FirstIsLeast(xs: seq<Time>, last: Time)
    requires InOrder(xs, last) && xs != []
    ensures xs[0] <= last
  {
    if |xs| > 1 {
      FirstIsLeast(xs[..|xs| - 1], xs[|xs| - 1]);
    }
  }

  /** Pruning drops something exactly when the oldest entry has left the window. */
  lemma {:induction false} RetainShrinks(xs: seq<Time>, last: Time, now: Time, window: nat)
    requires InOrder(xs, last) && last <= now && xs != []
    ensures |Retain(xs, Stamp(), now, window)| < |xs| <==> now - xs[0] >= window
  {
    var n := |xs| - 1;
    if n > 0 {
      FirstIsLeast(xs[..n], xs[n]);
      RetainShrinks(xs[..n], xs[n], now, window);
    } else {
      assert Retain(xs[..n], Stamp(), now, window) == [];
    }
  }

  /** The stamps of this key come in order, none after `now`; those of other keys may come in any order. */
  ghost predicate OwnOrder(calls: seq<Call>, key: Key, now: Time) {
    && (forall i, j :: 0 <= i < j < |calls| && calls[i].key == key && calls[j].key == key ==> calls[i].at <= calls[j].at)
    && (forall c :: c in calls && c.key == key ==> c.at <= now)
  }

  /** A call of any key, at its own time, leaves this key's bucket tidy. */
  ghost predicate TidyStep(
    step: Limiter<Buckets<Time>>, key: Key, limit: nat, s: Buckets<Time>, call: Call, before: Time)
  {
    (call.key == key ==> call.limit == limit && before <= call.at) && Tidy(Get(s, key), limit, before) ==>
      Tidy(Get(step(s, call).0, key), limit, if call.key == key then call.at else before)
  }

  ghost predicate KeepsTidy(step: Limiter<Buckets<Time>>, key: Key, limit: nat) {
    forall s: Buckets<Time>, call: Call, before: Time :: TidyStep(step, key, limit, s, call, before)
  }

  lemma {:induction false} RunTidy(step: Limiter<Buckets<Time>>, calls: seq<Call>, key: Key, limit: nat, now: Time)
    requires KeepsTidy(step, key, limit) && ConstantLimit(calls, key, limit) && OwnOrder(calls, key, now)
    ensures Tidy(Get(Decisions(step, map[], calls).0, key), limit, now)
  {
    if calls != [] {
      var n := |calls| - 1;
      var before := if calls[n].key == key then calls[n].at else now;
      assert calls[n] in calls;
      RunTidy(step, calls[..n], key, limit, before);
      assert TidyStep(step, key, limit, Decisions(step, map[], calls[..n]).0, calls[n], before);
    }
  }

  /** What pruning, and pushing when there is room, do to a tidy bucket. */
  lemma PruneKeepsTidy(xs: seq<Time>, limit: nat, before: Time, now: Time, window: nat)
    requires Tidy(xs, limit, before) && before <= now
    ensures
      var live := Retain(xs, Stamp(), now, window);
      Tidy(live, limit, now) && (|live| < limit ==> Tidy(live + [now], limit, now))
  {
    RetainInOrder(xs, before, now, window);
  }

  lemma IpKeepsTidy(key: Key, limit: nat)
    requires limit >= 1
    ensures KeepsTidy(IpStep(), key, limit)
  {
    forall s: Buckets<Time>, call: Call, before: Time ensures TidyStep(IpStep(), key, limit, s, call, before) {
      if call.key == key && before <= call.at && Tidy(Get(s, key), limit, before) {
        PruneKeepsTidy(Get(s, key), limit, before, call.at, MINUTE);
      }
    }
  }

  lemma AuthKeepsTidy(windowSecs: Key -> nat, key: Key, limit: nat)
    ensures KeepsTidy(AuthStep(windowSecs), key, limit)
  {
    forall s: Buckets<Time>, call: Call, before: Time
      ensures TidyStep(AuthStep(windowSecs), key, limit, s, call, before)
    {
      if (call.key == key ==> call.limit == limit && before <= call.at) && Tidy(Get(s, key), limit, before) {
        AuthTidyStep(windowSecs(call.key), key, limit, s, call, before);
      }
    }
  }

  /** What a call does to any one bucket: prune and maybe push if it is the caller's, and maybe sweep. */
  lemma AuthBucket(s: Buckets<Time>, call: Call, windowSecs: nat, window: nat, key: Key) returns (xs: seq<Time>)
    requires window == windowSecs * SECOND
    ensures Get(AuthCheck(s, call.key, call.limit, windowSecs, call.at).0, key) in
              [xs, Retain(xs, Stamp(), call.at, window)]
    ensures
      var live := Retain(Get(s, key), Stamp(), call.at, window);
      xs == if key != call.key then Get(s, key) else if |live| < call.limit then live + [call.at] else live
  {
    var live := Retain(Get(s, call.key), Stamp(), call.at, window);
    var after := s[call.key := if |live| < call.limit then live + [call.at] else live];
    xs := Get(after, key);
    CleanedBucket(after, Stamp(), call.at, window, key);
  }

  lemma AuthTidyStep(windowSecs: nat, key: Key, limit: nat, s: Buckets<Time>, call: Call, before: Time)
    requires (call.key == key ==> call.limit == limit && before <= call.at) && Tidy(Get(s, key), limit, before)
    ensures Tidy(Get(AuthCheck(s, call.key, call.limit, windowSecs, call.at).0, key), limit,
                 if call.key == key then call.at else before)
  {
    var window: nat :| window == windowSecs * SECOND;
    var xs := AuthBucket(s, call, windowSecs, window, key);
    if call.key == key {
      PruneKeepsTidy(Get(s, key), limit, before, call.at, window);
    }
    RetainInOrder(xs, if call.key == key then call.at else before, call.at, window);
  }

  /** What is left in a full bucket: its oldest entry is still inside the window. */
  lemma FullBucket(xs: seq<Time>, limit: nat, now: Time, window: nat)
    requires Tidy(xs, limit, now) && limit >= 1
    requires |Retain(xs, Stamp(), now, window)| >= limit
    ensures
      var live := Retain(xs, Stamp(), now, window);
      InOrder(live, now) && |live| == limit && 0 <= now - live[0] < window
  {
    var live := Retain(xs, Stamp(), now, window);
    PruneKeepsTidy(xs, limit, now, now, window);
    RetainKeeps(xs, Stamp(), now, window, live[0]);
    FirstIsLeast(live, now);
  }

  /** It has room again exactly once that entry has left the window. */
  lemma RoomAgain(live: seq<Time>, limit: nat, now: Time, window: nat, wait: nat)
    requires InOrder(live, now) && |live| == limit && limit >= 1
    ensures |Retain(live, Stamp(), now + wait, window)| < limit <==> wait >= window - (now - live[0])
  {
    RetainShrinks(live, now, now + wait, window);
  }

  /** Whether the limiter would accept the call if it came again after a wait, with no other call between. */
  ghost predicate AcceptsAfter(step: Limiter<Buckets<Time>>, s: Buckets<Time>, call: Call, wait: nat) {
    step(s, call.(at := call.at + wait)).1
  }

  /** From `exact` on, and not before, the call would be accepted. */
  ghost predicate OpensAgainAt(step: Limiter<Buckets<Time>>, s: Buckets<Time>, call: Call, exact: nat) {
    forall wait: nat :: AcceptsAfter(step, s, call, wait) <==> wait >= exact
  }

  /** A run in which the calls of `last`'s key come in time order up to `last`, and are limited like it. */
  ghost predicate SteadyRun(calls: seq<Call>, last: Call) {
    OwnOrder(calls, last.key, last.at) && ConstantLimit(calls, last.key, last.limit) && last.limit >= 1
  }

  /**
   A call the auth limiter turns away succeeds later exactly from some wait on; the seconds it was told are
   never less than that wait, and more by less than one second.
   */
  lemma AuthRetryAfterIsTight(windowSecs: Key -> nat, calls: seq<Call>, last: Call, told: nat) returns (exact: nat)
    requires SteadyRun(calls, last)
    requires AuthCheck(AfterAuth(windowSecs, calls), last.key, last.limit, windowSecs(last.key), last.at).1 == Failure(told)
    ensures OpensAgainAt(AuthStep(windowSecs), AuthStep(windowSecs)(AfterAuth(windowSecs, calls), last).0, last, exact)
    ensures exact <= told * SECOND < exact + SECOND
  {
    var s := AfterAuth(windowSecs, calls);
    AuthKeepsTidy(windowSecs, last.key, last.limit);
    RunTidy(AuthStep(windowSecs), calls, last.key, last.limit, last.at);
    exact := AuthTurnedAway(windowSecs, s, last, told);
  }

  lemma AuthTurnedAway(windowSecs: Key -> nat, s: Buckets<Time>, last: Call, told: nat) returns (exact: nat)
    requires Tidy(Get(s, last.key), last.limit, last.at) && last.limit >= 1
    requires AuthCheck(s, last.key, last.limit, windowSecs(last.key), last.at).1 == Failure(told)
    ensures OpensAgainAt(AuthStep(windowSecs), AuthStep(windowSecs)(s, last).0, last, exact)
    ensures exact <= told * SECOND < exact + SECOND
  {
    exact := AuthOpensAgain(windowSecs, s, last);
  }

  /** A full bucket accepts again exactly when its oldest live entry is as old as the window. */
  lemma AuthOpensAgain(windowSecs: Key -> nat, s: Buckets<Time>, last: Call) returns (exact: nat)
    requires Tidy(Get(s, last.key), last.limit, last.at) && last.limit >= 1
    requires |Retain(Get(s, last.key), Stamp(), last.at, windowSecs(last.key) * SECOND)| >= last.limit
    ensures
      var live := Retain(Get(s, last.key), Stamp(), last.at, windowSecs(last.key) * SECOND);
      && live != [] && 0 <= last.at - live[0] < windowSecs(last.key) * SECOND
      && exact == windowSecs(last.key) * SECOND - (last.at - live[0])
      && OpensAgainAt(AuthStep(windowSecs), s[last.key := live], last, exact)
  {
    var window := windowSecs(last.key) * SECOND;
    var live := Retain(Get(s, last.key), Stamp(), last.at, window);
    FullBucket(Get(s, last.key), last.limit, last.at, window);
    exact := window - (last.at - live[0]);
    AuthOpensAt(windowSecs, s[last.key := live], live, last, exact);
  }

  lemma AuthOpensAt(windowSecs: Key -> nat, after: Buckets<Time>, live: seq<Time>, last: Call, exact: nat)
    requires Get(after, last.key) == live && InOrder(live, last.at) && |live| == last.limit && last.limit >= 1
    requires exact == windowSecs(last.key) * SECOND - (last.at - live[0])
    ensures OpensAgainAt(AuthStep(windowSecs), after, last, exact)
  {
    forall wait: nat ensures AcceptsAfter(AuthStep(windowSecs), after, last, wait) <==> wait >= exact {
      RoomAgain(live, last.limit, last.at, windowSecs(last.key) * SECOND, wait);
    }
  }

  /**
   The gateway's limiter rounds down: the seconds it tells are within one second of the exact wait, and
   waiting them is enough exactly when rounding lost nothing.
   */
  lemma IpRetryAfterIsNear(calls: seq<Call>, last: Call, told: nat) returns (exact: nat)
    requires SteadyRun(calls, last)
    requires IpCheck(AfterIp(calls), last.key, last.limit, last.at).1 == Failure(told)
    ensures OpensAgainAt(IpStep(), IpStep()(AfterIp(calls), last).0, last, exact)
    ensures exact - SECOND < told * SECOND < exact + SECOND
    ensures AcceptsAfter(IpStep(), IpStep()(AfterIp(calls), last).0, last, told * SECOND)
       <==> exact <= SECOND || exact % SECOND == 0
  {
    IpKeepsTidy(last.key, last.limit);
    RunTidy(IpStep(), calls, last.key, last.limit, last.at);
    exact := IpTurnedAway(AfterIp(calls), last, told);
  }

  lemma IpTurnedAway(s: Buckets<Time>, last: Call, told: nat) returns (exact: nat)
    requires Tidy(Get(s, last.key), last.limit, last.at) && last.limit >= 1
    requires IpCheck(s, last.key, last.limit, last.at).1 == Failure(told)
    ensures OpensAgainAt(IpStep(), IpStep()(s, last).0, last, exact)
    ensures exact - SECOND < told * SECOND < exact + SECOND
    ensures told * SECOND >= exact <==> exact <= SECOND || exact % SECOND == 0
  {
    var live := Retain(Get(s, last.key), Stamp(), last.at, MINUTE);
    FullBucket(Get(s, last.key), last.limit, last.at, MINUTE);
    exact := MINUTE - (last.at - live[0]);
    IpOpensAt(s[last.key := live], live, last, exact);
  }

  lemma IpOpensAt(after: Buckets<Time>, live: seq<Time>, last: Call, exact: nat)
    requires Get(after, last.key) == live && InOrder(live, last.at) && |live| == last.limit && last.limit >= 1
    requires exact == MINUTE - (last.at - live[0])
    ensures OpensAgainAt(IpStep(), after, last, exact)
  {
    forall wait: nat ensures AcceptsAfter(IpStep(), after, last, wait) <==> wait >= exact {
      RoomAgain(live, last.limit, last.at, MINUTE, wait);
    }
  }
}

/** Sweeps of the auth limiter's map with a window narrower than some key's: exactly when they do harm. */
module Sweeping {
  import opened Common
  import opened Limiters

  // ---------------------------------------------------------------- harmful sweeps

  /**
   One sweep with window `used` leaves every later decision for a key with window `own` alone exactly when it
   forgets no entry that the key's own window would still count.
   */
  lemma SweepHarmlessExactly(attempts: Buckets<Time>, key: Key, now: Time, used: nat, own: nat)
    ensures (forall t :: now <= t ==>
               SameLive(Get(CleanUp(attempts, Stamp(), now, used), key), Get(attempts, key), Stamp(), t, own))
       <==> forall x :: x in Get(attempts, key) ==> !(used <= Elapsed(x, now) < own)
  {
    var xs := Get(attempts, key);
    CleanedBucket(attempts, Stamp(), now, used, key);
    if forall x :: x in xs ==> !(used <= Elapsed(x, now) < own) {
      forall t | now <= t ensures SameLive(Retain(xs, Stamp(), now, used), xs, Stamp(), t, own) {
        SweepKeepsLive(xs, Stamp(), now, t, used, own);
      }
    }
    if x :| x in xs && used <= Elapsed(x, now) < own {
      PruneForgets(xs, Stamp(), now, used, now, own, x);
      assert !SameLive(Retain(xs, Stamp(), now, used), xs, Stamp(), now, own);
    }
  }

  lemma OneMoreCall(windowSecs: Key -> nat, calls: seq<Call>, c: Call)
    ensures
      var (after, ok) := AuthStep(windowSecs)(AfterAuth(windowSecs, calls), c);
      && AfterAuth(windowSecs, calls + [c]) == after
      && Decisions(AuthStep(windowSecs), map[], calls + [c]).1
         == Decisions(AuthStep(windowSecs), map[], calls).1 + [ok]
  {
  }

  /** What there is to count of `key` once `call` has been accepted. */
  function TrueCount(windowSecs: Key -> nat, calls: seq<Call>, key: Key, now: Time): nat {
    CountWithin(Accepted(calls, Rule(Windows(windowSecs), 0)), key, now, Windows(windowSecs)(key))
  }

  /**
   Right after the first sweep that forgets a live entry, the limiter accepts one more call of that key
   although the key's limit, its true count, is used up.
   */
  lemma HarmShows(windowSecs: Key -> nat, calls: seq<Call>, call: Call, key: Key, x: Time) returns (c: Call)
    requires Monotone(calls + [call]) && SafeAuthRun(windowSecs, calls)
    requires Sweeps(windowSecs, AfterAuth(windowSecs, calls), call)
    requires x in Get(PushedBy(windowSecs, AfterAuth(windowSecs, calls), call), key)
    requires windowSecs(call.key) * SECOND <= Elapsed(x, call.at) < Windows(windowSecs)(key)
    ensures c == Call(key, TrueCount(windowSecs, calls + [call], key, call.at), call.at)
    ensures Monotone(calls + [call] + [c]) && !AuthAgrees(windowSecs, calls + [call] + [c])
  {
    c := Call(key, TrueCount(windowSecs, calls + [call], key, call.at), call.at);
    OrderedBefore(calls, call);
    SweptStateForgets(windowSecs, calls, call, key, x);
    WronglyAccepted(windowSecs, calls + [call], c);
  }

  lemma OrderedBefore(calls: seq<Call>, call: Call)
    requires Monotone(calls + [call])
    ensures Monotone(calls) && (calls != [] ==> calls[|calls| - 1].at <= call.at)
  {
    var run := calls + [call];
    assert forall i :: 0 <= i < |calls| ==> run[i] == calls[i];
    assert run[|calls|] == call;
  }

  /** A call at its key's true count is refused by the specification; a limiter that counts fewer lets it through. */
  lemma WronglyAccepted(windowSecs: Key -> nat, run: seq<Call>, c: Call)
    requires c.limit == TrueCount(windowSecs, run, c.key, c.at)
    requires |Retain(Get(AfterAuth(windowSecs, run), c.key), Stamp(), c.at, Windows(windowSecs)(c.key))| < c.limit
    ensures !AuthAgrees(windowSecs, run + [c])
  {
    var rule, ahead := Rule(Windows(windowSecs), 0), run + [c];
    OneMoreCall(windowSecs, run, c);
    assert Decisions(AuthStep(windowSecs), map[], ahead).1 == Decisions(AuthStep(windowSecs), map[], run).1 + [true];
    assert ahead[..|run|] == run && !Allowed(Accepted(run, rule), c, rule);
    assert Verdicts(ahead, rule) == Verdicts(run, rule) + [false];
    EndsDiffer(Decisions(AuthStep(windowSecs), map[], run).1, Verdicts(run, rule), true, false);
  }

  lemma SweptStateForgets(windowSecs: Key -> nat, calls: seq<Call>, call: Call, key: Key, x: Time)
    requires Monotone(calls) && (calls != [] ==> calls[|calls| - 1].at <= call.at) && SafeAuthRun(windowSecs, calls)
    requires Sweeps(windowSecs, AfterAuth(windowSecs, calls), call)
    requires x in Get(PushedBy(windowSecs, AfterAuth(windowSecs, calls), call), key)
    requires windowSecs(call.key) * SECOND <= Elapsed(x, call.at) < Windows(windowSecs)(key)
    ensures |Retain(Get(AfterAuth(windowSecs, calls + [call]), key), Stamp(), call.at, Windows(windowSecs)(key))|
          < TrueCount(windowSecs, calls + [call], key, call.at)
    ensures TrueCount(windowSecs, calls + [call], key, call.at)
         == |Retain(Get(PushedBy(windowSecs, AfterAuth(windowSecs, calls), call), key),
                    Stamp(), call.at, Windows(windowSecs)(key))|
  {
    var s, window := AfterAuth(windowSecs, calls), Windows(windowSecs);
    var rule := Rule(window, 0);
    var pushed := PushedBy(windowSecs, s, call);
    var after := Accepted(calls, rule) + [Hit(call.key, call.at)];
    AuthRunMatches(windowSecs, calls);
    PruneDecidePush(s, Accepted(calls, rule), if calls == [] then FirstAt(calls) else calls[|calls| - 1].at,
                    window, call.key, call.at);
    OneMoreCall(windowSecs, calls, call);
    CleanedBucket(pushed, Stamp(), call.at, window(call.key), key);
    PruneForgets(Get(pushed, key), Stamp(), call.at, window(call.key), call.at, window(key), x);
    assert SameLive(Get(pushed, key), Entries(after, key), Stamp(), call.at, window(key));
    CountIsLength(after, key, call.at, window(key));
  }

  /** Some call right after a prefix of an unsafe run is decided wrongly. */
  lemma {:induction false} UnsafeRunGoesWrong(windowSecs: Key -> nat, calls: seq<Call>) returns (n: nat, c: Call)
    requires Monotone(calls) && !SafeAuthRun(windowSecs, calls)
    ensures n <= |calls| && Monotone(calls[..n] + [c]) && !AuthAgrees(windowSecs, calls[..n] + [c])
  {
    var m := |calls| - 1;
    var earlier := calls[..m];
    assert calls == earlier + [calls[m]];
    if SafeAuthRun(windowSecs, earlier) {
      var key, x := SweepHarms(windowSecs, AfterAuth(windowSecs, earlier), calls[m]);
      c := HarmShows(windowSecs, earlier, calls[m], key, x);
      n := |calls|;
      assert calls[..n] == calls;
    } else {
      n, c := UnsafeRunGoesWrong(windowSecs, earlier);
      assert calls[..n] == earlier[..n];
    }
  }

  lemma SweepHarms(windowSecs: Key -> nat, s: Buckets<Time>, call: Call) returns (key: Key, x: Time)
    requires !SweepIsSafe(windowSecs, s, call)
    ensures Sweeps(windowSecs, s, call) && x in Get(PushedBy(windowSecs, s, call), key)
    ensures windowSecs(call.key) * SECOND <= Elapsed(x, call.at) < Windows(windowSecs)(key)
  {
    var pushed, used := PushedBy(windowSecs, s, call), windowSecs(call.key) * SECOND;
    key, x :| x in Get(pushed, key) && used <= Elapsed(Stamp()(x), call.at) < Windows(windowSecs)(key);
  }

  lemma {:induction false} SafePrefix(windowSecs: Key -> nat, calls: seq<Call>, n: nat)
    requires n <= |calls| && SafeAuthRun(windowSecs, calls)
    ensures SafeAuthRun(windowSecs, calls[..n])
  {
    if n < |calls| {
      var m := |calls| - 1;
      SafePrefix(windowSecs, calls[..m], n);
      assert calls[..m][..n] == calls[..n];
    } else {
      assert calls[..n] == calls;
    }
  }

  /**
   Exactly when the auth limiter can be trusted: whatever call comes next, after any part of a run, is decided
   as by counting everything if and only if no sweep of the run forgets a live entry.
   */
  lemma AuthRefinesExactly(windowSecs: Key -> nat, calls: seq<Call>)
    requires Monotone(calls)
    ensures SafeAuthRun(windowSecs, calls) <==>
            forall n, c :: 0 <= n <= |calls| && Monotone(calls[..n] + [c]) ==> AuthAgrees(windowSecs, calls[..n] + [c])
  {
    if SafeAuthRun(windowSecs, calls) {
      forall n, c | 0 <= n <= |calls| && Monotone(calls[..n] + [c]) ensures AuthAgrees(windowSecs, calls[..n] + [c]) {
        NextAgrees(windowSecs, calls, n, c);
      }
    } else {
      var n, c := UnsafeRunGoesWrong(windowSecs, calls);
    }
  }

  lemma NextAgrees(windowSecs: Key -> nat, calls: seq<Call>, n: nat, c: Call)
    requires n <= |calls| && Monotone(calls) && Monotone(calls[..n] + [c]) && SafeAuthRun(windowSecs, calls)
    ensures AuthAgrees(windowSecs, calls[..n] + [c])
  {
    var part, rule := calls[..n], Rule(Windows(windowSecs), 0);
    var last := if part == [] then FirstAt(part) else part[n - 1].at;
    SafePrefix(windowSecs, calls, n);
    assert part != [] ==> (part + [c])[n - 1].at <= (part + [c])[n].at;
    AuthRunMatches(windowSecs, part);
    OneMoreCall(windowSecs, part, c);
    if part != [] {
      AuthStepAgrees(windowSecs, AfterAuth(windowSecs, part), Accepted(part, rule), last, c);
    } else {
      AuthStepAgrees(windowSecs, map[], [], c.at, c);
    }
  }

  // ---------------------------------------------------------------- a run that goes wrong

  const REGISTER := 3600
  const LOGIN := 900

  /** The n-th key of a crowd. */
  function Name(n: nat): Key { seq(n, _ => 'x') }

  /** One key registers; everyone else logs in. */
  function CrowdWindows(): Key -> nat { (key: Key) => if key == "" then REGISTER else LOGIN }

  /** The first key of the crowd calls at zero, the others, one after another, a thousand seconds later. */
  function CrowdCall(n: nat): Call { Call(Name(n), 1, if n == 0 then 0 else 1000 * SECOND) }

  function CrowdCalls(n: nat): seq<Call> { seq(n, i requires 0 <= i < n => CrowdCall(i)) }

  function Crowd(n: nat): Buckets<Time> {
    map key | key in (set i | 0 <= i < n :: Name(i)) :: [CrowdCall(|key|).at]
  }

  lemma {:induction false} CrowdSize(n: nat)
    ensures |Crowd(n)| == n
  {
    if n > 0 {
      CrowdSize(n - 1);
      CrowdGrows(n - 1);
      assert Name(n - 1) !in Crowd(n - 1);
    }
  }

  lemma CrowdGrows(n: nat)
    ensures Crowd(n + 1) == Crowd(n)[Name(n) := [CrowdCall(n).at]]
    ensures Name(n) !in Crowd(n)
  {
    forall i | 0 <= i < n ensures Name(i) != Name(n) {
      assert |Name(i)| == i && |Name(n)| == n;
    }
  }

  lemma CrowdInOrder(n: nat)
    ensures CrowdCalls(n + 1) == CrowdCalls(n) + [CrowdCall(n)] && Monotone(CrowdCalls(n))
  {
  }

  /** Up to 10,000 keys nothing is swept and everyone is accepted. */
  lemma {:induction false} CrowdPasses(n: nat)
    requires n <= AUTH_SWEEP
    ensures SafeAuthRun(CrowdWindows(), CrowdCalls(n)) && AfterAuth(CrowdWindows(), CrowdCalls(n)) == Crowd(n)
  {
    if n > 0 {
      CrowdPasses(n - 1);
      CrowdInOrder(n - 1);
      CrowdStep(n - 1);
      OneMoreCall(CrowdWindows(), CrowdCalls(n - 1), CrowdCall(n - 1));
    } else {
      assert CrowdCalls(n) == [] && Crowd(n) == map[];
    }
  }

  lemma CrowdStep(n: nat)
    requires n < AUTH_SWEEP
    ensures !Sweeps(CrowdWindows(), Crowd(n), CrowdCall(n))
    ensures AuthStep(CrowdWindows())(Crowd(n), CrowdCall(n)) == (Crowd(n + 1), true)
  {
    CrowdCallPasses(n);
    CrowdSize(n + 1);
    AcceptsQuietly(CrowdWindows(), Crowd(n), CrowdCall(n));
  }

  lemma AcceptsQuietly(windowSecs: Key -> nat, s: Buckets<Time>, c: Call)
    requires |Retain(Get(s, c.key), Stamp(), c.at, windowSecs(c.key) * SECOND)| < c.limit
    requires !Sweeps(windowSecs, s, c)
    ensures AuthStep(windowSecs)(s, c) == (PushedBy(windowSecs, s, c), true)
  {
    assert |PushedBy(windowSecs, s, c)| <= AUTH_SWEEP;
  }

  lemma CrowdCallPasses(n: nat)
    ensures PushedBy(CrowdWindows(), Crowd(n), CrowdCall(n)) == Crowd(n + 1)
    ensures |Retain(Get(Crowd(n), Name(n)), Stamp(), CrowdCall(n).at, CrowdWindows()(Name(n)) * SECOND)| == 0
  {
    CrowdGrows(n);
    assert Get(Crowd(n), Name(n)) == [];
    assert [] + [CrowdCall(n).at] == [CrowdCall(n).at];
  }

  /**
   The 10,001st key sweeps with the login window and makes the limiter forget the registration a thousand
   seconds before: a second registration within the hour is accepted under a limit of one.
   */
  lemma CrowdGoesWrong(n: nat)
    requires n == 10_000
    ensures Monotone(CrowdCalls(n + 1) + [Call("", 1, 1000 * SECOND)])
    ensures !AuthAgrees(CrowdWindows(), CrowdCalls(n + 1) + [Call("", 1, 1000 * SECOND)])
  {
    var calls, call := CrowdCalls(n), CrowdCall(n);
    CrowdPasses(n);
    CrowdInOrder(n);
    CrowdInOrder(n + 1);
    CrowdCallPasses(n);
    CrowdSize(n + 1);
    FirstOfCrowd(n + 1);
    var c := HarmShows(CrowdWindows(), calls, call, "", 0);
    SweptStateForgets(CrowdWindows(), calls, call, "", 0);
    RetainAll([0], call.at, REGISTER * SECOND);
  }

  lemma FirstOfCrowd(n: nat)
    requires n > 0
    ensures Get(Crowd(n), "") == [0]
  {
    assert Name(0) == "";
  }
}

/** Outages: failed calls, one after another, trip the breaker, and what a slow read or a healthy probe then does. */
module Outage {
  import opened Common
  import opened Meter
  import opened Routes
  import opened Proxy
  import opened Freshness

  // Step counts are passed as variables: on a literal the verifier would unfold whole runs.

  function FreeService(failures: nat): Service { Service(0, true, false, None, failures) }

  function FreeRoute(): Route { Route(0, true, false, None) }

  function NoBill(): Bill { Bill(false, None, 0, None) }

  function Shop(slug: Slug): State { Init(map[slug := FreeService(0)], 0) }

  // ---------------------------------------------------------------- one failed call, step by step

  /** The service is listed for free with so many failures counted, and the first gateway has no route to it. */
  ghost predicate Lists(s: State, slug: Slug, failures: nat) {
    slug in s.tables.services && s.tables.services[slug] == FreeService(failures) && slug !in CacheOf(s, 0)
  }

  /** A newcomer without a payment asks for the service. */
  ghost predicate Asks(s: State, id: nat, slug: Slug, failures: nat) {
    Lists(s, slug, failures) && id < |s.tasks| && s.tasks[id] == Newcomer(slug)
  }

  function Newcomer(slug: Slug): Task { Task(0, slug, Absent, LookingUp, None, NoClaim, false, false) }

  /** Only the request has moved; caches and logs do not matter here. */
  ghost predicate MovedTo(s: State, s': State, id: nat, pc: Pc) {
    && id < |s.tasks| && s'.tasks == s.tasks[id := s.tasks[id].(pc := pc)]
    && s'.clock == s.clock && s'.tables.services == s.tables.services
  }

  function Next(env: Env, s: State, id: nat): State { Step(env, s, Act(id, ANY_WORLD)) }

  lemma LogsRefund(env: Env, s: State, a: State, id: nat)
    requires MovedTo(s, a, id, Refunding(UpstreamTimeout))
    ensures MovedTo(s, Next(env, a, id), id, Counting(s.clock + env.openSecs))
  {
  }

  /** One more failure has been counted against the service. */
  ghost predicate Counted(env: Env, s: State, s': State, id: nat, slug: Slug, failures: nat, pc: Pc) {
    && id < |s.tasks| && s'.tasks == s.tasks[id := s.tasks[id].(pc := pc)] && s'.clock == s.clock
    && slug in s'.tables.services
    && s'.tables.services[slug] == CountedFailure(FreeService(failures), s.clock + env.openSecs, env.threshold)
  }

  lemma CountsFailure(env: Env, s: State, a: State, id: nat, slug: Slug, failures: nat)
    requires Asks(s, id, slug, failures) && failures < MAX_INT4
    requires MovedTo(s, a, id, Counting(s.clock + env.openSecs))
    ensures Counted(env, s, Next(env, a, id), id, slug, failures, Invalidating)
  {
  }

  lemma ForgetsRoute(env: Env, s: State, a: State, id: nat, slug: Slug, failures: nat)
    requires Asks(s, id, slug, failures) && Counted(env, s, a, id, slug, failures, Invalidating)
    ensures Counted(env, s, Next(env, a, id), id, slug, failures, Finished)
    ensures slug !in CacheOf(Next(env, a, id), 0)
  {
  }

  lemma ReachesUpstream(env: Env, s: State, id: nat, slug: Slug, failures: nat, n: nat)
    requires n == 6 && Asks(s, id, slug, failures)
    ensures MovedTo(s, Drive(env, s, id, ANY_WORLD, n), id, Sending(FreeRoute(), NoBill()))
  {
    ReadsRoute(env, s, id, slug, failures, n - 4);
    DriveStep(env, s, id, ANY_WORLD, n - 4);
    DriveStep(env, s, id, ANY_WORLD, n - 3);
    DriveStep(env, s, id, ANY_WORLD, n - 2);
    DriveStep(env, s, id, ANY_WORLD, n - 1);
  }

  lemma ReadsRoute(env: Env, s: State, id: nat, slug: Slug, failures: nat, n: nat)
    requires n == 2 && Asks(s, id, slug, failures)
    ensures MovedTo(s, Drive(env, s, id, ANY_WORLD, n), id, Storing(Some(FreeRoute()), s.clock))
  {
    DriveStep(env, s, id, ANY_WORLD, n - 2);
    DriveStep(env, s, id, ANY_WORLD, n - 1);
  }

  /** The upstream times out: the failure is counted and the route forgotten. */
  lemma AskingFails(env: Env, s: State, id: nat, slug: Slug, failures: nat, n: nat)
    requires n == 10 && Asks(s, id, slug, failures) && failures < MAX_INT4
    ensures Counted(env, s, Drive(env, s, id, ANY_WORLD, n), id, slug, failures, Finished)
    ensures slug !in CacheOf(Drive(env, s, id, ANY_WORLD, n), 0)
  {
    ReachesUpstream(env, s, id, slug, failures, n - 4);
    DriveStep(env, s, id, ANY_WORLD, n - 4);
    DriveStep(env, s, id, ANY_WORLD, n - 3);
    LogsRefund(env, s, Drive(env, s, id, ANY_WORLD, n - 3), id);
    DriveStep(env, s, id, ANY_WORLD, n - 2);
    CountsFailure(env, s, Drive(env, s, id, ANY_WORLD, n - 2), id, slug, failures);
    DriveStep(env, s, id, ANY_WORLD, n - 1);
    ForgetsRoute(env, s, Drive(env, s, id, ANY_WORLD, n - 1), id, slug, failures);
  }

  // ---------------------------------------------------------------- one failed call after another

  /** The call of request `id` from arrival on. */
  function FailedCall(id: nat, slug: Slug, n: nat): seq<Event> {
    [Arrive(0, slug, Absent)] + Acts(id, ANY_WORLD, n)
  }

  /** One call after another, by requests numbered from `first` on. */
  function Calls(first: nat, calls: nat, call: nat -> seq<Event>): seq<Event> {
    if calls == 0 then [] else Calls(first, calls - 1, call) + call(first + calls - 1)
  }

  /** So many requests later the row is this, no route to it is cached, and the earlier requests are where they were. */
  ghost predicate LeftAs(s: State, s': State, slug: Slug, row: Service, calls: nat) {
    && s'.clock == s.clock && |s'.tasks| == |s.tasks| + calls && s.tasks <= s'.tasks
    && slug in s'.tables.services && s'.tables.services[slug] == row && slug !in CacheOf(s', 0)
  }

  lemma OneCallFails(env: Env, s: State, slug: Slug, failures: nat, n: nat)
    requires n == 10 && Lists(s, slug, failures) && failures < MAX_INT4
    ensures LeftAs(s, Run(env, s, FailedCall(|s.tasks|, slug, n)), slug,
                   CountedFailure(FreeService(failures), s.clock + env.openSecs, env.threshold), 1)
  {
    var id, asked := |s.tasks|, Step(env, s, Arrive(0, slug, Absent));
    RunScript(env, s, Arrive(0, slug, Absent), id, ANY_WORLD, n);
    AskingFails(env, asked, id, slug, failures, n);
    CountedIsLeft(env, s, asked, Drive(env, asked, id, ANY_WORLD, n), slug, failures);
  }

  lemma CountedIsLeft(env: Env, s: State, asked: State, end: State, slug: Slug, failures: nat)
    requires asked.tasks == s.tasks + [Newcomer(slug)] && asked.clock == s.clock
    requires Counted(env, asked, end, |s.tasks|, slug, failures, Finished) && slug !in CacheOf(end, 0)
    ensures LeftAs(s, end, slug, CountedFailure(FreeService(failures), s.clock + env.openSecs, env.threshold), 1)
  {
  }

  /** Each such call counts one failure. */
  ghost predicate Fails(env: Env, slug: Slug, call: nat -> seq<Event>) {
    forall s: State, failures: nat {:trigger Lists(s, slug, failures)} ::
      Lists(s, slug, failures) && failures < MAX_INT4 ==>
      LeftAs(s, Run(env, s, call(|s.tasks|)), slug,
             CountedFailure(FreeService(failures), s.clock + env.openSecs, env.threshold), 1)
  }

  function FailedCalls(slug: Slug, n: nat): nat -> seq<Event> {
    (id: nat) => FailedCall(id, slug, n)
  }

  lemma FailedCallsFail(env: Env, slug: Slug, n: nat)
    requires n == 10
    ensures Fails(env, slug, FailedCalls(slug, n))
  {
    forall s: State, failures: nat | Lists(s, slug, failures) && failures < MAX_INT4
      ensures LeftAs(s, Run(env, s, FailedCalls(slug, n)(|s.tasks|)), slug,
                     CountedFailure(FreeService(failures), s.clock + env.openSecs, env.threshold), 1)
    {
      OneCallFails(env, s, slug, failures, n);
    }
  }

  /** The first `calls` failures only raise the counter. */
  ghost predicate OnlyCounts(env: Env, calls: nat) {
    forall k: nat, until :: k < calls ==> CountedFailure(FreeService(k), until, env.threshold) == FreeService(k + 1)
  }

  lemma {:induction false} CallsCount(env: Env, s: State, slug: Slug, calls: nat, call: nat -> seq<Event>)
    requires Fails(env, slug, call) && Lists(s, slug, 0) && OnlyCounts(env, calls) && calls <= MAX_INT4
    ensures LeftAs(s, Run(env, s, Calls(|s.tasks|, calls, call)), slug, FreeService(calls), calls)
  {
    if calls > 0 {
      CallsCount(env, s, slug, calls - 1, call);
      OneMoreCall(env, s, slug, calls, call, FreeService(calls));
    }
  }

  lemma OneMoreCall(env: Env, s: State, slug: Slug, calls: nat, call: nat -> seq<Event>, row: Service)
    requires Fails(env, slug, call) && 0 < calls <= MAX_INT4
    requires LeftAs(s, Run(env, s, Calls(|s.tasks|, calls - 1, call)), slug, FreeService(calls - 1), calls - 1)
    requires row == CountedFailure(FreeService(calls - 1), s.clock + env.openSecs, env.threshold)
    ensures LeftAs(s, Run(env, s, Calls(|s.tasks|, calls, call)), slug, row, calls)
  {
    var earlier, last := Calls(|s.tasks|, calls - 1, call), call(|s.tasks| + calls - 1);
    RunConcat(env, s, earlier, last);
    NextCallFails(env, s, Run(env, s, earlier), last, slug, calls, call, row);
  }

  lemma NextCallFails(
    env: Env, s: State, before: State, last: seq<Event>, slug: Slug, calls: nat, call: nat -> seq<Event>, row: Service)
    requires Fails(env, slug, call) && 0 < calls <= MAX_INT4 && last == call(|s.tasks| + calls - 1)
    requires LeftAs(s, before, slug, FreeService(calls - 1), calls - 1)
    requires row == CountedFailure(FreeService(calls - 1), s.clock + env.openSecs, env.threshold)
    ensures LeftAs(s, Run(env, before, last), slug, row, calls)
  {
    assert Lists(before, slug, calls - 1);
    LeftOneMore(s, before, Run(env, before, last), slug, FreeService(calls - 1), row, calls - 1);
  }

  lemma LeftOneMore(s: State, before: State, after: State, slug: Slug, earlier: Service, row: Service, calls: nat)
    requires LeftAs(s, before, slug, earlier, calls) && LeftAs(before, after, slug, row, 1)
    ensures LeftAs(s, after, slug, row, calls + 1)
  {
  }

  /** As many failed calls as the threshold asks for. */
  function Outage(env: Env, first: nat, slug: Slug, n: nat): seq<Event> {
    Calls(first, OpensAt(env.threshold), FailedCalls(slug, n))
  }

  lemma OutageOpens(env: Env, s: State, slug: Slug, n: nat)
    requires n == 10 && Lists(s, slug, 0)
    ensures
      var opens := OpensAt(env.threshold);
      LeftAs(s, Run(env, s, Outage(env, |s.tasks|, slug, n)), slug,
             Service(0, true, true, Some(s.clock + env.openSecs), opens), opens)
  {
    var opens := OpensAt(env.threshold);
    FailedCallsFail(env, slug, n);
    LastCallOpens(env, s, slug, opens, FailedCalls(slug, n));
  }

  /** Fewer calls leave the breaker closed. */
  lemma FewerOnlyCount(env: Env, s: State, slug: Slug, calls: nat, n: nat)
    requires n == 10 && Lists(s, slug, 0) && calls < OpensAt(env.threshold)
    ensures LeftAs(s, Run(env, s, Calls(|s.tasks|, calls, FailedCalls(slug, n))), slug, FreeService(calls), calls)
  {
    FailedCallsFail(env, slug, n);
    CallsCount(env, s, slug, calls, FailedCalls(slug, n));
  }

  lemma LastCallOpens(env: Env, s: State, slug: Slug, opens: nat, call: nat -> seq<Event>)
    requires Fails(env, slug, call) && Lists(s, slug, 0) && 0 < opens <= MAX_INT4 && OnlyCounts(env, opens - 1)
    ensures LeftAs(s, Run(env, s, Calls(|s.tasks|, opens, call)), slug,
                   CountedFailure(FreeService(opens - 1), s.clock + env.openSecs, env.threshold), opens)
  {
    CallsCount(env, s, slug, opens - 1, call);
    OneMoreCall(env, s, slug, opens, call, CountedFailure(FreeService(opens - 1), s.clock + env.openSecs, env.threshold));
  }

  // ---------------------------------------------------------------- a healthy probe after the outage

  /** As many failed calls as the threshold asks for, then a healthy probe. */
  function OutageThenProbe(env: Env, slug: Slug, n: nat): seq<Event> {
    Outage(env, 0, slug, n) + [Probe(slug, true)]
  }

  /**
   A healthy probe after the breaker has opened resets the counter and leaves the breaker open: the next failure
   is then counted from nothing.
   */
  lemma HealthyProbeDisagrees(env: Env, slug: Slug, n: nat)
    requires n == 10
    ensures
      var s := Run(env, Shop(slug), OutageThenProbe(env, slug, n));
      && slug in s.tables.services
      && s.tables.services[slug] == Service(0, true, true, Some(env.openSecs), 0)
      && !Consistent(s.tables.services[slug], env.threshold)
  {
    OutageOpens(env, Shop(slug), slug, n);
  }

  // ---------------------------------------------------------------- a slow read from before the outage

  /** A request that has read the route and is held up. */
  function SlowRead(slug: Slug, m: nat): seq<Event> {
    [Arrive(0, slug, Absent)] + Acts(0, ANY_WORLD, m)
  }

  /** Meanwhile others fail and open the breaker. */
  function SlowReadThenOutage(env: Env, slug: Slug, m: nat, n: nat): seq<Event> {
    SlowRead(slug, m) + Outage(env, 1, slug, n)
  }

  lemma SlowReadWaits(env: Env, slug: Slug, m: nat)
    requires m == 2
    ensures
      var s := Run(env, Shop(slug), SlowRead(slug, m));
      && Lists(s, slug, 0) && s.clock == 0
      && s.tasks == [Newcomer(slug).(pc := Storing(Some(FreeRoute()), 0))]
  {
    var asked := Step(env, Shop(slug), Arrive(0, slug, Absent));
    RunScript(env, Shop(slug), Arrive(0, slug, Absent), 0, ANY_WORLD, m);
    ReadsRoute(env, asked, 0, slug, 0, m);
    DriveStep(env, asked, 0, ANY_WORLD, m - 2);
    DriveStep(env, asked, 0, ANY_WORLD, m - 1);
    assert Drive(env, asked, 0, ANY_WORLD, m - 1) == Goto(asked, 0, Loading);
  }

  /**
   The state in which failing fast breaks down is reached: the breaker is open, the route evicted, and a read
   from before is still to be stored.
   */
  lemma StaleReadReached(env: Env, slug: Slug, m: nat, n: nat)
    requires env.openSecs > 0 && env.ttl > 0 && m == 2 && n == 10
    ensures
      var s := Run(env, Shop(slug), SlowReadThenOutage(env, slug, m, n));
      && OpenUntil(s, slug, env.openSecs) && slug !in CacheOf(s, 0)
      && s.tasks != [] && StaleRead(s.tasks[0], 0, slug, env.openSecs)
      && !FailsFast(env, s, 0, slug, env.openSecs)
  {
    var waiting := Run(env, Shop(slug), SlowRead(slug, m));
    SlowReadWaits(env, slug, m);
    RunConcat(env, Shop(slug), SlowRead(slug, m), Outage(env, 1, slug, n));
    OutageOpens(env, waiting, slug, n);
    StaleReadSlips(env, Run(env, Shop(slug), SlowReadThenOutage(env, slug, m, n)), 0, slug, env.openSecs, 0);
  }
}

/** How old a route can be when a request uses it, and when an open breaker really fails fast. */
module Freshness {
  import opened Common
  import opened Meter
  import opened Routes
  import opened Proxy

  // ---------------------------------------------------------------- what a step does to cached routes

  /** Requests that hold a route they resolved. */
  function HeldRoute(pc: Pc): Option<Route> {
    match pc
    case Gating(route) => Some(route)
    case Paying(route) => Some(route)
    case Preparing(route, _) => Some(route)
    case Sending(route, _) => Some(route)
    case _ => None
  }

  predicate IsResolving(pc: Pc) { pc.LookingUp? || pc.Loading? || pc.Storing? }

  /** Past the breaker check, on the way to the upstream or back. */
  predicate PassedBreaker(pc: Pc) {
    !IsResolving(pc) && !pc.Gating? && !pc.Rejecting? && !pc.Finished?
  }

  /** A step that is not resolution keeps the request's route, and only ever evicts from caches. */
  ghost predicate KeepsRoutes(s: State, s': State, id: nat)
    requires id < |s.tasks|
  {
    && |s'.tasks| == |s.tasks| && s'.tasks == s.tasks[id := s'.tasks[id]]
    && s'.tasks[id].gateway == s.tasks[id].gateway && s'.tasks[id].slug == s.tasks[id].slug
    && !IsResolving(s'.tasks[id].pc)
    && (HeldRoute(s'.tasks[id].pc).Some? ==> HeldRoute(s'.tasks[id].pc) == HeldRoute(s.tasks[id].pc))
    && s'.clock == s.clock
    && (forall gateway, slug :: slug in CacheOf(s', gateway) ==>
          slug in CacheOf(s, gateway) && CacheOf(s', gateway)[slug] == CacheOf(s, gateway)[slug])
  }

  lemma GateKeepsRoutes(env: Env, s: State, id: nat, world: World)
    requires id < |s.tasks|
    requires s.tasks[id].pc.Gating? || s.tasks[id].pc.Preparing? || s.tasks[id].pc.Rejecting?
    ensures KeepsRoutes(s, Advance(env, s, id, world), id)
  {
  }

  lemma PayKeepsRoutes(env: Env, s: State, id: nat, world: World)
    requires id < |s.tasks| && s.tasks[id].pc.Paying?
    ensures KeepsRoutes(s, Advance(env, s, id, world), id)
  {
  }

  lemma ConsumeKeepsRoutes(env: Env, s: State, id: nat, world: World)
    requires id < |s.tasks| && s.tasks[id].pc.Consuming?
    ensures KeepsRoutes(s, Advance(env, s, id, world), id)
  {
  }

  lemma AnswerKeepsRoutes(env: Env, s: State, id: nat, world: World)
    requires id < |s.tasks| && s.tasks[id].pc.Sending?
    ensures KeepsRoutes(s, Advance(env, s, id, world), id)
  {
  }

  lemma BooksKeepRoutes(env: Env, s: State, id: nat, world: World)
    requires id < |s.tasks|
    requires s.tasks[id].pc.Logging? || s.tasks[id].pc.Metering? || s.tasks[id].pc.Closing?
    ensures KeepsRoutes(s, Advance(env, s, id, world), id)
  {
  }

  lemma LaterKeepsRoutes(env: Env, s: State, id: nat, world: World)
    requires id < |s.tasks|
    requires s.tasks[id].pc.Refunding? || s.tasks[id].pc.Counting? || s.tasks[id].pc.Invalidating? || s.tasks[id].pc.Finished?
    ensures KeepsRoutes(s, Advance(env, s, id, world), id)
  {
  }

  lemma OtherStepsKeepRoutes(env: Env, s: State, id: nat, world: World)
    requires id < |s.tasks| && !IsResolving(s.tasks[id].pc)
    ensures KeepsRoutes(s, Advance(env, s, id, world), id)
  {
    var pc := s.tasks[id].pc;
    if pc.Gating? || pc.Preparing? || pc.Rejecting? {
      GateKeepsRoutes(env, s, id, world);
    } else if pc.Paying? {
      PayKeepsRoutes(env, s, id, world);
    } else if pc.Sending? {
      AnswerKeepsRoutes(env, s, id, world);
    } else if pc.Consuming? {
      ConsumeKeepsRoutes(env, s, id, world);
    } else if pc.Logging? || pc.Metering? || pc.Closing? {
      BooksKeepRoutes(env, s, id, world);
    } else {
      LaterKeepsRoutes(env, s, id, world);
    }
  }

  // ---------------------------------------------------------------- routes and the rows they were read from

  /** A fact about a route and the time its reading may date from. */
  type Claim = (Route, Time) -> bool

  /** What was true of a route at some time is claimed of every earlier time. */
  ghost predicate Fades(claim: Claim) {
    forall route, t, t' :: t' <= t && claim(route, t) ==> claim(route, t')
  }

  /** The claim holds of every route for `slug` on `gateway` that a new request could still pick up. */
  ghost predicate Vouched(s: State, gateway: GatewayId, slug: Slug, lag: nat, claim: Claim) {
    && (slug in CacheOf(s, gateway) ==>
          claim(CacheOf(s, gateway)[slug].route, CacheOf(s, gateway)[slug].insertedAt - lag))
    && forall i :: 0 <= i < |s.tasks| ==> VouchedPending(s.tasks[i], gateway, slug, claim)
  }

  ghost predicate VouchedPending(t: Task, gateway: GatewayId, slug: Slug, claim: Claim) {
    t.gateway == gateway && t.slug == slug && t.pc.Storing? && t.pc.found.Some? ==>
      claim(t.pc.found.value, t.pc.loadedAt)
  }

  ghost predicate Timeless(claim: Claim) {
    forall route, t, t' :: claim(route, t) == claim(route, t')
  }

  /** Each route is stored at most `lag` after it was read. */
  ghost predicate SwiftStore(s: State, e: Event, lag: nat) {
    e.Act? && e.task < |s.tasks| && s.tasks[e.task].pc.Storing? ==> s.clock <= s.tasks[e.task].pc.loadedAt + lag
  }

  lemma VouchedStep(env: Env, s: State, e: Event, gateway: GatewayId, slug: Slug, lag: nat, claim: Claim)
    requires Vouched(s, gateway, slug, lag, claim) && Fades(claim)
    requires SwiftStore(s, e, lag) || Timeless(claim)
    requires slug in s.tables.services ==> claim(RouteOf(s.tables.services[slug]), s.clock)
    ensures Vouched(Step(env, s, e), gateway, slug, lag, claim)
  {
    if e.Act? && e.task < |s.tasks| {
      var t, s' := s.tasks[e.task], Step(env, s, e);
      assert VouchedPending(t, gateway, slug, claim);
      if IsResolving(t.pc) {
        ResolvingVouched(env, s, e.task, e.world, gateway, slug, lag, claim);
      } else {
        OtherStepsKeepRoutes(env, s, e.task, e.world);
      }
    }
  }

  lemma ResolvingVouched(
    env: Env, s: State, id: nat, world: World, gateway: GatewayId, slug: Slug, lag: nat, claim: Claim)
    requires id < |s.tasks| && IsResolving(s.tasks[id].pc)
    requires Vouched(s, gateway, slug, lag, claim) && Fades(claim)
    requires SwiftStore(s, Act(id, world), lag) || Timeless(claim)
    requires slug in s.tables.services ==> claim(RouteOf(s.tables.services[slug]), s.clock)
    ensures Vouched(Advance(env, s, id, world), gateway, slug, lag, claim)
  {
    assert VouchedPending(s.tasks[id], gateway, slug, claim);
    var s' := Advance(env, s, id, world);
    forall i | 0 <= i < |s'.tasks| ensures VouchedPending(s'.tasks[i], gateway, slug, claim) {
      assert i != id ==> VouchedPending(s.tasks[i], gateway, slug, claim);
    }
  }

  /** The route that `resolve` returns to request `id` in its next step, if it returns one. */
  function Returned(env: Env, s: State, id: nat): Option<Route>
    requires id < |s.tasks|
  {
    var t := s.tasks[id];
    match t.pc
    case LookingUp => Hit(CacheOf(s, t.gateway), t.slug, s.clock, env.ttl)
    case Storing(found, _) => found
    case _ => None
  }

  /** A returned route is used if it is enabled and refused if not; no request uses any other. */
  lemma ReturnedDecides(env: Env, s: State, id: nat, world: World)
    requires id < |s.tasks| && IsResolving(s.tasks[id].pc)
    ensures
      var s' := Advance(env, s, id, world);
      && |s'.tasks| == |s.tasks|
      && (Returned(env, s, id).Some? ==> s'.tasks[id].pc == Resolved(Returned(env, s, id).value))
      && (Returned(env, s, id).None? ==> IsResolving(s'.tasks[id].pc) || s'.tasks[id].pc.Finished?)
  {
  }

  /**
   How old a returned route can be, times being whole numbers: an entry is fresh up to one unit short of the TTL,
   and was read at most a lag before it was stored.
   */
  function Age(ttl: nat, lag: nat): nat { if ttl == 0 then lag else ttl + lag - 1 }

  /** Whatever `resolve` returns is vouched for, back to that age ago. */
  lemma ReturnedIsVouched(
    env: Env, s: State, id: nat, world: World, gateway: GatewayId, slug: Slug, lag: nat, claim: Claim)
    requires id < |s.tasks| && s.tasks[id].gateway == gateway && s.tasks[id].slug == slug
    requires Vouched(s, gateway, slug, lag, claim) && Fades(claim)
    requires SwiftStore(s, Act(id, world), lag) || Timeless(claim)
    ensures Returned(env, s, id).Some? ==> claim(Returned(env, s, id).value, s.clock - Age(env.ttl, lag))
  {
    assert VouchedPending(s.tasks[id], gateway, slug, claim);
  }

  /** Along a run, the claim holds of the row whenever it can be read. */
  ghost predicate RowsSatisfy(env: Env, s: State, es: seq<Event>, slug: Slug, claim: Claim) {
    forall k :: 0 <= k <= |es| ==> RowSatisfies(Run(env, s, es[..k]), slug, claim)
  }

  ghost predicate RowSatisfies(s: State, slug: Slug, claim: Claim) {
    slug in s.tables.services ==> claim(RouteOf(s.tables.services[slug]), s.clock)
  }

  ghost predicate SwiftStores(env: Env, s: State, es: seq<Event>, lag: nat) {
    forall k :: 0 <= k < |es| ==> SwiftStore(Run(env, s, es[..k]), es[k], lag)
  }

  lemma RowsSatisfyPrefix(env: Env, s: State, es: seq<Event>, slug: Slug, claim: Claim, n: nat)
    requires RowsSatisfy(env, s, es, slug, claim) && n <= |es|
    ensures RowsSatisfy(env, s, es[..n], slug, claim)
    ensures RowSatisfies(Run(env, s, es[..n]), slug, claim)
  {
    forall k | 0 <= k <= n ensures RowSatisfies(Run(env, s, es[..n][..k]), slug, claim) {
      assert es[..n][..k] == es[..k];
    }
  }

  lemma {:induction false} VouchedRun(
    env: Env, s: State, es: seq<Event>, gateway: GatewayId, slug: Slug, lag: nat, claim: Claim)
    requires Vouched(s, gateway, slug, lag, claim) && Fades(claim)
    requires RowsSatisfy(env, s, es, slug, claim)
    requires SwiftStores(env, s, es, lag) || Timeless(claim)
    ensures Vouched(Run(env, s, es), gateway, slug, lag, claim)
  {
    if es != [] {
      var n := |es| - 1;
      RowsSatisfyPrefix(env, s, es, slug, claim, n);
      if SwiftStores(env, s, es, lag) {
        forall k | 0 <= k < n ensures SwiftStore(Run(env, s, es[..n][..k]), es[..n][k], lag) {
          assert es[..n][..k] == es[..k];
        }
      }
      VouchedRun(env, s, es[..n], gateway, slug, lag, claim);
      assert SwiftStores(env, s, es, lag) ==> SwiftStore(Run(env, s, es[..n]), es[n], lag);
      VouchedStep(env, Run(env, s, es[..n]), es[n], gateway, slug, lag, claim);
    }
  }

  // ---------------------------------------------------------------- bounded staleness

  /** Some state of the run, no earlier than `t`, had this route as the row of `slug`. */
  ghost predicate SeenSince(env: Env, s: State, es: seq<Event>, slug: Slug, route: Route, t: Time) {
    exists k :: 0 <= k <= |es| && RowWas(Run(env, s, es[..k]), slug, route, t)
  }

  ghost predicate RowWas(s: State, slug: Slug, route: Route, t: Time) {
    s.clock >= t && slug in s.tables.services && IsRow(route, s.tables.services[slug])
  }

  ghost function Seen(env: Env, s: State, es: seq<Event>, slug: Slug): Claim {
    (route: Route, t: Time) => SeenSince(env, s, es, slug, route, t)
  }

  /** In its next step request `id` is returned a route, in a run that stores each load within `lag`. */
  ghost predicate Resolves(
    env: Env, services: map<Slug, Service>, clock: Time, es: seq<Event>, id: nat, world: World, lag: nat)
  {
    var init := Init(services, clock);
    var s := Run(env, init, es);
    && id < |s.tasks| && Returned(env, s, id).Some?
    && SwiftStores(env, init, es, lag) && SwiftStore(s, Act(id, world), lag)
  }

  /** The route returned was the database row at some time no more than `age` ago. */
  ghost predicate RecentRow(env: Env, services: map<Slug, Service>, clock: Time, es: seq<Event>, id: nat, age: int) {
    var init := Init(services, clock);
    var s := Run(env, init, es);
    && id < |s.tasks| && Returned(env, s, id).Some?
    && SeenSince(env, init, es, s.tasks[id].slug, Returned(env, s, id).value, s.clock - age)
  }

  /**
   With each load stored within `lag`, any route that `resolve` returns at time t, enabled or not, was the
   database row at some time no earlier than t - (ttl + lag - 1), or t - lag without a TTL.
   */
  lemma BoundedStaleness(
    env: Env, services: map<Slug, Service>, clock: Time, es: seq<Event>, id: nat, world: World, lag: nat)
    requires Resolves(env, services, clock, es, id, world, lag)
    ensures RecentRow(env, services, clock, es, id, Age(env.ttl, lag))
  {
    var init := Init(services, clock);
    var s := Run(env, init, es);
    var gateway, slug := s.tasks[id].gateway, s.tasks[id].slug;
    var claim := Seen(env, init, es, slug);
    VouchedRun(env, init, es, gateway, slug, lag, claim);
    ReturnedIsVouched(env, s, id, world, gateway, slug, lag, claim);
  }

  /** A world in which reads succeed and the origin is safe. */
  const ANY_WORLD := World(true, true, Pending, Ready, TimedOut, Acked, Acked, Acked, Acked, Acked)

  /** One slow read, the owner's kill switch right after it, and a second request late in the TTL. */
  function KillSwitchEvents(slug: Slug, ttl: nat, lag: nat): seq<Event>
    requires ttl > 0
  {
    [Arrive(0, slug, Absent), Act(0, ANY_WORLD), Act(0, ANY_WORLD), Relist(slug, 0, false), Tick(lag),
     Act(0, ANY_WORLD), Tick(ttl - 1), Arrive(0, slug, Absent), Act(1, ANY_WORLD)]
  }

  /**
   The bound is met: a switched-off merchant can stay live for ttl + lag - 1, not just for the TTL,
   counted from a read at time zero that the switch followed at once.
   */
  lemma KillSwitchOutlivesTtl(env: Env, slug: Slug, lag: nat)
    requires env.ttl > 0
    ensures
      var init := Init(map[slug := Service(0, true, false, None, 0)], 0);
      var es := KillSwitchEvents(slug, env.ttl, lag);
      var end := Run(env, init, es);
      && SwiftStores(env, init, es, lag)
      && end.clock == env.ttl + lag - 1
      && |end.tasks| == 2 && end.tasks[1].pc == Gating(Route(0, true, false, None))
      && Run(env, init, es[..4]).clock == 0
      && (forall k :: 4 <= k <= |es| ==>
            slug in Run(env, init, es[..k]).tables.services
            && !Run(env, init, es[..k]).tables.services[slug].proxyEnabled)
  {
    var init := Init(map[slug := Service(0, true, false, None, 0)], 0);
    var es := KillSwitchEvents(slug, env.ttl, lag);
    SlowRead(env, slug, lag);
    LateHit(env, slug, lag);
    assert es[..9] == es;
    forall k | 0 <= k < |es| ensures SwiftStore(Run(env, init, es[..k]), es[k], lag) {
      assert k <= 2 || k == 3 || k == 4 || k == 5 || k == 6 || k == 7 || k == 8;
    }
    forall k | 4 <= k <= |es| ensures Run(env, init, es[..k]).tables == Listed(init.tables, slug, 0, false) {
      assert k == 4 || k == 5 || k == 6 || k == 7 || k == 8 || k == 9;
    }
  }

  function Visitor(slug: Slug, pc: Pc): Task {
    Task(0, slug, Absent, pc, None, NoClaim, false, false)
  }

  lemma SlowRead(env: Env, slug: Slug, lag: nat)
    requires env.ttl > 0
    ensures
      var init := Init(map[slug := Service(0, true, false, None, 0)], 0);
      var es := KillSwitchEvents(slug, env.ttl, lag);
      var off, route := Listed(init.tables, slug, 0, false), Route(0, true, false, None);
      && FirstRead(env, slug, lag, init, es)
      && Run(env, init, es[..4]) == State(off, map[], [Visitor(slug, Storing(Some(route), 0))], 0)
      && Run(env, init, es[..5]) == State(off, map[], [Visitor(slug, Storing(Some(route), 0))], lag)
      && Run(env, init, es[..6]) == State(off, map[0 := map[slug := Entry(route, lag)]], [Visitor(slug, Gating(route))], lag)
  {
    var init := Init(map[slug := Service(0, true, false, None, 0)], 0);
    var es := KillSwitchEvents(slug, env.ttl, lag);
    var off, route := Listed(init.tables, slug, 0, false), Route(0, true, false, None);
    ReadBeforeSwitch(env, slug, lag, init, es);
    SwitchedWhileWaiting(env, slug, lag, init, es, State(init.tables, map[], [Visitor(slug, Storing(Some(route), 0))], 0));
    SlowStore(env, slug, lag, init, es, off, route);
  }

  lemma SlowStore(env: Env, slug: Slug, lag: nat, init: State, es: seq<Event>, off: Tables, route: Route)
    requires |es| >= 6 && es[5] == Act(0, ANY_WORLD) && route.proxyEnabled
    requires Run(env, init, es[..5]) == State(off, map[], [Visitor(slug, Storing(Some(route), 0))], lag)
    ensures Run(env, init, es[..6])
         == State(off, map[0 := map[slug := Entry(route, lag)]], [Visitor(slug, Gating(route))], lag)
  {
    RunStep(env, init, es, 5);
  }

  lemma SwitchedWhileWaiting(env: Env, slug: Slug, lag: nat, init: State, es: seq<Event>, waiting: State)
    requires |es| >= 5 && es[3] == Relist(slug, 0, false) && es[4] == Tick(lag)
    requires Run(env, init, es[..3]) == waiting
    ensures Run(env, init, es[..4]) == waiting.(tables := Listed(waiting.tables, slug, 0, false))
    ensures Run(env, init, es[..5])
         == waiting.(tables := Listed(waiting.tables, slug, 0, false), clock := waiting.clock + lag)
  {
    RunStep(env, init, es, 3);
    RunStep(env, init, es, 4);
  }

  ghost predicate FirstRead(env: Env, slug: Slug, lag: nat, init: State, es: seq<Event>)
    requires |es| >= 3
  {
    var route := Route(0, true, false, None);
    && Run(env, init, es[..0]) == init
    && Run(env, init, es[..1]) == State(init.tables, map[], [Visitor(slug, LookingUp)], 0)
    && Run(env, init, es[..2]) == State(init.tables, map[], [Visitor(slug, Loading)], 0)
    && Run(env, init, es[..3]) == State(init.tables, map[], [Visitor(slug, Storing(Some(route), 0))], 0)
  }

  lemma ReadBeforeSwitch(env: Env, slug: Slug, lag: nat, init: State, es: seq<Event>)
    requires init == Init(map[slug := Service(0, true, false, None, 0)], 0)
    requires |es| >= 3 && es[0] == Arrive(0, slug, Absent) && es[1] == es[2] == Act(0, ANY_WORLD)
    ensures FirstRead(env, slug, lag, init, es)
  {
    RunStep(env, init, es, 0);
    assert Run(env, init, es[..1]) == State(init.tables, map[], [Visitor(slug, LookingUp)], 0);
    RunStep(env, init, es, 1);
    RunStep(env, init, es, 2);
  }

  lemma LateHit(env: Env, slug: Slug, lag: nat)
    requires env.ttl > 0
    ensures
      var init := Init(map[slug := Service(0, true, false, None, 0)], 0);
      var es := KillSwitchEvents(slug, env.ttl, lag);
      var off, route := Listed(init.tables, slug, 0, false), Route(0, true, false, None);
      var caches: map<GatewayId, Cache> := map[0 := map[slug := Entry(route, lag)]];
      var first, late := Visitor(slug, Gating(route)), env.ttl + lag - 1;
      && Run(env, init, es[..7]) == State(off, caches, [first], late)
      && Run(env, init, es[..8]) == State(off, caches, [first, Visitor(slug, LookingUp)], late)
      && Run(env, init, es[..9]) == State(off, caches, [first, Visitor(slug, Gating(route))], late)
  {
    var init := Init(map[slug := Service(0, true, false, None, 0)], 0);
    SlowRead(env, slug, lag);
    LateVisit(env, slug, lag, init, KillSwitchEvents(slug, env.ttl, lag),
              Listed(init.tables, slug, 0, false), Route(0, true, false, None));
  }

  /** Entered at `lag`, looked up at the last moment at which the entry is fresh. */
  function LateState(slug: Slug, route: Route, off: Tables, more: seq<Task>, clock: Time, lag: nat): State {
    State(off, map[0 := map[slug := Entry(route, lag)]], [Visitor(slug, Gating(route))] + more, clock)
  }

  lemma LateVisit(env: Env, slug: Slug, lag: nat, init: State, es: seq<Event>, off: Tables, route: Route)
    requires env.ttl > 0 && route.proxyEnabled
    requires |es| == 9 && es[6] == Tick(env.ttl - 1) && es[7] == Arrive(0, slug, Absent) && es[8] == Act(1, ANY_WORLD)
    requires Run(env, init, es[..6]) == LateState(slug, route, off, [], lag, lag)
    ensures
      var late := env.ttl + lag - 1;
      && Run(env, init, es[..7]) == LateState(slug, route, off, [], late, lag)
      && Run(env, init, es[..8]) == LateState(slug, route, off, [Visitor(slug, LookingUp)], late, lag)
      && Run(env, init, es[..9]) == LateState(slug, route, off, [Visitor(slug, Gating(route))], late, lag)
  {
    VisitorComes(env, slug, init, es, LateState(slug, route, off, [], lag, lag), env.ttl - 1);
    VisitorHits(env, slug, LateState(slug, route, off, [Visitor(slug, LookingUp)], env.ttl + lag - 1, lag), route);
    RunStep(env, init, es, 8);
  }

  lemma VisitorComes(env: Env, slug: Slug, init: State, es: seq<Event>, before: State, wait: nat)
    requires |es| >= 8 && es[6] == Tick(wait) && es[7] == Arrive(0, slug, Absent) && Run(env, init, es[..6]) == before
    ensures Run(env, init, es[..7]) == before.(clock := before.clock + wait)
    ensures Run(env, init, es[..8])
         == before.(clock := before.clock + wait, tasks := before.tasks + [Visitor(slug, LookingUp)])
  {
    RunStep(env, init, es, 6);
    RunStep(env, init, es, 7);
  }

  lemma VisitorHits(env: Env, slug: Slug, s: State, route: Route)
    requires |s.tasks| == 2 && s.tasks[1] == Visitor(slug, LookingUp) && route.proxyEnabled
    requires Hit(CacheOf(s, 0), slug, s.clock, env.ttl) == Some(route)
    ensures Step(env, s, Act(1, ANY_WORLD)) == s.(tasks := [s.tasks[0], Visitor(slug, Gating(route))])
  {
  }

  /** Every run that stores its loads within `lag` returns only routes that were rows at most `age` ago. */
  ghost predicate NeverOlder(env: Env, lag: nat, age: int) {
    forall services, clock, es, id, world ::
      Resolves(env, services, clock, es, id, world, lag) ==> RecentRow(env, services, clock, es, id, age)
  }

  /** The bound is exact: it is the least age that no run exceeds. */
  lemma StalenessExactly(env: Env, lag: nat, age: int)
    ensures NeverOlder(env, lag, age) <==> age >= Age(env.ttl, lag)
  {
    if age >= Age(env.ttl, lag) {
      forall services, clock, es, id, world | Resolves(env, services, clock, es, id, world, lag)
        ensures RecentRow(env, services, clock, es, id, age)
      {
        BoundedStaleness(env, services, clock, es, id, world, lag);
      }
    } else {
      var slug: Slug := "";
      if env.ttl > 0 {
        LateVisitIsOld(env, slug, lag, age);
      } else {
        SlowReadIsOld(env, slug, lag, age);
      }
    }
  }

  predicate SwitchedOff(s: State, slug: Slug) {
    slug in s.tables.services && !s.tables.services[slug].proxyEnabled
  }

  /** Before the fourth event the clock stands at zero; from then on the service is switched off. */
  ghost predicate SwitchedAtZero(env: Env, init: State, es: seq<Event>, slug: Slug) {
    forall k :: 0 <= k <= |es| ==>
      if k < 4 then Run(env, init, es[..k]).clock == 0 else SwitchedOff(Run(env, init, es[..k]), slug)
  }

  lemma OldRouteRefutes(
    env: Env, services: map<Slug, Service>, es: seq<Event>, id: nat, lag: nat, slug: Slug, route: Route, age: int)
    requires Resolves(env, services, 0, es, id, ANY_WORLD, lag)
    requires SwitchedAtZero(env, Init(services, 0), es, slug) && route.proxyEnabled
    requires
      var s := Run(env, Init(services, 0), es);
      s.tasks[id].slug == slug && Returned(env, s, id) == Some(route) && age < s.clock
    ensures !NeverOlder(env, lag, age)
  {
    assert !RecentRow(env, services, 0, es, id, age);
  }

  /** The start of the kill-switch run, up to the late store. */
  function SlowReadEvents(slug: Slug, lag: nat): seq<Event> {
    [Arrive(0, slug, Absent), Act(0, ANY_WORLD), Act(0, ANY_WORLD), Relist(slug, 0, false), Tick(lag)]
  }

  lemma SlowReadRuns(env: Env, slug: Slug, lag: nat, init: State, es: seq<Event>)
    requires init == Init(map[slug := Service(0, true, false, None, 0)], 0) && es == SlowReadEvents(slug, lag)
    ensures SwiftStores(env, init, es, lag) && SwitchedAtZero(env, init, es, slug)
    ensures Run(env, init, es)
         == State(Listed(init.tables, slug, 0, false), map[],
                  [Visitor(slug, Storing(Some(Route(0, true, false, None)), 0))], lag)
  {
    var waiting := State(init.tables, map[], [Visitor(slug, Storing(Some(Route(0, true, false, None)), 0))], 0);
    ReadBeforeSwitch(env, slug, lag, init, es);
    SwitchedWhileWaiting(env, slug, lag, init, es, waiting);
    assert es[..5] == es;
    forall k | 0 <= k < |es| ensures SwiftStore(Run(env, init, es[..k]), es[k], lag) {
      assert k <= 2 || k == 3 || k == 4;
    }
    forall k | 0 <= k <= |es|
      ensures if k < 4 then Run(env, init, es[..k]).clock == 0 else SwitchedOff(Run(env, init, es[..k]), slug)
    {
      assert k == 0 || k == 1 || k == 2 || k == 3 || k == 4 || k == 5;
    }
  }

  /** Without a TTL a read that is stored late is the oldest there is. */
  lemma SlowReadIsOld(env: Env, slug: Slug, lag: nat, age: int)
    requires age < lag
    ensures !NeverOlder(env, lag, age)
  {
    var services: map<Slug, Service> := map[slug := Service(0, true, false, None, 0)];
    var es := SlowReadEvents(slug, lag);
    SlowReadRuns(env, slug, lag, Init(services, 0), es);
    OldRouteRefutes(env, services, es, 0, lag, slug, Route(0, true, false, None), age);
  }

  /** With a TTL it is the late hit of a slow read: the kill-switch run, just before its last step. */
  lemma LateVisitRuns(env: Env, slug: Slug, lag: nat, init: State, es: seq<Event>)
    requires env.ttl > 0 && init == Init(map[slug := Service(0, true, false, None, 0)], 0)
    requires es == KillSwitchEvents(slug, env.ttl, lag)[..8]
    ensures SwiftStores(env, init, es, lag) && SwitchedAtZero(env, init, es, slug)
  {
    var whole := KillSwitchEvents(slug, env.ttl, lag);
    SlowRead(env, slug, lag);
    KillSwitchOutlivesTtl(env, slug, lag);
    assert forall k :: 0 <= k <= 8 ==> es[..k] == whole[..k];
    forall k | 0 <= k < |es| ensures SwiftStore(Run(env, init, es[..k]), es[k], lag) {
      assert SwiftStore(Run(env, init, whole[..k]), whole[k], lag);
    }
    forall k | 0 <= k <= |es|
      ensures if k < 4 then Run(env, init, es[..k]).clock == 0 else SwitchedOff(Run(env, init, es[..k]), slug)
    {
      assert k == 0 || k == 1 || k == 2 || k == 3 || k >= 4;
    }
  }

  lemma LateVisitIsOld(env: Env, slug: Slug, lag: nat, age: int)
    requires env.ttl > 0 && age < env.ttl + lag - 1
    ensures !NeverOlder(env, lag, age)
  {
    var services: map<Slug, Service> := map[slug := Service(0, true, false, None, 0)];
    var es := KillSwitchEvents(slug, env.ttl, lag)[..8];
    LateVisitRuns(env, slug, lag, Init(services, 0), es);
    LateHit(env, slug, lag);
    OldRouteRefutes(env, services, es, 1, lag, slug, Route(0, true, false, None), age);
  }

  // ---------------------------------------------------------------- after an invalidation

  /** Requests that had not read the route of their service when the run started in `s`. */
  predicate IsNew(s: State, id: nat) {
    id >= |s.tasks| || s.tasks[id].pc.LookingUp? || s.tasks[id].pc.Loading?
  }

  /**
   Once a slug is evicted and no older read of it waits to be stored, whatever `resolve` returns from then on,
   enabled or not, was the row at some point of the run since.
   */
  lemma FreshAfterInvalidation(
    env: Env, s: State, es: seq<Event>, gateway: GatewayId, slug: Slug, id: nat, world: World)
    requires slug !in CacheOf(s, gateway)
    requires forall t :: t in s.tasks && t.gateway == gateway && t.slug == slug ==> !t.pc.Storing?
    requires
      var end := Run(env, s, es);
      && id < |end.tasks| && end.tasks[id].gateway == gateway && end.tasks[id].slug == slug
      && Returned(env, end, id).Some?
    ensures
      exists k :: 0 <= k <= |es| && RowIs(Run(env, s, es[..k]), slug, Returned(env, Run(env, s, es), id).value)
  {
    var claim := (route: Route, t: Time) => exists k :: 0 <= k <= |es| && RowIs(Run(env, s, es[..k]), slug, route);
    forall k | 0 <= k <= |es| ensures RowSatisfies(Run(env, s, es[..k]), slug, claim) {
      var now := Run(env, s, es[..k]);
      if slug in now.tables.services {
        assert RowIs(now, slug, RouteOf(now.tables.services[slug]));
      }
    }
    VouchedRun(env, s, es, gateway, slug, 0, claim);
    ReturnedIsVouched(env, Run(env, s, es), id, world, gateway, slug, 0, claim);
  }

  ghost predicate RowIs(s: State, slug: Slug, route: Route) {
    slug in s.tables.services && IsRow(route, s.tables.services[slug])
  }

  // ---------------------------------------------------------------- failing fast

  /** A request holding this route is refused as long as the clock has not reached `until`. */
  predicate Blocks(route: Route, until: Time) {
    !route.proxyEnabled || (route.breakerOpen && (route.breakerUntil.None? || route.breakerUntil.value >= until))
  }

  /** Throughout the run the breaker of `slug` is open up to `until` or later, and `until` is not reached. */
  ghost predicate StaysOpen(env: Env, s: State, es: seq<Event>, slug: Slug, until: Time) {
    && Run(env, s, es).clock < until
    && forall k :: 0 <= k <= |es| ==> OpenUntil(Run(env, s, es[..k]), slug, until)
  }

  predicate OpenUntil(s: State, slug: Slug, until: Time) {
    && slug in s.tables.services
    && s.tables.services[slug].breakerOpen
    && s.tables.services[slug].breakerUntil.Some?
    && s.tables.services[slug].breakerUntil.value >= until
  }

  /** While the breaker stays open, no new request of this gateway for this slug gets past it. */
  ghost predicate FailsFast(env: Env, s: State, gateway: GatewayId, slug: Slug, until: Time) {
    forall es :: StaysOpen(env, s, es, slug, until) ==> NonePassed(s, Run(env, s, es), gateway, slug)
  }

  ghost predicate NonePassed(s: State, end: State, gateway: GatewayId, slug: Slug) {
    forall i :: 0 <= i < |end.tasks| ==>
      IsNew(s, i) && end.tasks[i].gateway == gateway && end.tasks[i].slug == slug ==> !PassedBreaker(end.tasks[i].pc)
  }

  /** New requests are resolving, at the gate with a blocking route, or turned away. */
  ghost predicate Held(s: State, t: Task, i: nat, gateway: GatewayId, slug: Slug, until: Time) {
    IsNew(s, i) && t.gateway == gateway && t.slug == slug ==>
      && !PassedBreaker(t.pc)
      && (t.pc.Gating? ==> t.pc.route.proxyEnabled && Blocks(t.pc.route, until))
  }

  ghost function BlocksUntil(until: Time): Claim {
    (route: Route, t: Time) => Blocks(route, until)
  }

  lemma ClockMonotone(env: Env, s: State, e: Event)
    ensures Step(env, s, e).clock >= s.clock
  {
    if e.Act? && e.task < |s.tasks| && !IsResolving(s.tasks[e.task].pc) {
      OtherStepsKeepRoutes(env, s, e.task, e.world);
    }
  }

  lemma StaysOpenPrefix(env: Env, s: State, es: seq<Event>, slug: Slug, until: Time)
    requires es != [] && StaysOpen(env, s, es, slug, until)
    ensures StaysOpen(env, s, es[..|es| - 1], slug, until)
  {
    var n := |es| - 1;
    ClockMonotone(env, Run(env, s, es[..n]), es[n]);
    forall k | 0 <= k <= n ensures OpenUntil(Run(env, s, es[..n][..k]), slug, until) {
      assert es[..n][..k] == es[..k];
    }
  }

  lemma HeldStep(
    env: Env, s: State, before: State, e: Event, gateway: GatewayId, slug: Slug, until: Time)
    requires |before.tasks| >= |s.tasks| && before.clock < until
    requires Vouched(before, gateway, slug, 0, BlocksUntil(until))
    requires forall i :: 0 <= i < |before.tasks| ==> Held(s, before.tasks[i], i, gateway, slug, until)
    ensures |Step(env, before, e).tasks| >= |before.tasks|
    ensures forall i :: 0 <= i < |Step(env, before, e).tasks| ==>
              Held(s, Step(env, before, e).tasks[i], i, gateway, slug, until)
  {
    if e.Act? && e.task < |before.tasks| {
      var t := before.tasks[e.task];
      assert Held(s, t, e.task, gateway, slug, until);
      if IsResolving(t.pc) {
        ResolvingStep(env, s, before, e.task, e.world, gateway, slug, until);
      } else {
        OtherStepsKeepRoutes(env, before, e.task, e.world);
        if IsNew(s, e.task) && t.gateway == gateway && t.slug == slug {
          if t.pc.Gating? {
            assert StillOpen(t.pc.route, before.clock);
          }
          assert Step(env, before, e).tasks[e.task].pc.Rejecting? || Step(env, before, e).tasks[e.task].pc.Finished?;
        }
      }
    }
  }

  lemma ResolvingStep(
    env: Env, s: State, before: State, id: nat, world: World, gateway: GatewayId, slug: Slug, until: Time)
    requires id < |before.tasks| && IsResolving(before.tasks[id].pc)
    requires Vouched(before, gateway, slug, 0, BlocksUntil(until))
    ensures
      var after := Advance(env, before, id, world);
      && |after.tasks| == |before.tasks| && after.tasks == before.tasks[id := after.tasks[id]]
      && after.tasks[id].gateway == before.tasks[id].gateway && after.tasks[id].slug == before.tasks[id].slug
      && Held(s, after.tasks[id], id, gateway, slug, until)
  {
    if before.tasks[id].gateway == gateway && before.tasks[id].slug == slug {
      ReturnedIsVouched(env, before, id, world, gateway, slug, 0, BlocksUntil(until));
      ReturnedDecides(env, before, id, world);
    }
  }

  lemma {:induction false} HeldRun(
    env: Env, s: State, es: seq<Event>, gateway: GatewayId, slug: Slug, until: Time)
    requires Vouched(s, gateway, slug, 0, BlocksUntil(until))
    requires StaysOpen(env, s, es, slug, until)
    ensures |Run(env, s, es).tasks| >= |s.tasks|
    ensures forall i :: 0 <= i < |Run(env, s, es).tasks| ==>
              Held(s, Run(env, s, es).tasks[i], i, gateway, slug, until)
  {
    if es != [] {
      var n := |es| - 1;
      StaysOpenPrefix(env, s, es, slug, until);
      HeldRun(env, s, es[..n], gateway, slug, until);
      forall k | 0 <= k <= n ensures RowSatisfies(Run(env, s, es[..n][..k]), slug, BlocksUntil(until)) {
        assert OpenUntil(Run(env, s, es[..n][..k]), slug, until);
      }
      VouchedRun(env, s, es[..n], gateway, slug, 0, BlocksUntil(until));
      HeldStep(env, s, Run(env, s, es[..n]), es[n], gateway, slug, until);
    }
  }

  /** A read of `slug`, still to be stored, that would let requests through before `until`. */
  predicate StaleRead(t: Task, gateway: GatewayId, slug: Slug, until: Time) {
    && t.gateway == gateway && t.slug == slug
    && t.pc.Storing? && t.pc.found.Some? && !Blocks(t.pc.found.value, until)
  }

  /** The run in which a stale read is stored and lets a new request through. */
  function SlipEvents(s: State, stale: nat, gateway: GatewayId, slug: Slug, wait: nat): seq<Event> {
    [Tick(wait), Act(stale, ANY_WORLD), Arrive(gateway, slug, Absent),
     Act(|s.tasks|, ANY_WORLD), Act(|s.tasks|, ANY_WORLD)]
  }

  lemma StaleReadSlips(env: Env, s: State, gateway: GatewayId, slug: Slug, until: Time, stale: nat)
    requires env.ttl > 0 && s.clock < until && OpenUntil(s, slug, until)
    requires stale < |s.tasks| && StaleRead(s.tasks[stale], gateway, slug, until)
    ensures !FailsFast(env, s, gateway, slug, until)
  {
    var route := s.tasks[stale].pc.found.value;
    var wait: nat :=
      if route.breakerOpen && route.breakerUntil.value > s.clock then route.breakerUntil.value - s.clock else 0;
    var es := SlipEvents(s, stale, gateway, slug, wait);
    SlipRuns(env, s, stale, gateway, slug, wait, route, es);
    SlipStaysOpen(env, s, es, slug, until, s.clock + wait);
  }

  lemma SlipStaysOpen(env: Env, s: State, es: seq<Event>, slug: Slug, until: Time, now: Time)
    requires |es| == 5 && now < until && OpenUntil(s, slug, until)
    requires forall k :: 1 <= k <= 5 ==> Run(env, s, es[..k]).tables == s.tables && Run(env, s, es[..k]).clock == now
    ensures StaysOpen(env, s, es, slug, until)
  {
    assert es[..5] == es;
  }

  /** The stale read is stored while a new request arrives. */
  function SlipArrived(s: State, stale: nat, gateway: GatewayId, slug: Slug, wait: nat, route: Route): State
    requires stale < |s.tasks|
  {
    var stored := StoreRoute(s.(clock := s.clock + wait), stale, Some(route));
    stored.(tasks := stored.tasks + [Task(gateway, slug, Absent, LookingUp, None, NoClaim, false, false)])
  }

  lemma SlipArrives(
    env: Env, s: State, es: seq<Event>, stale: nat, gateway: GatewayId, slug: Slug, wait: nat, route: Route)
    requires stale < |s.tasks| && s.tasks[stale].pc.Storing? && s.tasks[stale].pc.found == Some(route)
    requires |es| >= 3
    requires es[0] == Tick(wait) && es[1] == Act(stale, ANY_WORLD) && es[2] == Arrive(gateway, slug, Absent)
    ensures Run(env, s, es[..3]) == SlipArrived(s, stale, gateway, slug, wait, route)
    ensures forall k :: 1 <= k <= 3 ==>
              Run(env, s, es[..k]).tables == s.tables && Run(env, s, es[..k]).clock == s.clock + wait
  {
    SlipStates(env, s, es, stale, gateway, slug, wait, route);
    forall k | 1 <= k <= 3
      ensures Run(env, s, es[..k]).tables == s.tables && Run(env, s, es[..k]).clock == s.clock + wait
    {
      assert k == 1 || k == 2 || k == 3;
    }
  }

  lemma SlipStates(
    env: Env, s: State, es: seq<Event>, stale: nat, gateway: GatewayId, slug: Slug, wait: nat, route: Route)
    requires stale < |s.tasks| && s.tasks[stale].pc.Storing? && s.tasks[stale].pc.found == Some(route)
    requires |es| >= 3
    requires es[0] == Tick(wait) && es[1] == Act(stale, ANY_WORLD) && es[2] == Arrive(gateway, slug, Absent)
    ensures Run(env, s, es[..1]) == s.(clock := s.clock + wait)
    ensures Run(env, s, es[..2]) == StoreRoute(s.(clock := s.clock + wait), stale, Some(route))
    ensures Run(env, s, es[..3]) == SlipArrived(s, stale, gateway, slug, wait, route)
  {
    RunStep(env, s, es, 0);
    SlipArrival(env, s, es, StoreRoute(s.(clock := s.clock + wait), stale, Some(route)), gateway, slug);
  }

  lemma SlipArrival(env: Env, s: State, es: seq<Event>, s2: State, gateway: GatewayId, slug: Slug)
    requires |es| >= 3 && es[2] == Arrive(gateway, slug, Absent) && Run(env, s, es[..2]) == s2
    ensures Run(env, s, es[..3])
         == s2.(tasks := s2.tasks + [Task(gateway, slug, Absent, LookingUp, None, NoClaim, false, false)])
  {
    RunStep(env, s, es, 2);
  }

  lemma SlipRuns(
    env: Env, s: State, stale: nat, gateway: GatewayId, slug: Slug, wait: nat, route: Route, es: seq<Event>)
    requires env.ttl > 0 && stale < |s.tasks|
    requires s.tasks[stale].gateway == gateway && s.tasks[stale].slug == slug
    requires s.tasks[stale].pc.Storing? && s.tasks[stale].pc.found == Some(route)
    requires route.proxyEnabled && !StillOpen(route, s.clock + wait)
    requires es == SlipEvents(s, stale, gateway, slug, wait)
    ensures forall k :: 1 <= k <= 5 ==>
              Run(env, s, es[..k]).tables == s.tables && Run(env, s, es[..k]).clock == s.clock + wait
    ensures
      var end := Run(env, s, es);
      && |end.tasks| == |s.tasks| + 1 && end.tasks[|s.tasks|].pc == Paying(route)
      && end.tasks[|s.tasks|].gateway == gateway && end.tasks[|s.tasks|].slug == slug
  {
    var id := |s.tasks|;
    SlipArrives(env, s, es, stale, gateway, slug, wait, route);
    SlipEnds(env, s, SlipArrived(s, stale, gateway, slug, wait, route), es, id, route);
    forall k | 1 <= k <= 5
      ensures Run(env, s, es[..k]).tables == s.tables && Run(env, s, es[..k]).clock == s.clock + wait
    {
      assert k <= 3 || k == 4 || k == 5;
    }
  }

  lemma SlipEnds(env: Env, s: State, s3: State, es: seq<Event>, id: nat, route: Route)
    requires env.ttl > 0 && |s3.tasks| == id + 1 && s3.tasks[id].pc.LookingUp?
    requires route.proxyEnabled && !StillOpen(route, s3.clock)
    requires s3.tasks[id].slug in CacheOf(s3, s3.tasks[id].gateway)
    requires CacheOf(s3, s3.tasks[id].gateway)[s3.tasks[id].slug] == Entry(route, s3.clock)
    requires |es| == 5 && Run(env, s, es[..3]) == s3 && es[3] == es[4] == Act(id, ANY_WORLD)
    ensures Run(env, s, es[..4]) == Goto(s3, id, Gating(route))
    ensures Run(env, s, es[..5]) == Run(env, s, es) == Goto(Goto(s3, id, Gating(route)), id, Paying(route))
  {
    RunStep(env, s, es, 3);
    RunStep(env, s, es, 4);
    assert es[..5] == es;
  }

  lemma RunStep(env: Env, s: State, es: seq<Event>, k: nat)
    requires k < |es|
    ensures Run(env, s, es[..k + 1]) == Step(env, Run(env, s, es[..k]), es[k])
  {
    assert es[..k + 1][..k] == es[..k];
  }

  /**
   After an eviction with the breaker open, a gateway fails fast exactly when no read from before
   the breaker opened is still waiting to be stored.
   */
  lemma FailsFastExactly(env: Env, s: State, gateway: GatewayId, slug: Slug, until: Time)
    requires env.ttl > 0 && s.clock < until && OpenUntil(s, slug, until)
    requires slug !in CacheOf(s, gateway)
    ensures FailsFast(env, s, gateway, slug, until)
       <==> forall i :: 0 <= i < |s.tasks| ==> !StaleRead(s.tasks[i], gateway, slug, until)
  {
    if i :| 0 <= i < |s.tasks| && StaleRead(s.tasks[i], gateway, slug, until) {
      StaleReadSlips(env, s, gateway, slug, until, i);
    } else {
      forall i | 0 <= i < |s.tasks| ensures VouchedPending(s.tasks[i], gateway, slug, BlocksUntil(until)) {
        assert !StaleRead(s.tasks[i], gateway, slug, until);
      }
      forall es | StaysOpen(env, s, es, slug, until) ensures NonePassed(s, Run(env, s, es), gateway, slug) {
        HeldRun(env, s, es, gateway, slug, until);
        forall i | 0 <= i < |Run(env, s, es).tasks|
          ensures Held(s, Run(env, s, es).tasks[i], i, gateway, slug, until)
        {
        }
      }
    }
  }
}

/** A paid call that succeeds is charged; and what switching verification off costs. */
module PaidCall {
  import opened Common
  import opened Meter
  import opened Routes
  import opened Proxy
  import opened Billing
  import opened Books
  import opened Solvency
  import X402

  // Step counts are passed as variables: on a literal the verifier would unfold whole runs.

  /** Steps of a charged call after its route is resolved: three to reach the upstream, five to keep the books. */
  const STEPS: nat := 8

  /** The steps of resolving a route: one on a cache hit, three on a miss. */
  function ResolveSteps(env: Env, s: State, gateway: GatewayId, slug: Slug): nat {
    if Hit(CacheOf(s, gateway), slug, s.clock, env.ttl).Some? then 1 else 3
  }

  /** The database, the origin and the chain all cooperate, and the upstream answers 2xx. */
  predicate Favourable(world: World) {
    && world.readOk && world.originSafe && world.rpc.Settled? && world.prepared.Ready?
    && world.upstream.Responded? && 200 <= world.upstream.status < 300
    && world.consume.Acked? && world.log.Acked? && world.meter.Acked? && world.close.Acked?
  }

  /** A request for `slug` would use `route` now, passes its breaker, and brings a good unused payment for its price. */
  ghost predicate Chargeable(
    env: Env, s: State, gateway: GatewayId, slug: Slug, payment: X402.Payment, world: World, route: Route)
  {
    && Favourable(world)
    && RouteInUse(s.tables.services, CacheOf(s, gateway), slug, s.clock, env.ttl) == Some(route)
    && route.proxyEnabled
    && route.price > 0
    && !(route.breakerOpen && (route.breakerUntil == None || route.breakerUntil.value > s.clock))
    && (env.allowUnverified || PaidOnChain(env, payment, route.price, world.rpc, s.clock))
    && !IsConsumed(s.tables.consumed, payment.signature)
  }

  function Newcomer(gateway: GatewayId, slug: Slug, payment: X402.Payment): Task {
    Task(gateway, slug, Presented(payment), LookingUp, None, NoClaim, false, false)
  }

  /** The state once the request has its route: it waits at the gate, and at most the cache has changed. */
  ghost predicate AtGate(s: State, s': State, id: nat, route: Route)
    requires id < |s.tasks|
  {
    && s'.tables == s.tables && s'.clock == s.clock
    && s'.tasks == s.tasks[id := s.tasks[id].(pc := Gating(route))]
  }

  lemma ResolvesByHit(env: Env, s: State, id: nat, world: World, route: Route, n: nat)
    requires n == 1
    requires id < |s.tasks| && s.tasks[id].pc.LookingUp? && route.proxyEnabled
    requires Hit(CacheOf(s, s.tasks[id].gateway), s.tasks[id].slug, s.clock, env.ttl) == Some(route)
    ensures AtGate(s, Drive(env, s, id, world, n), id, route)
  {
    DriveStep(env, s, id, world, n - 1);
  }

  lemma ResolvesByLoad(env: Env, s: State, id: nat, world: World, route: Route, n: nat)
    requires n == 3
    requires id < |s.tasks| && s.tasks[id].pc.LookingUp? && Favourable(world) && route.proxyEnabled
    requires Hit(CacheOf(s, s.tasks[id].gateway), s.tasks[id].slug, s.clock, env.ttl).None?
    requires SelectRoute(s.tables.services, s.tasks[id].slug) == Some(route)
    ensures AtGate(s, Drive(env, s, id, world, n), id, route)
  {
    DriveStep(env, s, id, world, n - 3);
    DriveStep(env, s, id, world, n - 2);
    DriveStep(env, s, id, world, n - 1);
    assert Drive(env, s, id, world, n - 2) == Goto(s, id, Loading);
    assert Drive(env, s, id, world, n - 1) == Goto(s, id, Storing(Some(route), s.clock));
  }

  lemma Resolves(env: Env, s: State, id: nat, world: World, route: Route, n: nat)
    requires id < |s.tasks| && s.tasks[id].pc.LookingUp? && Favourable(world) && route.proxyEnabled
    requires n == ResolveSteps(env, s, s.tasks[id].gateway, s.tasks[id].slug)
    requires RouteInUse(s.tables.services, CacheOf(s, s.tasks[id].gateway), s.tasks[id].slug, s.clock, env.ttl) == Some(route)
    ensures AtGate(s, Drive(env, s, id, world, n), id, route)
  {
    InUseResolves(s.tables.services, CacheOf(s, s.tasks[id].gateway), s.tasks[id].slug, s.clock, env.ttl);
    if Hit(CacheOf(s, s.tasks[id].gateway), s.tasks[id].slug, s.clock, env.ttl).Some? {
      ResolvesByHit(env, s, id, world, route, n);
    } else {
      ResolvesByLoad(env, s, id, world, route, n);
    }
  }

  lemma ReachesUpstream(env: Env, s: State, id: nat, world: World, route: Route, bill: Bill, n: nat)
    requires n == 3
    requires id < |s.tasks| && s.tasks[id].pc == Gating(route) && Favourable(world)
    requires !StillOpen(route, s.clock)
    requires bill == Decide(env, s.tasks[id].header, route.price, world.rpc, s.clock) && bill.paid
    ensures Drive(env, s, id, world, n) == Goto(s, id, Sending(route, bill))
  {
    DriveStep(env, s, id, world, n - 3);
    DriveStep(env, s, id, world, n - 2);
    DriveStep(env, s, id, world, n - 1);
    assert Drive(env, s, id, world, n - 2) == Goto(s, id, Paying(route));
    assert Drive(env, s, id, world, n - 1) == Goto(s, id, Preparing(route, bill));
  }

  /** The log row of a charged call. */
  function PaidRow(slug: Slug, bill: Bill, status: int): LogRow
    requires bill.signature.Some?
  {
    PlainLog(slug, bill, status).(charged := bill.amount, payment := Paid, signature := bill.signature)
  }

  /** The tables after a charged call for `slug`. */
  function Charged(t: Tables, slug: Slug, signature: Signature, price: int, row: LogRow): Tables {
    Tables(CloseBreaker(t, slug).services, t.consumed + [ConsumedRow(signature, slug)],
           t.metered + [MeteredRow(slug, price)], t.logs + [row])
  }

  lemma Bookkeeps(env: Env, s: State, id: nat, world: World, route: Route, bill: Bill, n: nat)
    requires n == 5
    requires id < |s.tasks| && s.tasks[id].pc == Sending(route, bill) && Favourable(world)
    requires bill.paid && bill.signature.Some? && bill.amount > 0
    requires !IsConsumed(s.tables.consumed, bill.signature.value)
    ensures
      var s' := Drive(env, s, id, world, n);
      var slug := s.tasks[id].slug;
      && s'.tables == Charged(s.tables, slug, bill.signature.value, bill.amount, PaidRow(slug, bill, world.upstream.status))
      && s'.tasks == s.tasks[id := s.tasks[id].(
           pc := Finished, status := Some(world.upstream.status),
           claim := Won(bill.signature.value, bill.amount), logged := true, metered := true)]
  {
    var status, slug := world.upstream.status, s.tasks[id].slug;
    var row := PaidRow(slug, bill, status);
    DriveStep(env, s, id, world, n - 5);
    var s1 := Drive(env, s, id, world, n - 4);
    assert s1 == Answer(s, id, bill, world);
    assert s1.tasks[id].pc == Consuming(bill, status);
    DriveStep(env, s, id, world, n - 4);
    var s2 := Drive(env, s, id, world, n - 3);
    assert s2 == Consume(s1, id, bill, status, world);
    assert s2.tasks[id].pc == Logging(row, status);
    DriveStep(env, s, id, world, n - 3);
    var s3 := Drive(env, s, id, world, n - 2);
    assert s3 == LogCall(s2, id, row, status, world);
    DriveStep(env, s, id, world, n - 2);
    var s4 := Drive(env, s, id, world, n - 1);
    assert s4 == MeterCall(s3, id, status, world);
    DriveStep(env, s, id, world, n - 1);
  }

  function Script(
    env: Env, s: State, gateway: GatewayId, slug: Slug, payment: X402.Payment, world: World): seq<Event>
  {
    [Arrive(gateway, slug, Presented(payment))] + Acts(|s.tasks|, world, ResolveSteps(env, s, gateway, slug) + STEPS)
  }

  /** The whole of one favourable call, from arrival to the end of its bookkeeping. */
  lemma FavourableCall(
    env: Env, s: State, gateway: GatewayId, slug: Slug, payment: X402.Payment, world: World, route: Route)
    requires Chargeable(env, s, gateway, slug, payment, world, route)
    ensures
      var s' := Run(env, s, Script(env, s, gateway, slug, payment, world));
      var bill := Decide(env, Presented(payment), route.price, world.rpc, s.clock);
      && bill == Bill(true, Some(payment.signature), route.price, None)
      && s'.tables == Charged(s.tables, slug, payment.signature, route.price, PaidRow(slug, bill, world.upstream.status))
      && |s'.tasks| == |s.tasks| + 1
      && s'.tasks[|s.tasks|].claim == Won(payment.signature, route.price)
      && s'.tasks[|s.tasks|].status == Some(world.upstream.status)
  {
    var id := |s.tasks|;
    var s0 := s.(tasks := s.tasks + [Newcomer(gateway, slug, payment)]);
    RunScript(env, s, Arrive(gateway, slug, Presented(payment)), id, world, ResolveSteps(env, s, gateway, slug) + STEPS);
    ArrivalChangesNothing(env, s, s0, gateway, slug, payment, world, route);
    ChargedFromLookUp(env, s0, id, world, route, ResolveSteps(env, s, gateway, slug), STEPS);
  }

  lemma ArrivalChangesNothing(
    env: Env, s: State, s0: State, gateway: GatewayId, slug: Slug, payment: X402.Payment, world: World, route: Route)
    requires Chargeable(env, s, gateway, slug, payment, world, route)
    requires s0 == s.(tasks := s.tasks + [Newcomer(gateway, slug, payment)])
    ensures Step(env, s, Arrive(gateway, slug, Presented(payment))) == s0
    ensures Chargeable(env, s0, gateway, slug, payment, world, route)
    ensures ResolveSteps(env, s0, gateway, slug) == ResolveSteps(env, s, gateway, slug)
  {
  }

  lemma ChargedFromLookUp(env: Env, s: State, id: nat, world: World, route: Route, m: nat, n: nat)
    requires id < |s.tasks| && s.tasks[id].pc.LookingUp? && s.tasks[id].header.Presented? && n == STEPS
    requires m == ResolveSteps(env, s, s.tasks[id].gateway, s.tasks[id].slug)
    requires Chargeable(env, s, s.tasks[id].gateway, s.tasks[id].slug, s.tasks[id].header.payment, world, route)
    ensures
      var s', slug, signature := Drive(env, s, id, world, m + n), s.tasks[id].slug, s.tasks[id].header.payment.signature;
      var bill := Decide(env, s.tasks[id].header, route.price, world.rpc, s.clock);
      && bill == Bill(true, Some(signature), route.price, None)
      && s'.tables == Charged(s.tables, slug, signature, route.price, PaidRow(slug, bill, world.upstream.status))
      && |s'.tasks| == |s.tasks|
      && s'.tasks[id].claim == Won(signature, route.price) && s'.tasks[id].status == Some(world.upstream.status)
  {
    var bill := Decide(env, s.tasks[id].header, route.price, world.rpc, s.clock);
    DecidesExactly(env, s.tasks[id].header, route.price, world.rpc, s.clock);
    DriveSplit(env, s, id, world, m, n);
    Resolves(env, s, id, world, route, m);
    ChargedFromGate(env, Drive(env, s, id, world, m), id, world, route, bill, n);
  }

  lemma ChargedFromGate(env: Env, s: State, id: nat, world: World, route: Route, bill: Bill, n: nat)
    requires n == STEPS
    requires id < |s.tasks| && s.tasks[id].pc == Gating(route) && Favourable(world)
    requires !StillOpen(route, s.clock)
    requires bill == Decide(env, s.tasks[id].header, route.price, world.rpc, s.clock) && bill.paid
    requires bill.signature.Some? && bill.amount > 0 && !IsConsumed(s.tables.consumed, bill.signature.value)
    ensures
      var s', slug := Drive(env, s, id, world, n), s.tasks[id].slug;
      && s'.tables == Charged(s.tables, slug, bill.signature.value, bill.amount, PaidRow(slug, bill, world.upstream.status))
      && |s'.tasks| == |s.tasks|
      && s'.tasks[id].claim == Won(bill.signature.value, bill.amount)
      && s'.tasks[id].status == Some(world.upstream.status)
  {
    var m: nat :| m == 3;
    DriveSplit(env, s, id, world, m, n - m);
    ReachesUpstream(env, s, id, world, route, bill, m);
    Bookkeeps(env, Goto(s, id, Sending(route, bill)), id, world, route, bill, n - m);
  }

  /** What the service costs now, through this gateway: its cached price while that is fresh, else its row's. */
  ghost function PriceNow(env: Env, s: State, gateway: GatewayId, slug: Slug): int {
    if IsFresh(CacheOf(s, gateway), slug, s.clock, env.ttl) then CacheOf(s, gateway)[slug].route.price
    else if slug in s.tables.services then s.tables.services[slug].price
    else 0
  }

  /**
   From any state, whoever has paid on chain for what a service costs now, and calls it with everything in order,
   is served and charged: the signature is consumed, the price metered once, and the call logged as paid.
   */
  lemma PaidCallIsCharged(
    env: Env, s: State, gateway: GatewayId, slug: Slug, payment: X402.Payment, world: World, route: Route)
    requires Chargeable(env, s, gateway, slug, payment, world, route)
    ensures
      var s' := Run(env, s, Script(env, s, gateway, slug, payment, world));
      var price, status := PriceNow(env, s, gateway, slug), world.upstream.status;
      && s'.tables.consumed == s.tables.consumed + [ConsumedRow(payment.signature, slug)]
      && s'.tables.metered == s.tables.metered + [MeteredRow(slug, price)]
      && s'.tables.logs == s.tables.logs
           + [LogRow(slug, Some(status), status, price, Paid, Some(payment.signature), None)]
      && (slug in s'.tables.services ==> !s'.tables.services[slug].breakerOpen)
      && |s'.tasks| == |s.tasks| + 1
      && s'.tasks[|s.tasks|].status == Some(status)
      && s'.tasks[|s.tasks|].claim == Won(payment.signature, price)
  {
    FavourableCall(env, s, gateway, slug, payment, world, route);
  }

  /**
   A payment whose earlier calls all failed is still good, whether or not they left the route cached: a later
   successful call charges it, and in every continuation no other request is ever charged for it.
   */
  lemma LaterSuccessChargesOnce(
    env: Env, services: map<Slug, Service>, clock: Time, es: seq<Event>, later: seq<Event>,
    gateway: GatewayId, slug: Slug, payment: X402.Payment, world: World, route: Route, other: nat)
    requires Chargeable(env, Run(env, Init(services, clock), es), gateway, slug, payment, world, route)
    ensures
      var s := Run(env, Init(services, clock), es);
      var charged := Run(env, s, Script(env, s, gateway, slug, payment, world));
      var end := Run(env, charged, later);
      && |charged.tasks| == |s.tasks| + 1
      && charged.tasks[|s.tasks|].claim == Won(payment.signature, PriceNow(env, s, gateway, slug))
      && (other < |end.tasks| && other != |s.tasks| ==>
            !(end.tasks[other].claim.Won? && end.tasks[other].claim.signature == payment.signature))
  {
    var s := Run(env, Init(services, clock), es);
    var script := Script(env, s, gateway, slug, payment, world);
    PaidCallIsCharged(env, s, gateway, slug, payment, world, route);
    var charged := Run(env, s, script);
    var end := Run(env, charged, later);
    RunConcat(env, Init(services, clock), es, script);
    RunConcat(env, Init(services, clock), es + script, later);
    ClaimsStay(env, services, clock, es + script, later, |s.tasks|);
    if other < |end.tasks| && other != |s.tasks| && end.tasks[other].claim.Won? {
      if other < |s.tasks| {
        ChargedExactlyOnce(env, services, clock, es + script + later, other, |s.tasks|);
      } else {
        ChargedExactlyOnce(env, services, clock, es + script + later, |s.tasks|, other);
      }
    }
  }

  lemma ClaimStays(env: Env, s: State, e: Event, id: nat)
    requires AllOk(VouchedBy(env), s)
    requires id < |s.tasks| && s.tasks[id].claim.Won?
    ensures |Step(env, s, e).tasks| >= |s.tasks| && Step(env, s, e).tasks[id].claim == s.tasks[id].claim
  {
    if e.Act? && e.task < |s.tasks| {
      ActEffect(env, s, e.task, e.world);
    }
  }

  /** A won claim is never taken back. */
  lemma {:induction false} ClaimsStay(
    env: Env, services: map<Slug, Service>, clock: Time, es: seq<Event>, later: seq<Event>, id: nat)
    requires id < |Run(env, Init(services, clock), es).tasks|
    requires Run(env, Init(services, clock), es).tasks[id].claim.Won?
    ensures
      var s := Run(env, Init(services, clock), es);
      var end := Run(env, s, later);
      |end.tasks| >= |s.tasks| && end.tasks[id].claim == s.tasks[id].claim
  {
    if later != [] {
      var n := |later| - 1;
      var s := Run(env, Init(services, clock), es);
      var before := Run(env, s, later[..n]);
      ClaimsStay(env, services, clock, es, later[..n], id);
      RunConcat(env, Init(services, clock), es, later[..n]);
      RunIsBalanced(env, services, clock, es + later[..n]);
      ClaimStays(env, before, later[n], id);
    }
  }

  /** With unverified payments allowed, a run in which a shop is paid with a signature that never paid that much. */
  lemma UnverifiedRunMetersMore(env: Env) returns (services: map<Slug, Service>, es: seq<Event>)
    requires env.allowUnverified
    ensures
      var t := Run(env, Init(services, 0), es).tables;
      exists signature, price ::
        && price > OnChain(env, signature)
        && t.metered == [MeteredRow("shop", price)] && t.consumed == [ConsumedRow(signature, "shop")]
  {
    var payment := X402.Payment(X402.Exact, X402.Mainnet, "forged", "nobody");
    var price := OnChain(env, payment.signature) + 1;
    services := map["shop" := Service(price, true, false, None, 0)];
    var route := Route(price, true, false, None);
    var world := World(true, true, Settled, Ready, Responded(200), Acked, Acked, Acked, Acked, Acked);
    var s := Init(services, 0);
    es := Script(env, s, 0, "shop", payment, world);
    assert Run(env, s, []) == s;
    assert Chargeable(env, s, 0, "shop", payment, world, route);
    PaidCallIsCharged(env, s, 0, "shop", payment, world, route);
    assert [] + [MeteredRow("shop", price)] == [MeteredRow("shop", price)];
    assert [] + [ConsumedRow(payment.signature, "shop")] == [ConsumedRow(payment.signature, "shop")];
  }

  lemma MeteringMoreIsInsolvent(env: Env, s: State, signature: Signature, price: int)
    requires price > OnChain(env, signature)
    requires s.tables.metered == [MeteredRow("shop", price)] && s.tables.consumed == [ConsumedRow(signature, "shop")]
    ensures !Solvent(env, s, None)
  {
    SumAppend([], MeteredRow("shop", price), MeteredIn(None));
    SumAppend([], ConsumedRow(signature, "shop"), PaidIn(Chain(env), None));
    assert s.tables.metered == [] + [MeteredRow("shop", price)];
    assert s.tables.consumed == [] + [ConsumedRow(signature, "shop")];
  }

  /** Every run stays solvent exactly when unverified payments are refused. */
  lemma SolventExactlyWhenVerified(env: Env)
    ensures (forall services, clock, es, scope :: Solvent(env, Run(env, Init(services, clock), es), scope))
       <==> !env.allowUnverified
  {
    if !env.allowUnverified {
      forall services, clock, es, scope ensures Solvent(env, Run(env, Init(services, clock), es), scope) {
        AlwaysSolvent(env, services, clock, es, scope);
      }
    } else {
      var services, es := UnverifiedRunMetersMore(env);
      var s := Run(env, Init(services, 0), es);
      var signature, price :|
        && price > OnChain(env, signature)
        && s.tables.metered == [MeteredRow("shop", price)] && s.tables.consumed == [ConsumedRow(signature, "shop")];
      MeteringMoreIsInsolvent(env, s, signature, price);
    }
  }
}

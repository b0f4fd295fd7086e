/** Nobody is charged a price that the owner of the service never listed. */
module Prices {
  import opened Common
  import opened Meter
  import opened Routes
  import opened Proxy
  import opened Billing
  import opened Freshness
  import X402

  /** Which prices a service may be charged at. */
  type Allowed = (Slug, int) -> bool

  ghost predicate LogPriced(allowed: Allowed, row: LogRow) {
    row.charged != 0 ==> allowed(row.service, row.charged)
  }

  ghost predicate BillPriced(allowed: Allowed, slug: Slug, bill: Bill) {
    bill.paid ==> allowed(slug, bill.amount)
  }

  /** Every price that a request carries is allowed. */
  ghost predicate TaskPriced(allowed: Allowed, t: Task) {
    && (HeldRoute(t.pc).Some? ==> allowed(t.slug, HeldRoute(t.pc).value.price))
    && (t.claim.Won? ==> allowed(t.slug, t.claim.amount))
    && match t.pc
       case Storing(found, _) => found.Some? ==> allowed(t.slug, found.value.price)
       case Preparing(_, bill) => BillPriced(allowed, t.slug, bill)
       case Sending(_, bill) => BillPriced(allowed, t.slug, bill)
       case Consuming(bill, _) => bill.paid && BillPriced(allowed, t.slug, bill)
       case Logging(row, _) => LogPriced(allowed, row)
       case Rejecting(row) => row.charged == 0
       case _ => true
  }

  ghost predicate RowsPriced(allowed: Allowed, services: map<Slug, Service>) {
    forall slug :: slug in services ==> allowed(slug, services[slug].price)
  }

  ghost predicate CachesPriced(allowed: Allowed, s: State) {
    forall gateway, slug :: slug in CacheOf(s, gateway) ==> allowed(slug, CacheOf(s, gateway)[slug].route.price)
  }

  ghost predicate TasksPriced(allowed: Allowed, tasks: seq<Task>) {
    forall i :: 0 <= i < |tasks| ==> TaskPriced(allowed, tasks[i])
  }

  ghost predicate BooksPriced(allowed: Allowed, t: Tables) {
    && (forall row :: row in t.metered ==> allowed(row.service, row.amount))
    && (forall row :: row in t.logs ==> LogPriced(allowed, row))
  }

  ghost predicate Priced(allowed: Allowed, s: State) {
    RowsPriced(allowed, s.tables.services) && CachesPriced(allowed, s) && TasksPriced(allowed, s.tasks)
    && BooksPriced(allowed, s.tables)
  }

  // ---------------------------------------------------------------- one step of one request

  /** What the step of request `id` did to its task and to the tables is at allowed prices. */
  ghost predicate StepPriced(allowed: Allowed, s: State, s': State, id: nat)
    requires id < |s.tasks|
  {
    && |s'.tasks| == |s.tasks| && s'.tasks == s.tasks[id := s'.tasks[id]] && TaskPriced(allowed, s'.tasks[id])
    && RowsPriced(allowed, s'.tables.services) && BooksPriced(allowed, s'.tables)
  }

  /** What such a step starts from, unless it reads a cache. */
  ghost predicate RequestPriced(allowed: Allowed, s: State, id: nat)
    requires id < |s.tasks|
  {
    TaskPriced(allowed, s.tasks[id]) && RowsPriced(allowed, s.tables.services) && BooksPriced(allowed, s.tables)
  }

  lemma ResolvingPriced(env: Env, allowed: Allowed, s: State, id: nat, world: World)
    requires id < |s.tasks| && Priced(allowed, s) && IsResolving(s.tasks[id].pc)
    ensures StepPriced(allowed, s, Advance(env, s, id, world), id)
  {
  }

  lemma ResolvingCachesPriced(env: Env, allowed: Allowed, s: State, id: nat, world: World)
    requires id < |s.tasks| && Priced(allowed, s) && IsResolving(s.tasks[id].pc)
    ensures CachesPriced(allowed, Advance(env, s, id, world))
  {
    assert TaskPriced(allowed, s.tasks[id]);
    var s' := Advance(env, s, id, world);
    forall gateway, slug | slug in CacheOf(s', gateway)
      ensures allowed(slug, CacheOf(s', gateway)[slug].route.price)
    {
      assert slug in CacheOf(s, gateway) ==> allowed(slug, CacheOf(s, gateway)[slug].route.price);
    }
  }

  lemma AdmissionPriced(env: Env, allowed: Allowed, s: State, id: nat, world: World)
    requires id < |s.tasks| && RequestPriced(allowed, s, id)
    requires s.tasks[id].pc.Gating? || s.tasks[id].pc.Preparing?
    ensures StepPriced(allowed, s, Advance(env, s, id, world), id)
  {
    assert Advance(env, s, id, world).tables == s.tables;
  }

  lemma RefusalPriced(env: Env, allowed: Allowed, s: State, id: nat, world: World)
    requires id < |s.tasks| && RequestPriced(allowed, s, id) && s.tasks[id].pc.Rejecting?
    ensures StepPriced(allowed, s, Advance(env, s, id, world), id)
  {
  }

  lemma PayPriced(env: Env, allowed: Allowed, s: State, id: nat, world: World)
    requires id < |s.tasks| && RequestPriced(allowed, s, id) && s.tasks[id].pc.Paying?
    ensures StepPriced(allowed, s, Advance(env, s, id, world), id)
  {
    DecidesExactly(env, s.tasks[id].header, s.tasks[id].pc.route.price, world.rpc, s.clock);
    PaidStep(env, allowed, s, id, world, Decide(env, s.tasks[id].header, s.tasks[id].pc.route.price, world.rpc, s.clock));
  }

  lemma PaidStep(env: Env, allowed: Allowed, s: State, id: nat, world: World, bill: Bill)
    requires id < |s.tasks| && RequestPriced(allowed, s, id) && s.tasks[id].pc.Paying?
    requires bill == Decide(env, s.tasks[id].header, s.tasks[id].pc.route.price, world.rpc, s.clock)
    requires bill.paid ==> bill.amount == s.tasks[id].pc.route.price
    ensures StepPriced(allowed, s, Pay(env, s, id, s.tasks[id].pc.route, world), id)
  {
    assert Pay(env, s, id, s.tasks[id].pc.route, world).tables == s.tables;
  }

  /** A step that leaves the listed prices and the charges alone. */
  ghost predicate OnlyTaskPriced(allowed: Allowed, s: State, s': State, id: nat)
    requires id < |s.tasks|
  {
    && |s'.tasks| == |s.tasks| && s'.tasks == s.tasks[id := s'.tasks[id]] && TaskPriced(allowed, s'.tasks[id])
    && s'.tables.services == s.tables.services && s'.tables.metered == s.tables.metered && s'.tables.logs == s.tables.logs
  }

  lemma AnswerPriced(allowed: Allowed, s: State, id: nat, route: Route, bill: Bill, world: World)
    requires id < |s.tasks| && TaskPriced(allowed, s.tasks[id]) && s.tasks[id].pc == Sending(route, bill)
    ensures OnlyTaskPriced(allowed, s, Answer(s, id, bill, world), id)
  {
  }

  lemma ConsumePriced(allowed: Allowed, s: State, id: nat, bill: Bill, status: int, world: World)
    requires id < |s.tasks| && TaskPriced(allowed, s.tasks[id]) && s.tasks[id].pc == Consuming(bill, status)
    ensures OnlyTaskPriced(allowed, s, Consume(s, id, bill, status, world), id)
  {
  }

  lemma BookPriced(env: Env, allowed: Allowed, s: State, id: nat, world: World)
    requires id < |s.tasks| && RequestPriced(allowed, s, id)
    requires s.tasks[id].pc.Logging? || s.tasks[id].pc.Metering? || s.tasks[id].pc.Closing?
    ensures StepPriced(allowed, s, Advance(env, s, id, world), id)
  {
  }

  lemma FailurePriced(env: Env, allowed: Allowed, s: State, id: nat, world: World)
    requires id < |s.tasks| && RequestPriced(allowed, s, id)
    requires s.tasks[id].pc.Refunding? || s.tasks[id].pc.Counting? || s.tasks[id].pc.Invalidating? || s.tasks[id].pc.Finished?
    ensures StepPriced(allowed, s, Advance(env, s, id, world), id)
  {
  }

  lemma ActPriced(env: Env, allowed: Allowed, s: State, id: nat, world: World)
    requires id < |s.tasks| && Priced(allowed, s)
    ensures StepPriced(allowed, s, Advance(env, s, id, world), id)
  {
    var pc := s.tasks[id].pc;
    if IsResolving(pc) {
      ResolvingPriced(env, allowed, s, id, world);
    } else if pc.Gating? || pc.Preparing? {
      AdmissionPriced(env, allowed, s, id, world);
    } else if pc.Rejecting? {
      RefusalPriced(env, allowed, s, id, world);
    } else if pc.Paying? {
      PayPriced(env, allowed, s, id, world);
    } else if pc.Sending? {
      AnswerPriced(allowed, s, id, pc.route, pc.bill, world);
    } else if pc.Consuming? {
      ConsumePriced(allowed, s, id, pc.bill, pc.status, world);
    } else if pc.Logging? || pc.Metering? || pc.Closing? {
      BookPriced(env, allowed, s, id, world);
    } else {
      FailurePriced(env, allowed, s, id, world);
    }
  }

  lemma ActKeepsPriced(env: Env, allowed: Allowed, s: State, id: nat, world: World)
    requires id < |s.tasks| && Priced(allowed, s)
    ensures Priced(allowed, Advance(env, s, id, world))
  {
    var s' := Advance(env, s, id, world);
    ActPriced(env, allowed, s, id, world);
    forall i | 0 <= i < |s'.tasks| ensures TaskPriced(allowed, s'.tasks[i]) {
      assert i != id ==> TaskPriced(allowed, s.tasks[i]);
    }
    if IsResolving(s.tasks[id].pc) {
      ResolvingCachesPriced(env, allowed, s, id, world);
    } else {
      OtherStepsKeepRoutes(env, s, id, world);
    }
  }

  // ---------------------------------------------------------------- every run

  /** The owner's listing takes effect at once in the row, column by column, and nowhere else. */
  lemma ListingTakesEffect(env: Env, s: State, slug: Slug, price: int, enabled: bool)
    ensures
      var s' := Step(env, s, Relist(slug, price, enabled));
      && s'.tables.services.Keys == s.tables.services.Keys + {slug}
      && s'.tables.services[slug].price == price && s'.tables.services[slug].proxyEnabled == enabled
      && (if slug in s.tables.services then
            && s'.tables.services[slug].breakerOpen == s.tables.services[slug].breakerOpen
            && s'.tables.services[slug].breakerUntil == s.tables.services[slug].breakerUntil
            && s'.tables.services[slug].failures == s.tables.services[slug].failures
          else
            !s'.tables.services[slug].breakerOpen && s'.tables.services[slug].failures == 0)
      && (forall other :: other in s.tables.services && other != slug ==>
            s'.tables.services[other] == s.tables.services[other])
      && SameRows(s.tables, s'.tables) && s'.caches == s.caches && s'.tasks == s.tasks && s'.clock == s.clock
  {
  }

  /** A listing is at an allowed price. */
  ghost predicate ListsAllowed(allowed: Allowed, e: Event) {
    e.Relist? ==> allowed(e.slug, e.price)
  }

  lemma OutsideKeepsPriced(env: Env, allowed: Allowed, s: State, e: Event)
    requires Priced(allowed, s) && ListsAllowed(allowed, e) && (e.Act? ==> e.task >= |s.tasks|)
    ensures Priced(allowed, Step(env, s, e))
  {
    var s' := Step(env, s, e);
    assert s'.caches == s.caches && s'.tables.metered == s.tables.metered && s'.tables.logs == s.tables.logs;
    forall gateway, slug | slug in CacheOf(s', gateway)
      ensures allowed(slug, CacheOf(s', gateway)[slug].route.price)
    {
      assert CacheOf(s', gateway) == CacheOf(s, gateway);
    }
  }

  lemma StepKeepsPriced(env: Env, allowed: Allowed, s: State, e: Event)
    requires Priced(allowed, s) && ListsAllowed(allowed, e)
    ensures Priced(allowed, Step(env, s, e))
  {
    if e.Act? && e.task < |s.tasks| {
      ActKeepsPriced(env, allowed, s, e.task, e.world);
    } else {
      OutsideKeepsPriced(env, allowed, s, e);
    }
  }

  lemma {:induction false} RunKeepsPriced(env: Env, allowed: Allowed, s: State, es: seq<Event>)
    requires Priced(allowed, s) && forall e :: e in es ==> ListsAllowed(allowed, e)
    ensures Priced(allowed, Run(env, s, es))
  {
    if es != [] {
      RunKeepsPriced(env, allowed, s, es[..|es| - 1]);
      StepKeepsPriced(env, allowed, Run(env, s, es[..|es| - 1]), es[|es| - 1]);
    }
  }

  /** At the start or at some time of the run, the owner listed the service at this price. */
  ghost predicate WasListed(services: map<Slug, Service>, es: seq<Event>, slug: Slug, price: int) {
    || (slug in services && services[slug].price == price)
    || exists e :: e in es && e.Relist? && e.slug == slug && e.price == price
  }

  /** In every run, whatever is metered, logged as charged, or won was a price that the owner listed. */
  lemma ChargesWereListed(env: Env, services: map<Slug, Service>, clock: Time, es: seq<Event>)
    ensures
      var s := Run(env, Init(services, clock), es);
      && (forall row :: row in s.tables.metered ==> WasListed(services, es, row.service, row.amount))
      && (forall row :: row in s.tables.logs && row.charged != 0 ==> WasListed(services, es, row.service, row.charged))
      && (forall t :: t in s.tasks && t.claim.Won? ==> WasListed(services, es, t.slug, t.claim.amount))
  {
    ghost var allowed := (slug: Slug, price: int) => WasListed(services, es, slug, price);
    RunKeepsPriced(env, allowed, Init(services, clock), es);
    ghost var s := Run(env, Init(services, clock), es);
    PricedIsListed(allowed, s);
  }

  lemma PricedIsListed(allowed: Allowed, s: State)
    requires Priced(allowed, s)
    ensures forall row :: row in s.tables.metered ==> allowed(row.service, row.amount)
    ensures forall row :: row in s.tables.logs && row.charged != 0 ==> allowed(row.service, row.charged)
    ensures forall t :: t in s.tasks && t.claim.Won? ==> allowed(t.slug, t.claim.amount)
  {
    forall row | row in s.tables.logs && row.charged != 0 ensures allowed(row.service, row.charged) {
      assert LogPriced(allowed, row);
    }
    forall t | t in s.tasks && t.claim.Won? ensures allowed(t.slug, t.claim.amount) {
      assert TaskPriced(allowed, t);
    }
  }
}

/**
 One gateway process serving requests one at a time: the handlers of proxy.rs in
 place, over a `MeterStore` and a `RouteCache`. A ghost journal records the
 protocol events that the handlers take, and `Valid` says that the process is in
 the state those events lead to.
 */
module Gateway {
  import opened Common
  import opened Meter
  import opened Routes
  import opened Proxy
  import opened Billing
  import opened Books
  import opened Solvency
  import opened Outcomes
  import X402

  /** How the payment stage ends: with a bill, with a 402 to log, or with no way to ask for payment. */
  datatype Toll = Billed(bill: Bill) | Challenged(row: LogRow) | Unconfigured

  /**
   Always true. `Valid` speaks of a journal's run only where a statement asserts that it is asked for; everywhere
   else the verifier has no occasion to unfold the protocol, which is large.
   */
  ghost predicate Asked(journal: seq<Event>) { true }

  lemma StoreStep(env: Env, s: State, id: nat, world: World, found: Option<Route>)
    requires id < |s.tasks| && s.tasks[id].pc == Storing(found, s.clock)
    ensures Step(env, s, Act(id, world)) == StoreRoute(s, id, found)
  {
  }

  class Gateway {
    const env: Env
    const number: GatewayId
    const store: MeterStore
    const cache: RouteCache
    var clock: Time
    ghost var tasks: seq<Task>
    ghost const origin: State
    ghost var journal: seq<Event>

    constructor (env: Env, number: GatewayId, store: MeterStore, cache: RouteCache, clock: Time)
      requires cache.ttl == env.ttl && Distinct(store.consumed)
      ensures Valid() && this.env == env && this.number == number && this.store == store && this.cache == cache
      ensures tasks == [] && this.clock == clock && journal == [] && origin == Now()
    {
      this.env, this.number, this.store, this.cache, this.clock := env, number, store, cache, clock;
      tasks, journal := [], [];
      origin := State(store.Value(), map[number := cache.entries], [], clock);
    }

    /** The protocol state, as far as this process can tell. */
    ghost function Now(): State
      reads this, store, cache
    {
      State(store.Value(), map[number := cache.entries], tasks, clock)
    }

    /** Time passes between requests. */
    method Wait(elapsed: nat)
      requires Valid()
      modifies this`clock, this`journal
      ensures Valid() && clock == old(clock) + elapsed && journal == old(journal) + [Tick(elapsed)]
    {
      assert Asked(journal);
      clock := clock + elapsed;
      journal := journal + [Tick(elapsed)];
    }

    ghost predicate Valid()
      reads this, store, cache
    {
      && cache.ttl == env.ttl && Distinct(store.consumed)
      && forall j :: Asked(j) && j == journal ==> Now() == Run(env, origin, j)
    }

    /** Request `id` of this process, for `slug`, is at `pc`. */
    ghost predicate At(id: nat, slug: Slug, header: Header, pc: Pc)
      reads this
    {
      && id < |tasks| && tasks[id].pc == pc
      && tasks[id].gateway == number && tasks[id].slug == slug && tasks[id].header == header
    }

    /** Enter in the journal the step from `before` that the process has just taken. */
    ghost method Enter(before: State, id: nat, world: World)
      requires cache.ttl == env.ttl && Distinct(store.consumed)
      requires before == Run(env, origin, journal) && Now() == Step(env, before, Act(id, world))
      modifies this`journal
      ensures Valid() && journal == old(journal) + [Act(id, world)]
    {
      journal := journal + [Act(id, world)];
    }

    /** The look-up missed. */
    ghost method Miss(id: nat, slug: Slug, header: Header, world: World)
      requires Valid() && At(id, slug, header, LookingUp)
      requires Hit(cache.entries, slug, clock, env.ttl).None?
      modifies this`tasks, this`journal
      ensures Valid() && |tasks| == |old(tasks)| && journal == old(journal) + [Act(id, world)]
      ensures At(id, slug, header, Loading)
    {
      assert Asked(journal);
      var before := Now();
      tasks := tasks[id := tasks[id].(pc := Loading)];
      Enter(before, id, world);
    }

    /** The SELECT ran. */
    ghost method Load(id: nat, slug: Slug, header: Header, world: World)
      requires Valid() && At(id, slug, header, Loading)
      modifies this`tasks, this`journal
      ensures Valid() && |tasks| == |old(tasks)| && journal == old(journal) + [Act(id, world)]
      ensures At(id, slug, header, if world.readOk then Storing(SelectRoute(store.services, slug), clock) else Finished)
    {
      assert Asked(journal);
      var before := Now();
      tasks := Step(env, before, Act(id, world)).tasks;
      Enter(before, id, world);
    }

    /** Both, when the look-up missed. */
    ghost method MissAndLoad(id: nat, slug: Slug, header: Header, world: World) returns (n: nat)
      requires Valid() && At(id, slug, header, LookingUp)
      requires Hit(cache.entries, slug, clock, env.ttl).None?
      modifies this`tasks, this`journal
      ensures Valid() && |tasks| == |old(tasks)|
      ensures At(id, slug, header, if world.readOk then Storing(SelectRoute(store.services, slug), clock) else Finished)
      ensures journal == old(journal) + Acts(id, world, n)
    {
      Miss(id, slug, header, world);
      Load(id, slug, header, world);
      n := 2;
    }

    ghost predicate WasNow(before: State)
      reads this
    {
      forall j :: Asked(j) && j == journal ==> before == Run(env, origin, j)
    }

    /** The cache answered without reading the database. */
    ghost method FollowHit(before: State, id: nat, slug: Slug, header: Header, world: World, route: Route)
      requires cache.ttl == env.ttl && Distinct(store.consumed)
      requires WasNow(before) && before == Now() && At(id, slug, header, LookingUp)
      requires Hit(cache.entries, slug, clock, env.ttl) == Some(route)
      modifies this`tasks, this`journal
      ensures Valid() && |tasks| == |old(tasks)| && journal == old(journal) + [Act(id, world)]
      ensures At(id, slug, header, Resolved(route))
    {
      assert Asked(journal);
      tasks := Goto(before, id, Resolved(route)).tasks;
      Enter(before, id, world);
    }

    /** What was read has been stored in the cache. */
    ghost method FollowStore(before: State, id: nat, slug: Slug, header: Header, world: World, found: Option<Route>)
      requires cache.ttl == env.ttl && Distinct(store.consumed)
      requires WasNow(before) && At(id, slug, header, Storing(found, clock)) && before.tasks == tasks
      requires before.tables == store.Value() && before.clock == clock
      requires number in before.caches && before.caches.Keys == {number}
      requires cache.entries == Store(before.caches[number], slug, found, clock)
      modifies this`tasks, this`journal
      ensures Valid() && |tasks| == |old(tasks)| && journal == old(journal) + [Act(id, world)]
      ensures At(id, slug, header, if found.Some? then Resolved(found.value) else Finished)
    {
      assert Asked(journal);
      StoreStep(env, before, id, world, found);
      tasks := StoreRoute(before, id, found).tasks;
      Enter(before, id, world);
    }

    /** The protocol's steps before the cache is asked to store anything. */
    ghost method BeforeStore(id: nat, slug: Slug, header: Header, world: World) returns (n: nat)
      requires Valid() && At(id, slug, header, LookingUp)
      modifies this`tasks, this`journal
      ensures Valid() && |tasks| == |old(tasks)| && journal == old(journal) + Acts(id, world, n)
      ensures At(id, slug, header,
                 if Hit(cache.entries, slug, clock, env.ttl).Some? then LookingUp
                 else if world.readOk then Storing(SelectRoute(store.services, slug), clock)
                 else Finished)
    {
      n := 0;
      if Hit(cache.entries, slug, clock, env.ttl).None? {
        n := MissAndLoad(id, slug, header, world);
      }
    }

    /** The route as the cache resolves it, with the protocol's steps for a hit or for a miss and a read. */
    method ReadRoute(ghost id: nat, slug: Slug, ghost header: Header, world: World)
      returns (found: Result<Option<Route>, ()>, ghost n: nat)
      requires Valid() && At(id, slug, header, LookingUp)
      modifies this`tasks, this`journal, cache
      ensures Valid() && |tasks| == |old(tasks)| && journal == old(journal) + Acts(id, world, n)
      ensures At(id, slug, header,
                 if found.Success? && found.value.Some? then Resolved(found.value.value) else Finished)
      ensures found.Failure? <==> !IsFresh(old(cache.entries), slug, clock, env.ttl) && !world.readOk
      ensures found.Success? ==> found.value == RouteInUse(store.services, old(cache.entries), slug, clock, env.ttl)
      ensures cache.entries == ResolvedCache(env, store.Value(), old(cache.entries), slug, world, clock)
    {
      ghost var hit := Hit(cache.entries, slug, clock, env.ttl);
      InUseResolves(store.services, cache.entries, slug, clock, env.ttl);
      n := BeforeStore(id, slug, header, world);
      ghost var before := Now();
      found := cache.Resolve(store.services, world.readOk, slug, clock, clock);
      if hit.Some? {
        FollowHit(before, id, slug, header, world, hit.value);
        n := n + 1;
      } else if world.readOk {
        FollowStore(before, id, slug, header, world, SelectRoute(store.services, slug));
        n := n + 1;
      }
    }

    method Resolve(ghost id: nat, slug: Slug, ghost header: Header, world: World)
      returns (route: Result<Route, Response>, ghost n: nat)
      requires Valid() && At(id, slug, header, LookingUp)
      modifies this`tasks, this`journal, cache
      ensures Valid() && |tasks| == |old(tasks)| && journal == old(journal) + Acts(id, world, n)
      ensures At(id, slug, header, if route.Success? then Gating(route.value) else Finished)
      ensures
        var unrouted := Unrouted(env, store.Value(), old(cache.entries), slug, world, clock);
        if unrouted.Some? then route == Failure(unrouted.value)
        else route == Success(RouteInUse(store.services, old(cache.entries), slug, clock, env.ttl).value)
      ensures cache.entries == ResolvedCache(env, store.Value(), old(cache.entries), slug, world, clock)
    {
      var found;
      found, n := ReadRoute(id, slug, header, world);
      match found {
        case Success(Some(r)) =>
          route := if r.proxyEnabled then Success(r) else Failure(Response(404, false));
        case Success(None) =>
          route := Failure(Response(404, false));
        case Failure(_) =>
          route := Failure(Response(503, false));
      }
    }

    /** A log insert whose error, if any, is dropped. */
    method Log(row: LogRow, world: World)
      modifies store
      ensures store.Value() == Logged(old(store.Value()), row, world)
    {
      if !world.log.Dropped? {
        store.RecordCallLog(row);
      }
    }

    /** Refuse a request: write one log row that charges nothing. */
    method Reject(ghost id: nat, slug: Slug, ghost header: Header, row: LogRow, world: World)
      requires Valid() && At(id, slug, header, Rejecting(row))
      modifies this`tasks, this`journal, store
      ensures Valid() && |tasks| == |old(tasks)| && journal == old(journal) + [Act(id, world)]
      ensures At(id, slug, header, Finished)
      ensures store.Value() == Logged(old(store.Value()), row, world)
    {
      assert Asked(journal);
      ghost var before := Now();
      Log(row, world);
      tasks := tasks[id := tasks[id].(pc := Finished)];
      Enter(before, id, world);
    }

    /** The origin check and the breaker gate. */
    method Admit(ghost id: nat, slug: Slug, ghost header: Header, route: Route, world: World)
      returns (refused: Option<LogRow>)
      requires Valid() && At(id, slug, header, Gating(route))
      modifies this`tasks, this`journal
      ensures Valid() && |tasks| == |old(tasks)| && journal == old(journal) + [Act(id, world)]
      ensures At(id, slug, header, if refused.None? then Paying(route) else Rejecting(refused.value))
      ensures refused ==
              if !world.originSafe then Some(LogRow(slug, None, 400, 0, FailedCall, None, Some(UnsafeOrigin)))
              else if BreakerHolds(route, clock) then Some(LogRow(slug, None, 503, 0, Unbilled, None, Some(BreakerOpen)))
              else None
    {
      assert Asked(journal);
      ghost var before := Now();
      if !world.originSafe {
        refused := Some(Refusal(slug, 400, FailedCall, Some(UnsafeOrigin)));
      } else if route.breakerOpen && (route.breakerUntil.None? || route.breakerUntil.value > clock) {
        refused := Some(Refusal(slug, 503, Unbilled, Some(BreakerOpen)));
      } else {
        refused := None;
      }
      tasks := tasks[id := tasks[id].(pc := if refused.None? then Paying(route) else Rejecting(refused.value))];
      Enter(before, id, world);
    }

    method DecideBill(header: Header, price: int, world: World) returns (bill: Bill)
      ensures bill == Decide(env, header, price, world.rpc, clock)
      ensures bill == BillFor(env, header, price, world.rpc, clock)
    {
      DecidedFor(env, header, price, world.rpc, clock);
      match header {
        case Absent =>
          bill := Bill(false, None, 0, None);
        case Malformed =>
          bill := Bill(false, None, 0, Some(PayloadMalformed));
        case Presented(payment) =>
          if env.allowUnverified {
            bill := Bill(true, Some(payment.signature), price, None);
          } else {
            var reply := Fetch(env.chain, payment.signature, world.rpc);
            var verified := X402.VerifyOnchainPayment(env.settings, env.codec, payment, reply, clock, price);
            match verified {
              case Success(v) =>
                bill := Bill(true, Some(v.signature), price, None);
              case Failure(code) =>
                bill := Bill(false, None, 0, Some(Verification(code)));
            }
          }
      }
    }

    /** Who must pay and has not is challenged, if there is a way to; everyone else is let on with a bill. */
    ghost function TollFor(slug: Slug, header: Header, route: Route, world: World): Toll
      reads this
    {
      var bill := BillFor(env, header, route.price, world.rpc, clock);
      if !MustPay(env, header, route, world.rpc, clock) then Billed(bill)
      else if CanAsk(env.settings) then Challenged(LogRow(slug, None, 402, 0, PaymentRequired, None, bill.error))
      else Unconfigured
    }

    /** Reading the payment header, verifying it, and the 402 decision. */
    method TakePayment(ghost id: nat, slug: Slug, header: Header, route: Route, world: World) returns (toll: Toll)
      requires Valid() && At(id, slug, header, Paying(route))
      modifies this`tasks, this`journal
      ensures Valid() && |tasks| == |old(tasks)| && journal == old(journal) + [Act(id, world)]
      ensures toll == TollFor(slug, header, route, world)
      ensures At(id, slug, header,
                 match toll
                 case Billed(bill) => Preparing(route, bill)
                 case Challenged(row) => Rejecting(row)
                 case Unconfigured => Finished)
    {
      assert Asked(journal);
      ghost var before := Now();
      var bill := DecideBill(header, route.price, world);
      ChallengeFor(env.settings, route.price);
      if route.price > 0 && !bill.paid {
        var challenge := X402.BuildChallenge(env.settings, route.price);
        if challenge.Some? {
          toll := Challenged(Refusal(slug, 402, PaymentRequired, bill.error));
          tasks := tasks[id := tasks[id].(pc := Rejecting(toll.row))];
        } else {
          toll := Unconfigured;
          tasks := tasks[id := tasks[id].(pc := Finished)];
        }
      } else {
        toll := Billed(bill);
        tasks := tasks[id := tasks[id].(pc := Preparing(route, bill))];
      }
      Enter(before, id, world);
    }

    /** Decrypting and injecting the merchant's credential. */
    method Prepare(ghost id: nat, slug: Slug, ghost header: Header, ghost route: Route, ghost bill: Bill, world: World)
      returns (refused: Option<LogRow>)
      requires Valid() && At(id, slug, header, Preparing(route, bill))
      modifies this`tasks, this`journal
      ensures Valid() && |tasks| == |old(tasks)| && journal == old(journal) + [Act(id, world)]
      ensures At(id, slug, header, if refused.None? then Sending(route, bill) else Rejecting(refused.value))
      ensures refused == if world.prepared.Ready? then None
              else Some(LogRow(slug, None, 500, 0, FailedCall, None, Some(UnpreparedReason(world.prepared))))
    {
      assert Asked(journal);
      ghost var before := Now();
      match world.prepared {
        case Ready =>
          refused := None;
        case Undecrypted =>
          refused := Some(Refusal(slug, 500, FailedCall, Some(DecryptFailed)));
        case Uninjected =>
          refused := Some(Refusal(slug, 500, FailedCall, Some(InjectionFailed)));
      }
      tasks := tasks[id := tasks[id].(pc := if refused.None? then Sending(route, bill) else Rejecting(refused.value))];
      Enter(before, id, world);
    }

    /** The upstream answers or fails; the request turns to its bookkeeping or to the failure path. */
    method Receive(ghost id: nat, slug: Slug, ghost header: Header, ghost route: Route, bill: Bill, world: World)
      returns (failure: Option<Reason>)
      requires Valid() && At(id, slug, header, Sending(route, bill))
      modifies this`tasks, this`journal
      ensures Valid() && |tasks| == |old(tasks)| && journal == old(journal) + [Act(id, world)]
      ensures failure == UpstreamFault(world.upstream)
      ensures failure.Some? ==> At(id, slug, header, Refunding(failure.value))
      ensures failure.None? ==> At(id, slug, header, FirstEntry(slug, bill, world.upstream.status))
    {
      assert Asked(journal);
      ghost var before := Now();
      match world.upstream {
        case TimedOut => failure := Some(UpstreamTimeout);
        case ConnectFailed => failure := Some(UpstreamConnectFailed);
        case SendFailed => failure := Some(UpstreamError);
        case Responded(status) => failure := if IsServerError(status) then Some(Upstream5xx) else None;
      }
      tasks := Answer(before, id, bill, world).tasks;
      Enter(before, id, world);
    }

    /** Where the bookkeeping task starts: at the consume statement, or at the log row. */
    ghost function FirstEntry(slug: Slug, bill: Bill, status: int): Pc {
      if Billable(bill, status) && bill.signature.Some? then Consuming(bill, status)
      else if Billable(bill, status) then
        Logging(PlainLog(slug, bill, status).(error := OrElse(bill.error, MissingSignature)), status)
      else Logging(PlainLog(slug, bill, status), status)
    }

    /** The insert that claims the signature; the log row depends on how it went. */
    method Claim(ghost id: nat, slug: Slug, ghost header: Header, bill: Bill, status: int, world: World)
      returns (row: LogRow)
      requires Valid() && At(id, slug, header, Consuming(bill, status)) && bill.signature.Some?
      modifies this`tasks, this`journal, store
      ensures Valid() && |tasks| == |old(tasks)| && journal == old(journal) + [Act(id, world)]
      requires ToCharge(bill, status)
      ensures At(id, slug, header, Logging(row, status))
      ensures row == BookRow(old(store.Value()), slug, bill, status, world)
      ensures row.payment.Paid? ==> tasks[id].claim == Won(bill.signature.value, bill.amount)
      ensures store.Value() == old(store.Value()).(consumed := ConsumedAfter(old(store.Value()), slug, bill, status, world))
    {
      assert Asked(journal);
      ghost var before := Now();
      row := PlainLog(slug, bill, status);
      var won := false;
      if !world.consume.Dropped? {
        won := store.ConsumePaymentSignature(slug, bill.signature.value);
      }
      if !world.consume.Acked? {
        row := row.(error := OrElse(row.error, ConsumeFailed));
      } else if won {
        row := row.(charged := bill.amount, payment := Paid, signature := bill.signature);
      } else {
        row := row.(error := OrElse(row.error, ReplayedSignature));
      }
      tasks := Consume(before, id, bill, status, world).tasks;
      Enter(before, id, world);
    }

    method LogCallRow(ghost id: nat, slug: Slug, ghost header: Header, row: LogRow, status: int, world: World)
      requires Valid() && At(id, slug, header, Logging(row, status))
      modifies this`tasks, this`journal, store
      ensures Valid() && |tasks| == |old(tasks)| && journal == old(journal) + [Act(id, world)]
      ensures At(id, slug, header,
                 if IsSuccess(status) then (if row.charged > 0 then Metering(status) else Closing) else Finished)
      ensures tasks[id].claim == old(tasks[id].claim)
      ensures store.Value() == Logged(old(store.Value()), row, world)
    {
      assert Asked(journal);
      ghost var before := Now();
      Log(row, world);
      tasks := LogCall(before, id, row, status, world).tasks;
      Enter(before, id, world);
    }

    method Charge(ghost id: nat, slug: Slug, ghost header: Header, amount: int, status: int, world: World)
      requires Valid() && At(id, slug, header, Metering(status)) && IsSuccess(status)
      requires tasks[id].claim.Won? && tasks[id].claim.amount == amount
      modifies this`tasks, this`journal, store
      ensures Valid() && |tasks| == |old(tasks)| && journal == old(journal) + [Act(id, world)]
      ensures At(id, slug, header, Closing)
      ensures store.Value() == old(store.Value()).(
                metered := old(store.metered) + if world.meter.Dropped? then [] else [MeteredRow(slug, amount)])
    {
      assert Asked(journal);
      ghost var before := Now();
      if !world.meter.Dropped? {
        store.RecordMeteredUsage(MeteredRow(slug, amount));
      }
      tasks := MeterCall(before, id, status, world).tasks;
      Enter(before, id, world);
    }

    method Close(ghost id: nat, slug: Slug, ghost header: Header, world: World)
      requires Valid() && At(id, slug, header, Closing)
      modifies this`tasks, this`journal, store
      ensures Valid() && |tasks| == |old(tasks)| && journal == old(journal) + [Act(id, world)]
      ensures At(id, slug, header, Finished)
      ensures store.Value() == if world.close.Dropped? then old(store.Value()) else CloseBreaker(old(store.Value()), slug)
    {
      assert Asked(journal);
      ghost var before := Now();
      if !world.close.Dropped? {
        store.CloseCircuitBreaker(slug);
      }
      tasks := tasks[id := tasks[id].(pc := Finished)];
      Enter(before, id, world);
    }

    /** How the bookkeeping starts: a success that is to be charged claims its signature first. */
    method OpenBooks(ghost id: nat, slug: Slug, ghost header: Header, bill: Bill, status: int, world: World)
      returns (row: LogRow, ghost n: nat)
      requires Valid() && At(id, slug, header, FirstEntry(slug, bill, status))
      modifies this`tasks, this`journal, store
      ensures Valid() && |tasks| == |old(tasks)| && journal == old(journal) + Acts(id, world, n)
      ensures At(id, slug, header, Logging(row, status)) && row == BookRow(old(store.Value()), slug, bill, status, world)
      ensures row.charged > 0 ==> tasks[id].claim.Won? && tasks[id].claim.amount == row.charged
      ensures store.Value() == old(store.Value()).(consumed := ConsumedAfter(old(store.Value()), slug, bill, status, world))
    {
      n := 0;
      row := PlainLog(slug, bill, status);
      if IsSuccess(status) && bill.paid && bill.amount > 0 {
        if bill.signature.Some? {
          row := Claim(id, slug, header, bill, status, world);
          n := 1;
        } else {
          row := row.(error := OrElse(row.error, MissingSignature));
        }
      }
    }

    /** The background task spawned once the upstream has answered without a server error. */
    method Bookkeeping(ghost id: nat, slug: Slug, ghost header: Header, bill: Bill, status: int, world: World)
      returns (ghost n: nat)
      requires Valid() && At(id, slug, header, FirstEntry(slug, bill, status))
      modifies this`tasks, this`journal, store
      ensures Valid() && |tasks| == |old(tasks)| && journal == old(journal) + Acts(id, world, n)
      ensures At(id, slug, header, Finished)
      ensures store.Value() == Booked(old(store.Value()), slug, bill, status, world)
    {
      ghost var t := store.Value();
      var row;
      row, n := OpenBooks(id, slug, header, bill, status, world);
      LogCallRow(id, slug, header, row, status, world);
      ghost var m := AfterLog(id, slug, header, row.charged, status, world);
      n := n + 1 + m;
      BookedInSteps(t, slug, bill, status, world);
    }

    /** Claiming, logging, charging and closing in turn book the call. */
    lemma BookedInSteps(t: Tables, slug: Slug, bill: Bill, status: int, world: World)
      ensures
        var row := BookRow(t, slug, bill, status, world);
        var logged := Logged(t.(consumed := ConsumedAfter(t, slug, bill, status, world)), row, world);
        AfterLogTables(logged, slug, row.charged, status, world) == Booked(t, slug, bill, status, world)
    {
    }

    /** What the charge and the closing of the breaker leave. */
    ghost function AfterLogTables(t: Tables, slug: Slug, charged: int, status: int, world: World): Tables {
      var metered := if 200 <= status < 300 && charged > 0 && !world.meter.Dropped?
                     then t.metered + [MeteredRow(slug, charged)] else t.metered;
      Tables(if 200 <= status < 300 && !world.close.Dropped? then CloseBreaker(t, slug).services else t.services,
             t.consumed, metered, t.logs)
    }

    /** What follows the log row of a success: the charge, if there is one, and the closing of the breaker. */
    method AfterLog(ghost id: nat, slug: Slug, ghost header: Header, charged: int, status: int, world: World)
      returns (ghost n: nat)
      requires Valid() && id < |tasks|
      requires At(id, slug, header, if IsSuccess(status) then (if charged > 0 then Metering(status) else Closing) else Finished)
      requires IsSuccess(status) && charged > 0 ==> tasks[id].claim.Won? && tasks[id].claim.amount == charged
      modifies this`tasks, this`journal, store
      ensures Valid() && |tasks| == |old(tasks)| && journal == old(journal) + Acts(id, world, n)
      ensures At(id, slug, header, Finished)
      ensures store.Value() == AfterLogTables(old(store.Value()), slug, charged, status, world)
    {
      n := 0;
      if IsSuccess(status) && charged > 0 {
        Charge(id, slug, header, charged, status, world);
        n := n + 1;
      }
      if IsSuccess(status) {
        Close(id, slug, header, world);
        n := n + 1;
      }
    }

    method LogRefund(ghost id: nat, slug: Slug, ghost header: Header, reason: Reason, world: World)
      returns (reopenAt: Time)
      requires Valid() && At(id, slug, header, Refunding(reason))
      modifies this`tasks, this`journal, store
      ensures Valid() && |tasks| == |old(tasks)| && journal == old(journal) + [Act(id, world)]
      ensures At(id, slug, header, Counting(reopenAt)) && reopenAt == clock + env.openSecs
      ensures store.Value() == Logged(old(store.Value()), LogRow(slug, None, 504, 0, Refunded, None, Some(reason)), world)
    {
      assert Asked(journal);
      ghost var before := Now();
      Log(Refusal(slug, 504, Refunded, Some(reason)), world);
      reopenAt := clock + env.openSecs;
      tasks := tasks[id := tasks[id].(pc := Counting(reopenAt))];
      Enter(before, id, world);
    }

    method CountFailure(ghost id: nat, slug: Slug, ghost header: Header, reopenAt: Time, world: World)
      requires Valid() && At(id, slug, header, Counting(reopenAt))
      modifies this`tasks, this`journal, store
      ensures Valid() && |tasks| == |old(tasks)| && journal == old(journal) + [Act(id, world)]
      ensures At(id, slug, header, Invalidating)
      ensures store.Value() == if world.count.Dropped? then old(store.Value())
                               else RecordFailure(old(store.Value()), slug, reopenAt, env.threshold)
    {
      assert Asked(journal);
      ghost var before := Now();
      if !world.count.Dropped? {
        var isOpen := store.RecordFailureAndMaybeOpen(slug, reopenAt, env.threshold);
      }
      tasks := tasks[id := tasks[id].(pc := Invalidating)];
      Enter(before, id, world);
    }

    /** The slug has been evicted from the cache. */
    ghost method FollowEviction(before: State, id: nat, slug: Slug, header: Header, world: World)
      requires cache.ttl == env.ttl && Distinct(store.consumed)
      requires WasNow(before) && At(id, slug, header, Invalidating) && before.tasks == tasks
      requires before.tables == store.Value() && before.clock == clock
      requires number in before.caches && before.caches.Keys == {number}
      requires cache.entries == Evict(before.caches[number], slug)
      modifies this`tasks, this`journal
      ensures Valid() && |tasks| == |old(tasks)| && journal == old(journal) + [Act(id, world)]
      ensures At(id, slug, header, Finished)
    {
      assert Asked(journal);
      tasks := tasks[id := tasks[id].(pc := Finished)];
      Enter(before, id, world);
    }

    method Forget(ghost id: nat, slug: Slug, ghost header: Header, world: World)
      requires Valid() && At(id, slug, header, Invalidating)
      modifies this`tasks, this`journal, cache
      ensures Valid() && |tasks| == |old(tasks)| && journal == old(journal) + [Act(id, world)]
      ensures At(id, slug, header, Finished) && cache.entries == old(cache.entries) - {slug}
    {
      ghost var before := Now();
      cache.Invalidate(slug);
      FollowEviction(before, id, slug, header, world);
    }

    /** A failed upstream call: log the refund, count the failure, forget the cached route. */
    method UpstreamFailure(ghost id: nat, slug: Slug, ghost header: Header, reason: Reason, world: World)
      returns (response: Response, ghost n: nat)
      requires Valid() && At(id, slug, header, Refunding(reason))
      modifies this`tasks, this`journal, store, cache
      ensures Valid() && |tasks| == |old(tasks)| && journal == old(journal) + Acts(id, world, n)
      ensures At(id, slug, header, Finished) && cache.entries == old(cache.entries) - {slug}
      ensures response == Response(504, true)
      ensures store.Value() == Failed(env, old(store.Value()), slug, reason, world, clock)
    {
      var reopenAt := LogRefund(id, slug, header, reason, world);
      CountFailure(id, slug, header, reopenAt, world);
      Forget(id, slug, header, world);
      response, n := Response(504, true), 3;
    }

    /** The call to the upstream, and what follows its answer. */
    method Send(ghost id: nat, slug: Slug, ghost header: Header, ghost route: Route, bill: Bill, world: World)
      returns (response: Response, ghost n: nat)
      requires Valid() && At(id, slug, header, Sending(route, bill))
      modifies this`tasks, this`journal, store, cache
      ensures Valid() && |tasks| == |old(tasks)| && journal == old(journal) + Acts(id, world, n)
      ensures At(id, slug, header, Finished)
      ensures response == SentResponse(world) && store.Value() == Sent(env, old(store.Value()), slug, bill, world, clock)
      ensures cache.entries == Without(old(cache.entries), slug, UpstreamFault(world.upstream).Some?)
    {
      var failure := Receive(id, slug, header, route, bill, world);
      if failure.Some? {
        response, n := UpstreamFailure(id, slug, header, failure.value, world);
      } else {
        n := Bookkeeping(id, slug, header, bill, world.upstream.status, world);
        response := Response(world.upstream.status, false);
      }
      n := n + 1;
    }

    /** From the prepared request to the caller's answer. */
    method Forward(ghost id: nat, slug: Slug, ghost header: Header, ghost route: Route, bill: Bill, world: World)
      returns (response: Response, ghost n: nat)
      requires Valid() && At(id, slug, header, Preparing(route, bill))
      modifies this`tasks, this`journal, store, cache
      ensures Valid() && |tasks| == |old(tasks)| && journal == old(journal) + Acts(id, world, n)
      ensures At(id, slug, header, Finished)
      ensures response == ForwardResponse(world)
      ensures store.Value() == ForwardTables(env, old(store.Value()), slug, bill, world, clock)
      ensures cache.entries == Without(old(cache.entries), slug, SendFails(world))
    {
      var refused := Prepare(id, slug, header, route, bill, world);
      if refused.Some? {
        Reject(id, slug, header, refused.value, world);
        return Response(500, false), 2;
      }
      response, n := Send(id, slug, header, route, bill, world);
      n := n + 1;
    }

    /** Payment, and forwarding of what is paid for or free. */
    method PayAndForward(ghost id: nat, slug: Slug, header: Header, route: Route, world: World)
      returns (response: Response, ghost n: nat)
      requires Valid() && At(id, slug, header, Paying(route))
      modifies this`tasks, this`journal, store, cache
      ensures Valid() && |tasks| == |old(tasks)| && journal == old(journal) + Acts(id, world, n)
      ensures At(id, slug, header, Finished)
      ensures response == PayResponse(env, header, route, world, clock)
      ensures store.Value() == PayTables(env, old(store.Value()), slug, header, route, world, clock)
      ensures cache.entries
           == Without(old(cache.entries), slug, !MustPay(env, header, route, world.rpc, clock) && SendFails(world))
    {
      var toll := TakePayment(id, slug, header, route, world);
      match toll {
        case Unconfigured =>
          return Response(503, false), 1;
        case Challenged(row) =>
          Reject(id, slug, header, row, world);
          return Response(402, false), 2;
        case Billed(bill) =>
          response, n := Forward(id, slug, header, route, bill, world);
          n := n + 1;
      }
    }

    /** Admission, payment and forwarding of a request whose route is resolved. */
    method Serve(ghost id: nat, slug: Slug, header: Header, route: Route, world: World)
      returns (response: Response, ghost n: nat)
      requires Valid() && At(id, slug, header, Gating(route))
      modifies this`tasks, this`journal, store, cache
      ensures Valid() && |tasks| == |old(tasks)| && journal == old(journal) + Acts(id, world, n)
      ensures At(id, slug, header, Finished)
      ensures response == ServeResponse(env, header, route, world, clock)
      ensures store.Value() == ServeTables(env, old(store.Value()), slug, header, route, world, clock)
      ensures cache.entries == Without(old(cache.entries), slug, ServeFails(env, header, route, world, clock))
    {
      var refused := Admit(id, slug, header, route, world);
      if refused.Some? {
        Reject(id, slug, header, refused.value, world);
        return Response(refused.value.gatewayStatus, false), 2;
      }
      response, n := PayAndForward(id, slug, header, route, world);
      n := n + 1;
    }

    /** The arrival of a request at this process. */
    ghost method Accept(slug: Slug, header: Header)
      requires Valid()
      modifies this`tasks, this`journal
      ensures Valid() && |tasks| == |old(tasks)| + 1
      ensures journal == old(journal) + [Arrive(number, slug, header)]
      ensures At(|old(tasks)|, slug, header, LookingUp)
    {
      assert Asked(journal);
      tasks := tasks + [Task(number, slug, header, LookingUp, None, NoClaim, false, false)];
      journal := journal + [Arrive(number, slug, header)];
    }

    /**
     One whole request. The process takes the protocol steps of this request alone, with the world's
     answers, until the request has finished; the caller gets the response, and the tables the rows, that the
     request is promised. Unless the caller gets a success, nothing is consumed or metered.
     */
    method ProxyInner(slug: Slug, header: Header, world: World) returns (response: Response, ghost n: nat)
      requires Valid()
      modifies this`tasks, this`journal, store, cache
      ensures Valid() && |tasks| == |old(tasks)| + 1 && At(|old(tasks)|, slug, header, Finished)
      ensures journal == old(journal) + [Arrive(number, slug, header)] + Acts(|old(tasks)|, world, n)
      ensures response == CallResponse(env, old(store.Value()), old(cache.entries), slug, header, world, clock)
      ensures store.Value() == CallTables(env, old(store.Value()), old(cache.entries), slug, header, world, clock)
      ensures cache.entries == CallCache(env, old(store.Value()), old(cache.entries), slug, header, world, clock)
      ensures response.refund || !IsSuccess(response.status) ==>
                store.consumed == old(store.consumed) && store.metered == old(store.metered)
    {
      ghost var id := |tasks|;
      Accept(slug, header);
      var resolved, k := Resolve(id, slug, header, world);
      if resolved.Failure? {
        return resolved.error, k;
      }
      ghost var m: nat;
      response, m := Serve(id, slug, header, resolved.value, world);
      n := k + m;
    }

    /**
     A process that started on empty tables is solvent whenever it is idle: whatever requests it has served, and
     whatever the database and the network did to it, its metered usage stays within what escrow received.
     */
    lemma StaysSolvent(scope: Option<Slug>)
      requires Valid() && !env.allowUnverified
      requires origin.tasks == [] && SameRows(origin.tables, Tables(origin.tables.services, [], [], []))
      ensures Sum(store.metered, MeteredIn(scope)) <= Sum(store.consumed, PaidIn(Chain(env), scope))
    {
      StartIsBalanced(VouchedBy(env), origin);
      RunKeepsBalanced(env, origin, journal);
      BalancedIsSolvent(env, Now(), scope);
    }
  }
}

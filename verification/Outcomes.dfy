/**
 What the caller and the books are promised of one whole call, column by column: the response, the one log row, and
 what is consumed, charged and done to the breaker.
 */
module Outcomes {
  import opened Common
  import opened Meter
  import opened Routes
  import opened Proxy
  import opened Billing
  import X402

  /** What the caller gets back; `refund` is the x-payment-refund header. */
  datatype Response = Response(status: int, refund: bool)

  // ---------------------------------------------------------------- which case it is

  ghost predicate BreakerHolds(route: Route, now: Time) {
    route.breakerOpen && (route.breakerUntil == None || route.breakerUntil.value > now)
  }

  ghost predicate MustPay(env: Env, header: Header, route: Route, rpc: Rpc, now: Time) {
    route.price > 0 && !Pays(env, header, route.price, rpc, now)
  }

  /** There is a wallet to be paid into and a mint to be paid in. */
  ghost predicate CanAsk(settings: X402.Settings) {
    settings.escrow.Some? && exists m :: m in settings.mints && !m.paused
  }

  /** Why the upstream's answer is no use, if it is not. */
  ghost function UpstreamFault(upstream: Upstream): Option<Reason> {
    match upstream
    case TimedOut => Some(UpstreamTimeout)
    case ConnectFailed => Some(UpstreamConnectFailed)
    case SendFailed => Some(UpstreamError)
    case Responded(status) => if 500 <= status < 600 then Some(Upstream5xx) else None
  }

  /** What the payment shown comes to: the price under its signature, or nothing and why. */
  ghost function BillFor(env: Env, header: Header, price: int, rpc: Rpc, now: Time): Bill {
    if Pays(env, header, price, rpc, now) then Bill(true, Some(header.payment.signature), price, None)
    else Bill(false, None, 0, UnpaidBecause(env, header, price, rpc, now))
  }

  lemma DecidedFor(env: Env, header: Header, price: int, rpc: Rpc, now: Time)
    ensures Decide(env, header, price, rpc, now) == BillFor(env, header, price, rpc, now)
  {
    DecidesExactly(env, header, price, rpc, now);
  }

  lemma ChallengeFor(settings: X402.Settings, price: int)
    ensures X402.BuildChallenge(settings, price).Some? <==> CanAsk(settings)
  {
    var live := X402.Filter(settings.mints, X402.NotPaused());
    X402.ChallengeOrder(settings, price);
    forall m ensures m in live <==> m in settings.mints && !m.paused {
      X402.FilterMembers(settings.mints, X402.NotPaused(), m);
    }
    if live != [] {
      assert live[0] in live;
    }
  }

  // ---------------------------------------------------------------- the response

  ghost function SentResponse(world: World): Response {
    if UpstreamFault(world.upstream).Some? then Response(504, true) else Response(world.upstream.status, false)
  }

  ghost function ForwardResponse(world: World): Response {
    if world.prepared.Ready? then SentResponse(world) else Response(500, false)
  }

  ghost function PayResponse(env: Env, header: Header, route: Route, world: World, now: Time): Response {
    if !MustPay(env, header, route, world.rpc, now) then ForwardResponse(world)
    else if CanAsk(env.settings) then Response(402, false)
    else Response(503, false)
  }

  /** The response to a request whose route is resolved. */
  ghost function ServeResponse(env: Env, header: Header, route: Route, world: World, now: Time): Response {
    if !world.originSafe then Response(400, false)
    else if BreakerHolds(route, now) then Response(503, false)
    else PayResponse(env, header, route, world, now)
  }

  // ---------------------------------------------------------------- the tables

  ghost function Logged(t: Tables, row: LogRow, world: World): Tables {
    if world.log.Dropped? then t else t.(logs := t.logs + [row])
  }

  /** The upstream failed: a refund is logged, and a failure counted that holds the breaker from now. */
  ghost function Failed(env: Env, t: Tables, slug: Slug, reason: Reason, world: World, now: Time): Tables {
    var logged := Logged(t, LogRow(slug, None, 504, 0, Refunded, None, Some(reason)), world);
    if world.count.Dropped? then logged else RecordFailure(logged, slug, now + env.openSecs, env.threshold)
  }

  /** A success that is to be charged. */
  ghost predicate ToCharge(bill: Bill, status: int) {
    200 <= status < 300 && bill.paid && bill.amount > 0
  }

  ghost predicate Unseen(t: Tables, bill: Bill) {
    bill.signature.Some? && forall row :: row in t.consumed ==> row.signature != bill.signature.value
  }

  ghost predicate WinsClaim(t: Tables, bill: Bill, status: int, world: World) {
    ToCharge(bill, status) && Unseen(t, bill) && world.consume.Acked?
  }

  /** The error that a log row shows for a success that was not charged though it should have been. */
  ghost function Uncharged(t: Tables, bill: Bill, world: World): Reason {
    if bill.signature == None then MissingSignature
    else if !world.consume.Acked? then ConsumeFailed
    else ReplayedSignature
  }

  ghost function BookRow(t: Tables, slug: Slug, bill: Bill, status: int, world: World): LogRow {
    if !(200 <= status < 300) then LogRow(slug, Some(status), status, 0, ClientError, None, bill.error)
    else if WinsClaim(t, bill, status, world) then
      LogRow(slug, Some(status), status, bill.amount, Paid, bill.signature, bill.error)
    else if ToCharge(bill, status) && bill.error == None then
      LogRow(slug, Some(status), status, 0, Unbilled, None, Some(Uncharged(t, bill, world)))
    else LogRow(slug, Some(status), status, 0, Unbilled, None, bill.error)
  }

  ghost function ConsumedAfter(t: Tables, slug: Slug, bill: Bill, status: int, world: World): seq<ConsumedRow> {
    if ToCharge(bill, status) && Unseen(t, bill) && !world.consume.Dropped?
    then t.consumed + [ConsumedRow(bill.signature.value, slug)] else t.consumed
  }

  ghost function MeteredAfter(t: Tables, slug: Slug, bill: Bill, status: int, world: World): seq<MeteredRow> {
    if WinsClaim(t, bill, status, world) && !world.meter.Dropped?
    then t.metered + [MeteredRow(slug, bill.amount)] else t.metered
  }

  /** The upstream answered: the call is booked. */
  ghost function Booked(t: Tables, slug: Slug, bill: Bill, status: int, world: World): Tables {
    Tables(
      if 200 <= status < 300 && !world.close.Dropped? then CloseBreaker(t, slug).services else t.services,
      ConsumedAfter(t, slug, bill, status, world),
      MeteredAfter(t, slug, bill, status, world),
      Logged(t, BookRow(t, slug, bill, status, world), world).logs)
  }

  ghost function Sent(env: Env, t: Tables, slug: Slug, bill: Bill, world: World, now: Time): Tables {
    if UpstreamFault(world.upstream).Some? then Failed(env, t, slug, UpstreamFault(world.upstream).value, world, now)
    else Booked(t, slug, bill, world.upstream.status, world)
  }

  ghost function UnpreparedReason(prepared: Prepared): Reason {
    if prepared.Undecrypted? then DecryptFailed else InjectionFailed
  }

  ghost function ForwardTables(env: Env, t: Tables, slug: Slug, bill: Bill, world: World, now: Time): Tables {
    if world.prepared.Ready? then Sent(env, t, slug, bill, world, now)
    else Logged(t, LogRow(slug, None, 500, 0, FailedCall, None, Some(UnpreparedReason(world.prepared))), world)
  }

  ghost function PayTables(
    env: Env, t: Tables, slug: Slug, header: Header, route: Route, world: World, now: Time): Tables
  {
    var bill := BillFor(env, header, route.price, world.rpc, now);
    if !MustPay(env, header, route, world.rpc, now) then ForwardTables(env, t, slug, bill, world, now)
    else if CanAsk(env.settings) then Logged(t, LogRow(slug, None, 402, 0, PaymentRequired, None, bill.error), world)
    else t
  }

  /** The tables after the call of a request whose route is resolved. */
  ghost function ServeTables(
    env: Env, t: Tables, slug: Slug, header: Header, route: Route, world: World, now: Time): Tables
  {
    if !world.originSafe then Logged(t, LogRow(slug, None, 400, 0, FailedCall, None, Some(UnsafeOrigin)), world)
    else if BreakerHolds(route, now) then
      Logged(t, LogRow(slug, None, 503, 0, Unbilled, None, Some(BreakerOpen)), world)
    else PayTables(env, t, slug, header, route, world, now)
  }

  // ---------------------------------------------------------------- the cache

  ghost predicate SendFails(world: World) { world.prepared.Ready? && UpstreamFault(world.upstream).Some? }

  ghost predicate ServeFails(env: Env, header: Header, route: Route, world: World, now: Time) {
    world.originSafe && !BreakerHolds(route, now) && !MustPay(env, header, route, world.rpc, now) && SendFails(world)
  }

  ghost function Without(entries: Cache, slug: Slug, evicted: bool): Cache {
    if evicted then entries - {slug} else entries
  }

  /** What resolving leaves: a read row is cached, an absent one forgotten. */
  ghost function ResolvedCache(env: Env, t: Tables, entries: Cache, slug: Slug, world: World, now: Time): Cache {
    if IsFresh(entries, slug, now, env.ttl) || !world.readOk then entries
    else
      match RouteInUse(t.services, entries, slug, now, env.ttl)
      case Some(route) => entries[slug := Entry(route, now)]
      case None => entries - {slug}
  }

  // ---------------------------------------------------------------- the whole call

  /** The call gets no route: the database did not answer, or there is none that is enabled. */
  ghost function Unrouted(env: Env, t: Tables, entries: Cache, slug: Slug, world: World, now: Time): Option<Response> {
    var route := RouteInUse(t.services, entries, slug, now, env.ttl);
    if !IsFresh(entries, slug, now, env.ttl) && !world.readOk then Some(Response(503, false))
    else if route == None || !route.value.proxyEnabled then Some(Response(404, false))
    else None
  }

  /** The response to a call of `slug`, given the tables and the cache that it finds. */
  ghost function CallResponse(
    env: Env, t: Tables, entries: Cache, slug: Slug, header: Header, world: World, now: Time): Response
  {
    var unrouted := Unrouted(env, t, entries, slug, world, now);
    if unrouted.Some? then unrouted.value
    else ServeResponse(env, header, RouteInUse(t.services, entries, slug, now, env.ttl).value, world, now)
  }

  /** The tables that it leaves. */
  ghost function CallTables(
    env: Env, t: Tables, entries: Cache, slug: Slug, header: Header, world: World, now: Time): Tables
  {
    if Unrouted(env, t, entries, slug, world, now).Some? then t
    else ServeTables(env, t, slug, header, RouteInUse(t.services, entries, slug, now, env.ttl).value, world, now)
  }

  /** And the cache: a call that its upstream fails leaves its route forgotten. */
  ghost function CallCache(
    env: Env, t: Tables, entries: Cache, slug: Slug, header: Header, world: World, now: Time): Cache
  {
    var resolved := ResolvedCache(env, t, entries, slug, world, now);
    if Unrouted(env, t, entries, slug, world, now).Some? then resolved
    else
      var route := RouteInUse(t.services, entries, slug, now, env.ttl).value;
      Without(resolved, slug, ServeFails(env, header, route, world, now))
  }
}

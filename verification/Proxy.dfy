/**
 The gateway's request protocol (proxy.rs) as a step system. A state holds the
 tables, one route cache per gateway process, a clock and every request so far;
 finished requests stay, so a state remembers what each of them did. An event
 is one atomic step of one request, or of the outside world. Every sequence of
 events is a run: an event whose request does not exist changes nothing.
 */
module Proxy {
  import opened Common
  import opened Meter
  import opened Routes
  import X402

  type GatewayId = int

  // ---------------------------------------------------------------- configuration and requests

  datatype Env = Env(
    ttl: nat, threshold: nat, openSecs: int, allowUnverified: bool,
    settings: X402.Settings, codec: X402.Codec, chain: map<Signature, X402.Tx>)

  /** The chain is immutable; the RPC node may not answer, or not know a transaction yet. */
  function Fetch(chain: map<Signature, X402.Tx>, signature: Signature, rpc: Rpc): X402.Reply {
    match rpc
    case Unreachable => X402.RpcFailed
    case Pending => X402.NotFinalized
    case Settled => if signature in chain then X402.Found(chain[signature]) else X402.NotFinalized
  }

  /** The x-payment header after `parse_payment_header`. */
  datatype Header = Absent | Malformed | Presented(payment: X402.Payment)

  /** What payment verification decided for a request: (requested_paid, signature, amount, error). */
  datatype Bill = Bill(paid: bool, signature: Option<Signature>, amount: int, error: Option<Reason>)

  /** What a request did to the consumed-signature table. `Burned`: the row went in but the reply was an error. */
  datatype Claim = NoClaim | Won(signature: Signature, amount: int) | Burned(signature: Signature)

  datatype Pc =
    | LookingUp
    | Loading
    | Storing(found: Option<Route>, loadedAt: Time)
    | Gating(route: Route)
    | Paying(route: Route)
    | Preparing(route: Route, bill: Bill)
    | Sending(route: Route, bill: Bill)
    | Rejecting(row: LogRow)
    | Consuming(bill: Bill, status: int)
    | Logging(row: LogRow, status: int)
    | Metering(status: int)
    | Closing
    | Refunding(reason: Reason)
    | Counting(reopenAt: Time)
    | Invalidating
    | Finished

  /** `status` is the upstream's answer once there is one; `logged` and `metered` record acknowledged effects. */
  datatype Task = Task(
    gateway: GatewayId, slug: Slug, header: Header, pc: Pc,
    status: Option<int>, claim: Claim, logged: bool, metered: bool)

  datatype State = State(tables: Tables, caches: map<GatewayId, Cache>, tasks: seq<Task>, clock: Time)

  // ---------------------------------------------------------------- events

  /** `Unacked`: the statement committed, but the gateway saw an error. */
  datatype Write = Acked | Dropped | Unacked

  datatype Prepared = Ready | Undecrypted | Uninjected

  datatype Upstream = Responded(status: int) | TimedOut | ConnectFailed | SendFailed

  datatype Rpc = Unreachable | Pending | Settled

  /** Everything the outside world may answer at one step; each step reads the fields it needs. */
  datatype World = World(
    readOk: bool, originSafe: bool, rpc: Rpc, prepared: Prepared, upstream: Upstream,
    consume: Write, log: Write, meter: Write, count: Write, close: Write)

  datatype Event =
    | Tick(elapsed: nat)
    | Relist(slug: Slug, price: int, proxyEnabled: bool)
    | Probe(slug: Slug, healthy: bool)
    | Arrive(gateway: GatewayId, slug: Slug, header: Header)
    | Act(task: nat, world: World)

  // ---------------------------------------------------------------- local decisions

  predicate StillOpen(route: Route, now: Time) {
    route.breakerOpen && (route.breakerUntil.None? || route.breakerUntil.value > now)
  }

  predicate IsSuccess(status: int) { 200 <= status < 300 }

  predicate IsServerError(status: int) { 500 <= status < 600 }

  function Decide(env: Env, header: Header, price: int, rpc: Rpc, now: Time): Bill {
    match header
    case Absent => Bill(false, None, 0, None)
    case Malformed => Bill(false, None, 0, Some(PayloadMalformed))
    case Presented(payment) =>
      if env.allowUnverified then Bill(true, Some(payment.signature), price, None)
      else
        match X402.VerifyPayment(env.settings, env.codec, payment, Fetch(env.chain, payment.signature, rpc), now, price)
        case Success(verified) => Bill(true, Some(verified.signature), price, None)
        case Failure(code) => Bill(false, None, 0, Some(Verification(code)))
  }

  function Refusal(slug: Slug, status: int, payment: PaymentStatus, error: Option<Reason>): LogRow {
    LogRow(slug, None, status, 0, payment, None, error)
  }

  /** The bookkeeping task's log row before it knows whether the signature was won. */
  function PlainLog(slug: Slug, bill: Bill, status: int): LogRow {
    LogRow(slug, Some(status), status, 0, if IsSuccess(status) then Unbilled else ClientError, None, bill.error)
  }

  function OrElse(first: Option<Reason>, second: Reason): Option<Reason> {
    if first.None? then Some(second) else first
  }

  predicate Billable(bill: Bill, status: int) {
    IsSuccess(status) && bill.paid && bill.amount > 0
  }

  // ---------------------------------------------------------------- steps

  function Init(services: map<Slug, Service>, clock: Time): State {
    State(Tables(services, [], [], []), map[], [], clock)
  }

  function CacheOf(s: State, gateway: GatewayId): Cache {
    if gateway in s.caches then s.caches[gateway] else map[]
  }

  function WithTask(s: State, id: nat, task: Task): State
    requires id < |s.tasks|
  {
    s.(tasks := s.tasks[id := task])
  }

  function Goto(s: State, id: nat, pc: Pc): State
    requires id < |s.tasks|
  {
    WithTask(s, id, s.tasks[id].(pc := pc))
  }

  function WithTables(s: State, write: Write, written: Tables): State {
    if write.Dropped? then s else s.(tables := written)
  }

  function Step(env: Env, s: State, e: Event): State {
    match e
    case Tick(elapsed) => s.(clock := s.clock + elapsed)
    case Relist(slug, price, proxyEnabled) => s.(tables := Listed(s.tables, slug, price, proxyEnabled))
    case Probe(slug, healthy) => s.(tables := Probed(s.tables, slug, healthy))
    case Arrive(gateway, slug, header) =>
      s.(tasks := s.tasks + [Task(gateway, slug, header, LookingUp, None, NoClaim, false, false)])
    case Act(id, world) => if id < |s.tasks| then Advance(env, s, id, world) else s
  }

  /** The owner lists a new service, or edits the price or the kill switch of an old one. */
  function Listed(t: Tables, slug: Slug, price: int, proxyEnabled: bool): Tables {
    var row := if slug in t.services then t.services[slug].(price := price, proxyEnabled := proxyEnabled)
               else Service(price, proxyEnabled, false, None, 0);
    t.(services := t.services[slug := row])
  }

  /**
   Others write the same failure counter, and only that: the health checker of said-cloud resets it or adds to it,
   and a service's own heartbeat resets it when it reports itself well.
   */
  function Probed(t: Tables, slug: Slug, healthy: bool): Tables {
    if slug in t.services && (healthy || t.services[slug].failures < MAX_INT4) then
      var failures := if healthy then 0 else t.services[slug].failures + 1;
      t.(services := t.services[slug := t.services[slug].(failures := failures)])
    else t
  }

  function Advance(env: Env, s: State, id: nat, world: World): State
    requires id < |s.tasks|
  {
    match s.tasks[id].pc
    case LookingUp => LookUp(env, s, id)
    case Loading =>
      if world.readOk then Goto(s, id, Storing(SelectRoute(s.tables.services, s.tasks[id].slug), s.clock))
      else Goto(s, id, Finished)
    case Storing(found, _) => StoreRoute(s, id, found)
    case Gating(route) => Gate(s, id, route, world)
    case Paying(route) => Pay(env, s, id, route, world)
    case Preparing(route, bill) =>
      (match world.prepared
       case Ready => Goto(s, id, Sending(route, bill))
       case Undecrypted =>
         Goto(s, id, Rejecting(Refusal(s.tasks[id].slug, 500, FailedCall, Some(DecryptFailed))))
       case Uninjected =>
         Goto(s, id, Rejecting(Refusal(s.tasks[id].slug, 500, FailedCall, Some(InjectionFailed)))))
    case Sending(_, bill) => Answer(s, id, bill, world)
    case Rejecting(row) => Goto(WithTables(s, world.log, InsertLog(s.tables, row)), id, Finished)
    case Consuming(bill, status) => Consume(s, id, bill, status, world)
    case Logging(row, status) => LogCall(s, id, row, status, world)
    case Metering(status) => MeterCall(s, id, status, world)
    case Closing => Goto(WithTables(s, world.close, CloseBreaker(s.tables, s.tasks[id].slug)), id, Finished)
    case Refunding(reason) =>
      var row := Refusal(s.tasks[id].slug, 504, Refunded, Some(reason));
      Goto(WithTables(s, world.log, InsertLog(s.tables, row)), id, Counting(s.clock + env.openSecs))
    case Counting(reopenAt) =>
      var counted := RecordFailure(s.tables, s.tasks[id].slug, reopenAt, env.threshold);
      Goto(WithTables(s, world.count, counted), id, Invalidating)
    case Invalidating =>
      var task := s.tasks[id];
      Goto(s.(caches := s.caches[task.gateway := Evict(CacheOf(s, task.gateway), task.slug)]), id, Finished)
    case Finished => s
  }

  function LookUp(env: Env, s: State, id: nat): State
    requires id < |s.tasks|
  {
    var task := s.tasks[id];
    match Hit(CacheOf(s, task.gateway), task.slug, s.clock, env.ttl)
    case Some(route) => Goto(s, id, Resolved(route))
    case None => Goto(s, id, Loading)
  }

  function Resolved(route: Route): Pc {
    if route.proxyEnabled then Gating(route) else Finished
  }

  function StoreRoute(s: State, id: nat, found: Option<Route>): State
    requires id < |s.tasks|
  {
    var task := s.tasks[id];
    var stored := s.(caches := s.caches[task.gateway := Store(CacheOf(s, task.gateway), task.slug, found, s.clock)]);
    Goto(stored, id, if found.Some? then Resolved(found.value) else Finished)
  }

  function Gate(s: State, id: nat, route: Route, world: World): State
    requires id < |s.tasks|
  {
    if !world.originSafe then
      Goto(s, id, Rejecting(Refusal(s.tasks[id].slug, 400, FailedCall, Some(UnsafeOrigin))))
    else if StillOpen(route, s.clock) then
      Goto(s, id, Rejecting(Refusal(s.tasks[id].slug, 503, Unbilled, Some(BreakerOpen))))
    else
      Goto(s, id, Paying(route))
  }

  function Pay(env: Env, s: State, id: nat, route: Route, world: World): State
    requires id < |s.tasks|
  {
    var bill := Decide(env, s.tasks[id].header, route.price, world.rpc, s.clock);
    if route.price > 0 && !bill.paid then
      if X402.BuildChallenge(env.settings, route.price).Some? then
        Goto(s, id, Rejecting(Refusal(s.tasks[id].slug, 402, PaymentRequired, bill.error)))
      else
        Goto(s, id, Finished)
    else
      Goto(s, id, Preparing(route, bill))
  }

  /** The response is returned here; what follows runs in the background. */
  function Answer(s: State, id: nat, bill: Bill, world: World): State
    requires id < |s.tasks|
  {
    match world.upstream
    case TimedOut => Goto(s, id, Refunding(UpstreamTimeout))
    case ConnectFailed => Goto(s, id, Refunding(UpstreamConnectFailed))
    case SendFailed => Goto(s, id, Refunding(UpstreamError))
    case Responded(status) =>
      var answered := WithTask(s, id, s.tasks[id].(status := Some(status)));
      if IsServerError(status) then Goto(answered, id, Refunding(Upstream5xx))
      else if Billable(bill, status) && bill.signature.Some? then Goto(answered, id, Consuming(bill, status))
      else
        var row := PlainLog(s.tasks[id].slug, bill, status);
        Goto(answered, id, Logging(
          if Billable(bill, status) then row.(error := OrElse(row.error, MissingSignature)) else row,
          status))
  }

  function Consume(s: State, id: nat, bill: Bill, status: int, world: World): State
    requires id < |s.tasks|
  {
    if bill.signature.None? then s
    else
      var task, signature := s.tasks[id], bill.signature.value;
      var row := PlainLog(task.slug, bill, status);
      var unseen := !IsConsumed(s.tables.consumed, signature);
      var written := WithTables(s, world.consume, InsertConsumed(s.tables, task.slug, signature));
      match world.consume
      case Acked =>
        if unseen then
          WithTask(written, id, task.(
            claim := Won(signature, bill.amount),
            pc := Logging(row.(charged := bill.amount, payment := Paid, signature := Some(signature)), status)))
        else
          Goto(written, id, Logging(row.(error := OrElse(row.error, ReplayedSignature)), status))
      case _ =>
        WithTask(written, id, task.(
          claim := if unseen && world.consume.Unacked? then Burned(signature) else NoClaim,
          pc := Logging(row.(error := OrElse(row.error, ConsumeFailed)), status)))
  }

  function LogCall(s: State, id: nat, row: LogRow, status: int, world: World): State
    requires id < |s.tasks|
  {
    var written := WithTables(s, world.log, InsertLog(s.tables, row));
    WithTask(written, id, s.tasks[id].(
      logged := !world.log.Dropped?,
      pc := if IsSuccess(status) && row.charged > 0 then Metering(status)
            else if IsSuccess(status) then Closing
            else Finished))
  }

  function MeterCall(s: State, id: nat, status: int, world: World): State
    requires id < |s.tasks|
  {
    var task := s.tasks[id];
    if task.claim.Won? then
      var row := MeteredRow(task.slug, task.claim.amount);
      var written := WithTables(s, world.meter, InsertMetered(s.tables, row));
      WithTask(written, id, task.(metered := !world.meter.Dropped?, pc := if IsSuccess(status) then Closing else Finished))
    else s
  }

  function Run(env: Env, s: State, es: seq<Event>): State {
    if es == [] then s else Step(env, Run(env, s, es[..|es| - 1]), es[|es| - 1])
  }

  lemma {:induction false} RunConcat(env: Env, s: State, first: seq<Event>, second: seq<Event>)
    ensures Run(env, s, first + second) == Run(env, Run(env, s, first), second)
  {
    if second == [] {
      assert first + second == first;
    } else {
      var n := |second| - 1;
      RunConcat(env, s, first, second[..n]);
      assert (first + second)[..|first + second| - 1] == first + second[..n];
    }
  }

  // ---------------------------------------------------------------- one request alone

  function Acts(id: nat, world: World, n: nat): seq<Event> {
    seq(n, _ => Act(id, world))
  }

  /** `n` steps of one request under unchanging answers. */
  function Drive(env: Env, s: State, id: nat, world: World, n: nat): State {
    Run(env, s, Acts(id, world, n))
  }

  lemma DriveStep(env: Env, s: State, id: nat, world: World, n: nat)
    ensures Drive(env, s, id, world, n + 1) == Step(env, Drive(env, s, id, world, n), Act(id, world))
    ensures Drive(env, s, id, world, 0) == s
  {
    assert Acts(id, world, n + 1) == Acts(id, world, n) + [Act(id, world)];
  }

  lemma DriveSplit(env: Env, s: State, id: nat, world: World, m: nat, n: nat)
    ensures Drive(env, s, id, world, m + n) == Drive(env, Drive(env, s, id, world, m), id, world, n)
  {
    assert Acts(id, world, m + n) == Acts(id, world, m) + Acts(id, world, n);
    RunConcat(env, s, Acts(id, world, m), Acts(id, world, n));
  }

  lemma RunScript(env: Env, s: State, e: Event, id: nat, world: World, n: nat)
    ensures Run(env, s, [e] + Acts(id, world, n)) == Drive(env, Step(env, s, e), id, world, n)
  {
    RunConcat(env, s, [e], Acts(id, world, n));
    assert [] + [e] == [e];
  }
}

/** The weights that the books count, and what one step of one request may do to them. */
module Billing {
  import opened Common
  import opened Meter
  import opened Routes
  import opened Proxy
  import X402

  // ---------------------------------------------------------------- weights

  /** A scope is one service, or all of them. */
  predicate InScope(scope: Option<Slug>, slug: Slug) { scope.None? || scope.value == slug }

  /** What escrow received, on chain, from the transaction of a signature. */
  ghost function OnChain(env: Env, signature: Signature): nat {
    if signature in env.chain then X402.EscrowReceived(env.settings, env.codec, env.chain[signature]) else 0
  }

  ghost function PaidIn(paid: Signature -> int, scope: Option<Slug>): ConsumedRow -> int {
    (r: ConsumedRow) => if InScope(scope, r.service) then paid(r.signature) else 0
  }

  ghost function MeteredIn(scope: Option<Slug>): MeteredRow -> int {
    (r: MeteredRow) => if InScope(scope, r.service) then r.amount else 0
  }

  ghost function ChargedIn(scope: Option<Slug>): LogRow -> int {
    (r: LogRow) => if InScope(scope, r.service) then r.charged else 0
  }

  function ClaimAmount(claim: Claim): int {
    if claim.Won? then claim.amount else 0
  }

  predicate ClaimsSignature(claim: Claim, signature: Signature) {
    !claim.NoClaim? && claim.signature == signature
  }

  ghost function WonBy(scope: Option<Slug>): Task -> int {
    (t: Task) => if InScope(scope, t.slug) then ClaimAmount(t.claim) else 0
  }

  ghost function MeteredBy(scope: Option<Slug>): Task -> int {
    (t: Task) => if InScope(scope, t.slug) && t.metered then ClaimAmount(t.claim) else 0
  }

  ghost function LoggedBy(scope: Option<Slug>): Task -> int {
    (t: Task) => if InScope(scope, t.slug) && t.logged then ClaimAmount(t.claim) else 0
  }

  /** Won, and the metering step is still to come. */
  predicate Held(t: Task) { t.claim.Won? && (t.pc.Logging? || t.pc.Metering?) }

  ghost function HeldBy(scope: Option<Slug>): Task -> int {
    (t: Task) => if InScope(scope, t.slug) && Held(t) then ClaimAmount(t.claim) else 0
  }

  /** Won, past the metering step, and not metered. */
  ghost function LostBy(scope: Option<Slug>): Task -> int {
    (t: Task) => if InScope(scope, t.slug) && !Held(t) && !t.metered then ClaimAmount(t.claim) else 0
  }

  ghost function ConsumedAs(signature: Signature, service: Slug): ConsumedRow -> int {
    (r: ConsumedRow) => if r == ConsumedRow(signature, service) then 1 else 0
  }

  ghost function ClaimedAs(signature: Signature, service: Slug): Task -> int {
    (t: Task) => if ClaimsSignature(t.claim, signature) && t.slug == service then 1 else 0
  }

  predicate IsPaidLog(r: LogRow, signature: Signature, service: Slug) {
    r.payment.Paid? && r.signature == Some(signature) && r.service == service
  }

  ghost function PaidLogAs(signature: Signature, service: Slug): LogRow -> int {
    (r: LogRow) => if IsPaidLog(r, signature, service) then 1 else 0
  }

  ghost function LoggedAs(signature: Signature, service: Slug): Task -> int {
    (t: Task) => if t.logged && t.claim.Won? && t.claim.signature == signature && t.slug == service then 1 else 0
  }

  // ---------------------------------------------------------------- what a single request keeps

  /** What each signature paid, as far as verification vouches for it. */
  type Vouched = Option<Signature -> int>

  ghost function Chain(env: Env): Signature -> int {
    (signature: Signature) => OnChain(env, signature)
  }

  ghost function VouchedBy(env: Env): Vouched {
    if env.allowUnverified then None else Some(Chain(env))
  }

  ghost predicate Covered(vouched: Vouched, signature: Signature, amount: int) {
    vouched.Some? ==> vouched.value(signature) >= amount
  }

  ghost predicate BillOk(vouched: Vouched, t: Task, bill: Bill) {
    && (bill.signature.Some? ==> t.header.Presented? && t.header.payment.signature == bill.signature.value)
    && (bill.paid ==> bill.signature.Some? && Covered(vouched, bill.signature.value, bill.amount))
  }

  ghost predicate ClaimOk(vouched: Vouched, t: Task) {
    !t.claim.NoClaim? ==>
      && t.header.Presented? && t.header.payment.signature == t.claim.signature
      && t.status.Some? && IsSuccess(t.status.value)
      && (t.claim.Won? ==> t.claim.amount > 0 && Covered(vouched, t.claim.signature, t.claim.amount))
  }

  ghost predicate LogMatchesClaim(t: Task, row: LogRow) {
    && row.service == t.slug
    && row.charged == ClaimAmount(t.claim)
    && (row.payment.Paid? <==> t.claim.Won?)
    && (t.claim.Won? ==> row.signature == Some(t.claim.signature))
  }

  ghost predicate TaskOk(vouched: Vouched, t: Task) {
    && ClaimOk(vouched, t)
    && (t.metered ==> t.claim.Won?)
    && match t.pc
       case Preparing(_, bill) => t.claim.NoClaim? && !t.logged && BillOk(vouched, t, bill)
       case Sending(_, bill) => t.claim.NoClaim? && !t.logged && BillOk(vouched, t, bill)
       case Consuming(bill, status) =>
         && t.claim.NoClaim? && !t.logged && BillOk(vouched, t, bill)
         && Billable(bill, status) && t.status == Some(status)
       case Logging(row, status) =>
         !t.logged && !t.metered && t.status == Some(status) && LogMatchesClaim(t, row)
       case Metering(status) => !t.metered && t.claim.Won? && t.status == Some(status)
       case Rejecting(row) => t.claim.NoClaim? && !t.logged && row.charged == 0 && !row.payment.Paid?
       case Closing => true
       case Finished => true
       case _ => t.claim.NoClaim? && !t.logged
  }

  /** The transaction a payment names is settled, on this network, and its first escrow transfer pays in full. */
  ghost predicate PaidOnChain(env: Env, payment: X402.Payment, price: int, rpc: Rpc, now: Time) {
    && payment.scheme == X402.Exact
    && X402.OnNetwork(env.settings.rpcUrl, payment.network)
    && rpc == Settled
    && payment.signature in env.chain
    && var tx := env.chain[payment.signature];
       && X402.Fresh(env.settings, tx, now)
       && exists i :: X402.PaidAt(env.settings, env.codec, X402.Instructions(tx), i, price, payment.from)
  }

  /** The request shows a payment, and it is good or need not be. */
  ghost predicate Pays(env: Env, header: Header, price: int, rpc: Rpc, now: Time) {
    header.Presented? && (env.allowUnverified || PaidOnChain(env, header.payment, price, rpc, now))
  }

  /** What is held against a request that does not pay. */
  ghost function UnpaidBecause(env: Env, header: Header, price: int, rpc: Rpc, now: Time): Option<Reason> {
    match header
    case Absent => None
    case Malformed => Some(PayloadMalformed)
    case Presented(payment) =>
      var reply := if rpc == Unreachable then X402.RpcFailed
                   else if rpc == Settled && payment.signature in env.chain then X402.Found(env.chain[payment.signature])
                   else X402.NotFinalized;
      var verdict := X402.VerifyPayment(env.settings, env.codec, payment, reply, now, price);
      if verdict.Failure? then Some(Verification(verdict.error)) else None
  }

  /**
   The payment decision: whoever pays is billed the price under the signature shown; nobody else is billed, and
   is told the verifier's reason if a payment was shown.
   */
  lemma DecidesExactly(env: Env, header: Header, price: int, rpc: Rpc, now: Time)
    ensures
      var bill := Decide(env, header, price, rpc, now);
      && (bill.paid <==> Pays(env, header, price, rpc, now))
      && (bill.paid ==> bill == Bill(true, Some(header.payment.signature), price, None))
      && (!bill.paid ==> bill == Bill(false, None, 0, UnpaidBecause(env, header, price, rpc, now)))
      && (!bill.paid && bill.error == None ==> header == Absent)
  {
    if header.Presented? && !env.allowUnverified {
      var payment := header.payment;
      var reply := Fetch(env.chain, payment.signature, rpc);
      X402.VerifyAcceptsExactly(env.settings, env.codec, payment, reply, now, price);
      if X402.VerifyPayment(env.settings, env.codec, payment, reply, now, price).Success? {
        X402.VerifiedCoversPrice(env.settings, env.codec, payment, reply, now, price);
      }
    }
  }

  lemma DecideBills(env: Env, t: Task, price: int, rpc: Rpc, now: Time)
    ensures BillOk(VouchedBy(env), t, Decide(env, t.header, price, rpc, now))
  {
    if t.header.Presented? && !env.allowUnverified {
      var payment := t.header.payment;
      var reply := Fetch(env.chain, payment.signature, rpc);
      if X402.VerifyPayment(env.settings, env.codec, payment, reply, now, price).Success? {
        X402.VerifiedCoversPrice(env.settings, env.codec, payment, reply, now, price);
      }
    }
  }

  ghost predicate SameRows(a: Tables, b: Tables) {
    a.consumed == b.consumed && a.metered == b.metered && a.logs == b.logs
  }

  /** How one step of request `t` may have touched the consumed-signature table. */
  ghost predicate ClaimEffect(vouched: Vouched, t: Task, t': Task, before: Tables, after: Tables) {
    || (after.consumed == before.consumed && t'.claim == t.claim)
    || (&& t.claim.NoClaim? && !t'.claim.NoClaim?
        && !IsConsumed(before.consumed, t'.claim.signature)
        && after.consumed == before.consumed + [ConsumedRow(t'.claim.signature, t.slug)]
        && Covered(vouched, t'.claim.signature, ClaimAmount(t'.claim))
        && Covered(vouched, t'.claim.signature, 0))
  }

  ghost predicate MeterEffect(t: Task, t': Task, before: Tables, after: Tables) {
    || (after.metered == before.metered && t'.metered == t.metered && (t.metered ==> t'.claim == t.claim))
    || (&& t.claim.Won? && t'.claim == t.claim && !t.metered && t'.metered
        && after.metered == before.metered + [MeteredRow(t.slug, t.claim.amount)])
  }

  ghost predicate LogEffect(t: Task, t': Task, before: Tables, after: Tables) {
    || (after.logs == before.logs && t'.logged == t.logged && (t.logged ==> t'.claim == t.claim))
    || (&& |after.logs| == |before.logs| + 1
        && after.logs == before.logs + [after.logs[|before.logs|]]
        && t'.claim == t.claim
        && var row := after.logs[|before.logs|];
           || (!t.logged && t'.logged && LogMatchesClaim(t, row))
           || (t'.logged == t.logged && row.charged == 0 && !row.payment.Paid?))
  }

  ghost predicate Effect(vouched: Vouched, t: Task, t': Task, before: Tables, after: Tables) {
    && t'.slug == t.slug && t'.header == t.header
    && ClaimEffect(vouched, t, t', before, after)
    && MeterEffect(t, t', before, after)
    && LogEffect(t, t', before, after)
  }

  /** The step of request `id` from `s` to `s'` touches only that request, and the rows as allowed. */
  ghost predicate GoodStep(vouched: Vouched, s: State, s': State, id: nat)
    requires id < |s.tasks|
  {
    && |s'.tasks| == |s.tasks|
    && s'.tasks == s.tasks[id := s'.tasks[id]]
    && TaskOk(vouched, s'.tasks[id])
    && Effect(vouched, s.tasks[id], s'.tasks[id], s.tables, s'.tables)
  }

  lemma ConsumeEffect(vouched: Vouched, s: State, id: nat, bill: Bill, status: int, world: World)
    requires id < |s.tasks| && TaskOk(vouched, s.tasks[id]) && s.tasks[id].pc == Consuming(bill, status)
    ensures GoodStep(vouched, s, Consume(s, id, bill, status, world), id)
  {
  }

  lemma LogCallEffect(vouched: Vouched, s: State, id: nat, row: LogRow, status: int, world: World)
    requires id < |s.tasks| && TaskOk(vouched, s.tasks[id]) && s.tasks[id].pc == Logging(row, status)
    ensures GoodStep(vouched, s, LogCall(s, id, row, status, world), id)
  {
  }

  lemma MeterCallEffect(vouched: Vouched, s: State, id: nat, status: int, world: World)
    requires id < |s.tasks| && TaskOk(vouched, s.tasks[id]) && s.tasks[id].pc == Metering(status)
    ensures GoodStep(vouched, s, MeterCall(s, id, status, world), id)
  {
  }

  lemma AnswerEffect(vouched: Vouched, s: State, id: nat, route: Route, bill: Bill, world: World)
    requires id < |s.tasks| && TaskOk(vouched, s.tasks[id]) && s.tasks[id].pc == Sending(route, bill)
    ensures GoodStep(vouched, s, Answer(s, id, bill, world), id)
  {
  }

  lemma PayEffect(env: Env, s: State, id: nat, route: Route, world: World)
    requires id < |s.tasks| && TaskOk(VouchedBy(env), s.tasks[id]) && s.tasks[id].pc == Paying(route)
    ensures GoodStep(VouchedBy(env), s, Pay(env, s, id, route, world), id)
  {
    DecideBills(env, s.tasks[id], route.price, world.rpc, s.clock);
  }

  /** Steps that write no row and no history. */
  predicate IsRouting(pc: Pc) {
    pc.LookingUp? || pc.Loading? || pc.Storing? || pc.Gating? || pc.Preparing?
  }

  predicate IsClosing(pc: Pc) {
    pc.Closing? || pc.Counting? || pc.Invalidating? || pc.Finished?
  }

  lemma RoutingEffect(env: Env, vouched: Vouched, s: State, id: nat, world: World)
    requires id < |s.tasks| && TaskOk(vouched, s.tasks[id]) && IsRouting(s.tasks[id].pc)
    ensures GoodStep(vouched, s, Advance(env, s, id, world), id)
  {
  }

  lemma ClosingEffect(env: Env, vouched: Vouched, s: State, id: nat, world: World)
    requires id < |s.tasks| && TaskOk(vouched, s.tasks[id]) && IsClosing(s.tasks[id].pc)
    ensures GoodStep(vouched, s, Advance(env, s, id, world), id)
  {
  }

  lemma RefusalEffect(env: Env, vouched: Vouched, s: State, id: nat, world: World)
    requires id < |s.tasks| && TaskOk(vouched, s.tasks[id])
    requires s.tasks[id].pc.Rejecting? || s.tasks[id].pc.Refunding?
    ensures GoodStep(vouched, s, Advance(env, s, id, world), id)
  {
  }

  lemma ActEffect(env: Env, s: State, id: nat, world: World)
    requires id < |s.tasks| && TaskOk(VouchedBy(env), s.tasks[id])
    ensures GoodStep(VouchedBy(env), s, Advance(env, s, id, world), id)
  {
    var vouched := VouchedBy(env);
    match s.tasks[id].pc
    case Paying(route) => PayEffect(env, s, id, route, world);
    case Sending(route, bill) => AnswerEffect(vouched, s, id, route, bill, world);
    case Consuming(bill, status) => ConsumeEffect(vouched, s, id, bill, status, world);
    case Logging(row, status) => LogCallEffect(vouched, s, id, row, status, world);
    case Metering(status) => MeterCallEffect(vouched, s, id, status, world);
    case Rejecting(_) => RefusalEffect(env, vouched, s, id, world);
    case Refunding(_) => RefusalEffect(env, vouched, s, id, world);
    case _ =>
      if IsRouting(s.tasks[id].pc) {
        RoutingEffect(env, vouched, s, id, world);
      } else {
        ClosingEffect(env, vouched, s, id, world);
      }
  }
}

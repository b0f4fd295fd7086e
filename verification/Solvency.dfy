/** What the balanced books mean for payers, merchants and the escrow wallet. */
module Solvency {
  import opened Common
  import opened Meter
  import opened Proxy
  import opened Billing
  import opened Books

  // ---------------------------------------------------------------- exactly once

  lemma ConsumedAtMostOnce(s: State, signature: Signature, service: Slug)
    requires Distinct(s.tables.consumed)
    ensures Sum(s.tables.consumed, ConsumedAs(signature, service)) <= 1
  {
    CountAtMostOne(s.tables.consumed, ConsumedAs(signature, service));
  }

  /** The consumed row behind a request's claim. */
  lemma ClaimHasRow(vouched: Vouched, s: State, id: nat) returns (k: nat)
    requires Balanced(vouched, s) && id < |s.tasks| && !s.tasks[id].claim.NoClaim?
    ensures k < |s.tables.consumed|
    ensures s.tables.consumed[k] == ConsumedRow(s.tasks[id].claim.signature, s.tasks[id].slug)
  {
    var signature, service := s.tasks[id].claim.signature, s.tasks[id].slug;
    CountOne(s.tasks, id, ClaimedAs(signature, service));
    assert ClaimsMatchRows(s, signature, service);
    k := CountFinds(s.tables.consumed, ConsumedAs(signature, service));
  }

  /** The request behind a consumed row. */
  lemma RowHasClaim(vouched: Vouched, s: State, k: nat) returns (id: nat)
    requires Balanced(vouched, s) && k < |s.tables.consumed|
    ensures id < |s.tasks| && !s.tasks[id].claim.NoClaim?
    ensures s.tables.consumed[k] == ConsumedRow(s.tasks[id].claim.signature, s.tasks[id].slug)
  {
    var row := s.tables.consumed[k];
    CountOne(s.tables.consumed, k, ConsumedAs(row.signature, row.service));
    assert ClaimsMatchRows(s, row.signature, row.service);
    id := CountFinds(s.tasks, ClaimedAs(row.signature, row.service));
  }

  lemma ClaimsDiffer(vouched: Vouched, s: State, i: nat, j: nat)
    requires Balanced(vouched, s) && i < j < |s.tasks|
    requires !s.tasks[i].claim.NoClaim? && !s.tasks[j].claim.NoClaim?
    ensures s.tasks[i].claim.signature != s.tasks[j].claim.signature
  {
    if s.tasks[i].claim.signature == s.tasks[j].claim.signature {
      var signature, service := s.tasks[i].claim.signature, s.tasks[i].slug;
      var k := ClaimHasRow(vouched, s, i);
      var l := ClaimHasRow(vouched, s, j);
      assert k == l;
      CountTwo(s.tasks, i, j, ClaimedAs(signature, service));
      assert ClaimsMatchRows(s, signature, service);
      ConsumedAtMostOnce(s, signature, service);
    }
  }

  /** In every run, no two requests of any service or gateway are charged for one signature. */
  lemma ChargedExactlyOnce(env: Env, services: map<Slug, Service>, clock: Time, es: seq<Event>, i: nat, j: nat)
    requires i < j < |Run(env, Init(services, clock), es).tasks|
    ensures
      var s := Run(env, Init(services, clock), es);
      s.tasks[i].claim.Won? && s.tasks[j].claim.Won? ==> s.tasks[i].claim.signature != s.tasks[j].claim.signature
  {
    RunIsBalanced(env, services, clock, es);
    var s := Run(env, Init(services, clock), es);
    if s.tasks[i].claim.Won? && s.tasks[j].claim.Won? {
      ClaimsDiffer(VouchedBy(env), s, i, j);
    }
  }

  // ---------------------------------------------------------------- meter on success

  ghost predicate Presents(t: Task, signature: Signature) {
    t.header.Presented? && t.header.payment.signature == signature
  }

  /** A signature is consumed only by a request that presented it and whose upstream answered 2xx. */
  lemma ConsumedMeansSuccess(env: Env, services: map<Slug, Service>, clock: Time, es: seq<Event>, k: nat)
    requires k < |Run(env, Init(services, clock), es).tables.consumed|
    ensures
      var s := Run(env, Init(services, clock), es);
      var row := s.tables.consumed[k];
      exists id :: 0 <= id < |s.tasks| && Presents(s.tasks[id], row.signature) && s.tasks[id].slug == row.service
                   && s.tasks[id].status.Some? && IsSuccess(s.tasks[id].status.value)
  {
    RunIsBalanced(env, services, clock, es);
    var s := Run(env, Init(services, clock), es);
    var id := RowHasClaim(VouchedBy(env), s, k);
    assert TaskOk(VouchedBy(env), s.tasks[id]);
  }

  /** A payment shown only to calls that failed, redirected or were refused stays unconsumed. */
  lemma FailedCallsDoNotConsume(
    env: Env, services: map<Slug, Service>, clock: Time, es: seq<Event>, signature: Signature)
    requires
      var s := Run(env, Init(services, clock), es);
      forall id :: 0 <= id < |s.tasks| && Presents(s.tasks[id], signature) ==>
        s.tasks[id].status.None? || !IsSuccess(s.tasks[id].status.value)
    ensures !IsConsumed(Run(env, Init(services, clock), es).tables.consumed, signature)
  {
    var s := Run(env, Init(services, clock), es);
    if IsConsumed(s.tables.consumed, signature) {
      var k :| 0 <= k < |s.tables.consumed| && s.tables.consumed[k].signature == signature;
      ConsumedMeansSuccess(env, services, clock, es, k);
    }
  }

  // ---------------------------------------------------------------- solvency

  lemma MeteredAtMostWon(vouched: Vouched, s: State, scope: Option<Slug>)
    requires AllOk(vouched, s)
    ensures Sum(s.tasks, MeteredBy(scope)) <= Sum(s.tasks, WonBy(scope))
  {
    SumMonotone(s.tasks, MeteredBy(scope), WonBy(scope));
  }

  ghost predicate Solvent(env: Env, s: State, scope: Option<Slug>) {
    Sum(s.tables.metered, MeteredIn(scope)) <= Sum(s.tables.consumed, PaidIn(Chain(env), scope))
  }

  lemma BalancedIsSolvent(env: Env, s: State, scope: Option<Slug>)
    requires !env.allowUnverified && Balanced(VouchedBy(env), s)
    ensures Solvent(env, s, scope)
  {
    assert WonIsPaid(VouchedBy(env), s, scope) && MeterBalances(s, scope);
    MeteredAtMostWon(VouchedBy(env), s, scope);
  }

  /**
   With verification on, in every run, per service and in total, metered usage never exceeds what escrow
   received, on chain, from the transactions of the distinct consumed signatures.
   */
  lemma AlwaysSolvent(env: Env, services: map<Slug, Service>, clock: Time, es: seq<Event>, scope: Option<Slug>)
    requires !env.allowUnverified
    ensures Solvent(env, Run(env, Init(services, clock), es), scope)
    ensures Distinct(Run(env, Init(services, clock), es).tables.consumed)
  {
    RunIsBalanced(env, services, clock, es);
    BalancedIsSolvent(env, Run(env, Init(services, clock), es), scope);
  }

  /** `rows[i]` is the consumed row that paid for metered row `i`; no consumed row pays twice. */
  ghost predicate PaidBy(env: Env, t: Tables, rows: seq<nat>) {
    && |rows| == |t.metered|
    && (forall i, j :: 0 <= i < j < |rows| ==> rows[i] != rows[j])
    && forall i :: 0 <= i < |rows| ==>
         && rows[i] < |t.consumed|
         && t.metered[i].service == t.consumed[rows[i]].service
         && (env.allowUnverified || t.metered[i].amount <= OnChain(env, t.consumed[rows[i]].signature))
  }

  lemma {:induction false} RowsOfOwners(env: Env, s: State, owner: seq<nat>, n: nat) returns (rows: seq<nat>)
    requires Balanced(VouchedBy(env), s) && Owners(s, owner) && n <= |owner|
    ensures |rows| == n
    ensures forall i :: 0 <= i < n ==>
              && rows[i] < |s.tables.consumed|
              && s.tables.consumed[rows[i]]
                   == ConsumedRow(s.tasks[owner[i]].claim.signature, s.tasks[owner[i]].slug)
  {
    if n == 0 {
      rows := [];
    } else {
      var earlier := RowsOfOwners(env, s, owner, n - 1);
      assert OwnsRow(s, owner[n - 1], s.tables.metered[n - 1]);
      var k := ClaimHasRow(VouchedBy(env), s, owner[n - 1]);
      rows := earlier + [k];
    }
  }

  /** Metered rows map injectively to consumed signatures that cover them. */
  lemma MeteredRowsArePaid(env: Env, services: map<Slug, Service>, clock: Time, es: seq<Event>)
    ensures exists rows :: PaidBy(env, Run(env, Init(services, clock), es).tables, rows)
  {
    var s := Run(env, Init(services, clock), es);
    RunIsBalanced(env, services, clock, es);
    var owner :| Owners(s, owner);
    var rows := RowsOfOwners(env, s, owner, |owner|);
    forall i | 0 <= i < |owner| ensures OwnsRow(s, owner[i], s.tables.metered[i]) && TaskOk(VouchedBy(env), s.tasks[owner[i]]) {
    }
    forall i, j | 0 <= i < j < |rows| ensures rows[i] != rows[j] {
      assert OwnsRow(s, owner[i], s.tables.metered[i]) && OwnsRow(s, owner[j], s.tables.metered[j]);
      if owner[i] < owner[j] {
        ClaimsDiffer(VouchedBy(env), s, owner[i], owner[j]);
      } else {
        ClaimsDiffer(VouchedBy(env), s, owner[j], owner[i]);
      }
    }
    assert PaidBy(env, s.tables, rows);
  }

  // ---------------------------------------------------------------- conservation

  ghost function UnmeteredBy(scope: Option<Slug>): Task -> int {
    (t: Task) => if InScope(scope, t.slug) && !t.metered then ClaimAmount(t.claim) else 0
  }

  /** The amount that step `e`, taken in state `s`, fails to meter: its metering statement is dropped. */
  ghost function DroppedAt(s: State, e: Event, scope: Option<Slug>): int {
    if e.Act? && e.task < |s.tasks| && s.tasks[e.task].pc.Metering? && e.world.meter.Dropped?
       && InScope(scope, s.tasks[e.task].slug)
    then ClaimAmount(s.tasks[e.task].claim) else 0
  }

  /** What a run's dropped metering statements would have metered. */
  ghost function DroppedIn(env: Env, s: State, es: seq<Event>, scope: Option<Slug>): int {
    if es == [] then 0
    else
      var n := |es| - 1;
      DroppedIn(env, s, es[..n], scope) + DroppedAt(Run(env, s, es[..n]), es[n], scope)
  }

  /** A request's share of the losses grows exactly when its metering statement is dropped. */
  ghost predicate LosesWhatIsDropped(s: State, s': State, id: nat, world: World, scope: Option<Slug>)
    requires id < |s.tasks|
  {
    && |s'.tasks| == |s.tasks| && s'.tasks == s.tasks[id := s'.tasks[id]]
    && LostBy(scope)(s'.tasks[id]) == LostBy(scope)(s.tasks[id]) + DroppedAt(s, Act(id, world), scope)
  }

  lemma ConsumeLosesNothing(env: Env, s: State, id: nat, world: World, scope: Option<Slug>)
    requires id < |s.tasks| && TaskOk(VouchedBy(env), s.tasks[id]) && s.tasks[id].pc.Consuming?
    ensures LosesWhatIsDropped(s, Advance(env, s, id, world), id, world, scope)
  {
  }

  lemma LogLosesNothing(env: Env, s: State, id: nat, world: World, scope: Option<Slug>)
    requires id < |s.tasks| && TaskOk(VouchedBy(env), s.tasks[id]) && s.tasks[id].pc.Logging?
    ensures LosesWhatIsDropped(s, Advance(env, s, id, world), id, world, scope)
  {
  }

  /** Every other step leaves claim and metering alone, and neither comes from nor goes to the steps that hold an amount. */
  ghost predicate KeepsClaim(s: State, s': State, id: nat)
    requires id < |s.tasks|
  {
    && |s'.tasks| == |s.tasks| && s'.tasks == s.tasks[id := s'.tasks[id]]
    && s'.tasks[id].slug == s.tasks[id].slug && s'.tasks[id].claim == s.tasks[id].claim
    && s'.tasks[id].metered == s.tasks[id].metered && !Held(s'.tasks[id])
  }

  lemma AnswerKeepsClaim(env: Env, s: State, id: nat, world: World)
    requires id < |s.tasks| && TaskOk(VouchedBy(env), s.tasks[id]) && s.tasks[id].pc.Sending?
    ensures KeepsClaim(s, Advance(env, s, id, world), id)
  {
  }

  lemma PayKeepsClaim(env: Env, s: State, id: nat, world: World)
    requires id < |s.tasks| && s.tasks[id].pc.Paying?
    ensures KeepsClaim(s, Advance(env, s, id, world), id)
  {
  }

  lemma RoutingKeepsClaim(env: Env, s: State, id: nat, world: World)
    requires id < |s.tasks| && IsRouting(s.tasks[id].pc)
    ensures KeepsClaim(s, Advance(env, s, id, world), id)
  {
  }

  lemma ClosingKeepsClaim(env: Env, s: State, id: nat, world: World)
    requires id < |s.tasks| && (IsClosing(s.tasks[id].pc) || s.tasks[id].pc.Rejecting? || s.tasks[id].pc.Refunding?)
    ensures KeepsClaim(s, Advance(env, s, id, world), id)
  {
  }

  lemma ActLoses(env: Env, s: State, id: nat, world: World, scope: Option<Slug>)
    requires id < |s.tasks| && TaskOk(VouchedBy(env), s.tasks[id])
    ensures LosesWhatIsDropped(s, Advance(env, s, id, world), id, world, scope)
  {
    var pc := s.tasks[id].pc;
    if pc.Metering? {
    } else if pc.Consuming? {
      ConsumeLosesNothing(env, s, id, world, scope);
    } else if pc.Logging? {
      LogLosesNothing(env, s, id, world, scope);
    } else {
      if pc.Sending? {
        AnswerKeepsClaim(env, s, id, world);
      } else if pc.Paying? {
        PayKeepsClaim(env, s, id, world);
      } else if IsRouting(pc) {
        RoutingKeepsClaim(env, s, id, world);
      } else {
        ClosingKeepsClaim(env, s, id, world);
      }
      assert KeepsClaim(s, Advance(env, s, id, world), id);
    }
  }

  ghost predicate LossesFollow(s: State, s': State, e: Event, scope: Option<Slug>) {
    Sum(s'.tasks, LostBy(scope)) == Sum(s.tasks, LostBy(scope)) + DroppedAt(s, e, scope)
  }

  lemma ActLossesFollow(env: Env, s: State, id: nat, world: World, scope: Option<Slug>)
    requires id < |s.tasks| && TaskOk(VouchedBy(env), s.tasks[id])
    ensures LossesFollow(s, Advance(env, s, id, world), Act(id, world), scope)
  {
    ActLoses(env, s, id, world, scope);
    SumUpdate(s.tasks, id, Advance(env, s, id, world).tasks[id], LostBy(scope));
  }

  lemma StepLoses(env: Env, s: State, e: Event, scope: Option<Slug>)
    requires AllOk(VouchedBy(env), s)
    ensures LossesFollow(s, Step(env, s, e), e, scope)
  {
    match e
    case Act(id, world) =>
      if id < |s.tasks| {
        ActLossesFollow(env, s, id, world, scope);
      }
    case Arrive(gateway, slug, header) =>
    case _ =>
  }

  /** What requests won and never metered is exactly what dropped metering statements lost. */
  lemma {:induction false} LostIsDropped(
    env: Env, services: map<Slug, Service>, clock: Time, es: seq<Event>, scope: Option<Slug>)
    ensures Sum(Run(env, Init(services, clock), es).tasks, LostBy(scope)) == DroppedIn(env, Init(services, clock), es, scope)
  {
    if es != [] {
      var n := |es| - 1;
      LostIsDropped(env, services, clock, es[..n], scope);
      RunIsBalanced(env, services, clock, es[..n]);
      StepLoses(env, Run(env, Init(services, clock), es[..n]), es[n], scope);
    }
  }

  /** Every amount won is metered, still held between winning and metering, or lost by a dropped statement of the run. */
  lemma Conservation(env: Env, services: map<Slug, Service>, clock: Time, es: seq<Event>, scope: Option<Slug>)
    ensures
      var s := Run(env, Init(services, clock), es);
      Sum(s.tasks, WonBy(scope)) ==
        Sum(s.tables.metered, MeteredIn(scope)) + Sum(s.tasks, HeldBy(scope))
          + DroppedIn(env, Init(services, clock), es, scope)
  {
    var s := Run(env, Init(services, clock), es);
    RunIsBalanced(env, services, clock, es);
    LostIsDropped(env, services, clock, es, scope);
    WonSplits(VouchedBy(env), s, scope);
  }

  lemma WonSplits(vouched: Vouched, s: State, scope: Option<Slug>)
    requires Balanced(vouched, s)
    ensures Sum(s.tasks, WonBy(scope)) ==
            Sum(s.tables.metered, MeteredIn(scope)) + Sum(s.tasks, HeldBy(scope)) + Sum(s.tasks, LostBy(scope))
  {
    assert MeterBalances(s, scope);
    forall t | t in s.tasks ensures Held(t) ==> !t.metered {
      assert TaskOk(vouched, t);
    }
    SumSplit(s.tasks, WonBy(scope), MeteredBy(scope), UnmeteredBy(scope));
    SumSplit(s.tasks, UnmeteredBy(scope), HeldBy(scope), LostBy(scope));
  }

  /** An event whose database writes, if it makes any, are acknowledged. */
  predicate Lossless(e: Event) {
    e.Act? ==> e.world.consume.Acked? && e.world.log.Acked? && e.world.meter.Acked?
  }

  ghost predicate NothingLost(t: Task) {
    && !t.claim.Burned?
    && (t.claim.Won? && !t.pc.Logging? ==> t.logged)
    && (t.claim.Won? && !t.pc.Logging? && !t.pc.Metering? ==> t.metered)
  }

  lemma LosslessStep(env: Env, s: State, id: nat, world: World)
    requires id < |s.tasks| && TaskOk(VouchedBy(env), s.tasks[id]) && NothingLost(s.tasks[id])
    requires Lossless(Act(id, world))
    ensures NothingLost(Advance(env, s, id, world).tasks[id])
    ensures Advance(env, s, id, world).tasks == s.tasks[id := Advance(env, s, id, world).tasks[id]]
  {
    ActEffect(env, s, id, world);
    var t := s.tasks[id];
    if !(t.pc.Logging? || t.pc.Metering? || t.pc.Consuming?) {
      assert Effect(VouchedBy(env), t, Advance(env, s, id, world).tasks[id], s.tables, Advance(env, s, id, world).tables);
    }
  }

  lemma {:induction false} LosslessRun(env: Env, services: map<Slug, Service>, clock: Time, es: seq<Event>)
    requires forall e :: e in es ==> Lossless(e)
    ensures forall i :: 0 <= i < |Run(env, Init(services, clock), es).tasks| ==>
              NothingLost(Run(env, Init(services, clock), es).tasks[i])
  {
    if es != [] {
      var n := |es| - 1;
      var s := Run(env, Init(services, clock), es[..n]);
      LosslessRun(env, services, clock, es[..n]);
      RunIsBalanced(env, services, clock, es[..n]);
      if es[n].Act? && es[n].task < |s.tasks| {
        assert es[n] in es;
        LosslessStep(env, s, es[n].task, es[n].world);
      }
    }
  }

  /**
   When no write was lost and every request has finished, the call log, the metered table and the
   consumed signatures agree: equal totals, and one "paid" log row per consumed signature.
   */
  lemma TablesAgreeAtRest(env: Env, services: map<Slug, Service>, clock: Time, es: seq<Event>)
    requires forall e :: e in es ==> Lossless(e)
    requires forall t :: t in Run(env, Init(services, clock), es).tasks ==> t.pc.Finished?
    ensures
      var t := Run(env, Init(services, clock), es).tables;
      && (forall scope :: Sum(t.logs, ChargedIn(scope)) == Sum(t.metered, MeteredIn(scope)))
      && (forall signature, service ::
            Sum(t.logs, PaidLogAs(signature, service)) == Sum(t.consumed, ConsumedAs(signature, service)) <= 1)
  {
    var s := Run(env, Init(services, clock), es);
    LosslessRun(env, services, clock, es);
    RunIsBalanced(env, services, clock, es);
    forall scope ensures Sum(s.tables.logs, ChargedIn(scope)) == Sum(s.tables.metered, MeteredIn(scope)) {
      assert MeterBalances(s, scope) && LogBalances(s, scope);
      SumMonotone(s.tasks, MeteredBy(scope), LoggedBy(scope));
      SumMonotone(s.tasks, LoggedBy(scope), MeteredBy(scope));
    }
    forall signature, service
      ensures Sum(s.tables.logs, PaidLogAs(signature, service))
                == Sum(s.tables.consumed, ConsumedAs(signature, service)) <= 1
    {
      assert ClaimsMatchRows(s, signature, service) && PaidLogsMatch(s, signature, service);
      SumMonotone(s.tasks, ClaimedAs(signature, service), LoggedAs(signature, service));
      SumMonotone(s.tasks, LoggedAs(signature, service), ClaimedAs(signature, service));
      ConsumedAtMostOnce(s, signature, service);
    }
  }
}

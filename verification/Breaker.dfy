/** The circuit breaker over whole runs. */
module Breaker {
  import opened Common
  import opened Meter
  import opened Proxy

  /** Step `e` counts a failure against `slug`, and the statement takes effect. */
  predicate RecordsFailure(s: State, e: Event, slug: Slug) {
    && e.Act? && e.task < |s.tasks|
    && s.tasks[e.task].pc.Counting? && s.tasks[e.task].slug == slug
    && !e.world.count.Dropped? && CanCountFailure(s.tables, slug)
  }

  /** Step `e` closes the breaker of `slug`, and the statement takes effect. */
  predicate Closes(s: State, e: Event, slug: Slug) {
    && e.Act? && e.task < |s.tasks|
    && s.tasks[e.task].pc.Closing? && s.tasks[e.task].slug == slug
    && !e.world.close.Dropped?
  }

  /** Step `e` is a health probe of `slug` that takes effect. */
  predicate ProbesRow(s: State, e: Event, slug: Slug) {
    && e.Probe? && e.slug == slug && slug in s.tables.services
    && (e.healthy || s.tables.services[slug].failures < MAX_INT4)
  }

  /**
   What the history of a service comes to: the failures recorded, by calls or probes, since the last close or
   healthy probe; the reopen time of the last call failure since the last close; and of the last one that
   found enough failures.
   */
  datatype Tally = Tally(failures: nat, lastReopen: Option<Time>, trippedUntil: Option<Time>)

  ghost function History(env: Env, s: State, es: seq<Event>, slug: Slug): Tally {
    if es == [] then Tally(0, None, None)
    else
      var earlier, e := es[..|es| - 1], es[|es| - 1];
      Counted(Run(env, s, earlier), History(env, s, earlier, slug), e, slug, env.threshold)
  }

  /** The tally after one more step, taken from state `before`. */
  function Counted(before: State, tally: Tally, e: Event, slug: Slug, threshold: nat): Tally {
    if RecordsFailure(before, e, slug) then
      var n, reopenAt := tally.failures + 1, Some(before.tasks[e.task].pc.reopenAt);
      Tally(n, reopenAt, if n >= OpensAt(threshold) then reopenAt else tally.trippedUntil)
    else if Closes(before, e, slug) then Tally(0, None, None)
    else if ProbesRow(before, e, slug) then tally.(failures := if e.healthy then 0 else tally.failures + 1)
    else tally
  }

  predicate NeverFailed(row: Service) {
    row.failures == 0 && !row.breakerOpen && row.breakerUntil.None?
  }

  ghost predicate RowMatches(row: Service, tally: Tally) {
    && row.failures == tally.failures
    && (row.breakerOpen <==> tally.trippedUntil.Some?)
    && row.breakerUntil == tally.trippedUntil
  }

  ghost predicate Tracks(t: Tables, tally: Tally, slug: Slug) {
    if slug in t.services then RowMatches(t.services[slug], tally) else tally == Tally(0, None, None)
  }

  ghost predicate TracksHistory(env: Env, s: State, es: seq<Event>, slug: Slug) {
    Tracks(Run(env, s, es).tables, History(env, s, es, slug), slug)
  }

  lemma TrackStep(env: Env, s: State, es: seq<Event>, e: Event, slug: Slug)
    requires TracksHistory(env, s, es, slug)
    ensures TracksHistory(env, s, es + [e], slug)
  {
    assert (es + [e])[..|es|] == es;
    StepTracks(env, Run(env, s, es), e, History(env, s, es, slug), slug);
  }

  lemma StepTracks(env: Env, before: State, e: Event, tally: Tally, slug: Slug)
    requires Tracks(before.tables, tally, slug)
    ensures Tracks(Step(env, before, e).tables, Counted(before, tally, e, slug, env.threshold), slug)
  {
    if e.Act? && e.task < |before.tasks| {
      ServicesMove(env, before, e.task, e.world, slug);
    }
  }

  /** What one step of a request may do to one service row. */
  ghost predicate MovesRow(env: Env, s: State, s': State, id: nat, world: World, slug: Slug)
    requires id < |s.tasks|
  {
    var e := Act(id, world);
    && (slug in s'.tables.services <==> slug in s.tables.services)
    && (slug in s.tables.services ==>
          s'.tables.services[slug] ==
            if RecordsFailure(s, e, slug) then
              CountedFailure(s.tables.services[slug], s.tasks[id].pc.reopenAt, env.threshold)
            else if Closes(s, e, slug) then ClosedRow(s.tables.services[slug])
            else s.tables.services[slug])
  }

  lemma PaymentMovesNoRow(env: Env, s: State, id: nat, world: World)
    requires id < |s.tasks|
    requires s.tasks[id].pc.Paying? || s.tasks[id].pc.Sending?
    ensures Advance(env, s, id, world).tables == s.tables
  {
  }

  lemma BookkeepingMovesNoRow(env: Env, s: State, id: nat, world: World)
    requires id < |s.tasks|
    requires s.tasks[id].pc.Consuming? || s.tasks[id].pc.Logging? || s.tasks[id].pc.Metering?
    ensures Advance(env, s, id, world).tables.services == s.tables.services
  {
  }

  lemma RoutingMovesNoRow(env: Env, s: State, id: nat, world: World)
    requires id < |s.tasks|
    requires s.tasks[id].pc.LookingUp? || s.tasks[id].pc.Loading? || s.tasks[id].pc.Storing?
      || s.tasks[id].pc.Gating? || s.tasks[id].pc.Preparing? || s.tasks[id].pc.Rejecting?
      || s.tasks[id].pc.Refunding? || s.tasks[id].pc.Invalidating? || s.tasks[id].pc.Finished?
    ensures Advance(env, s, id, world).tables.services == s.tables.services
  {
  }

  lemma ServicesMove(env: Env, s: State, id: nat, world: World, slug: Slug)
    requires id < |s.tasks|
    ensures MovesRow(env, s, Advance(env, s, id, world), id, world, slug)
  {
    var pc := s.tasks[id].pc;
    if pc.Counting? || pc.Closing? {
    } else if pc.Paying? || pc.Sending? {
      PaymentMovesNoRow(env, s, id, world);
    } else if pc.Consuming? || pc.Logging? || pc.Metering? {
      BookkeepingMovesNoRow(env, s, id, world);
    } else {
      RoutingMovesNoRow(env, s, id, world);
    }
  }

  /**
   In every run from closed breakers, health probes included, a row counts the failures since its last close or
   healthy probe; it is open exactly when some call failure since the last close found enough of them, and
   reopens when the last such failure said.
   */
  lemma {:induction false} BreakerFollowsHistory(
    env: Env, services: map<Slug, Service>, clock: Time, es: seq<Event>, slug: Slug)
    requires slug in services ==> NeverFailed(services[slug])
    ensures TracksHistory(env, Init(services, clock), es, slug)
  {
    if es != [] {
      var n := |es| - 1;
      assert es == es[..n] + [es[n]];
      BreakerFollowsHistory(env, services, clock, es[..n], slug);
      TrackStep(env, Init(services, clock), es[..n], es[n], slug);
    }
  }

  // ---------------------------------------------------------------- who moves a breaker

  ghost predicate OutcomeOk(t: Task) {
    match t.pc
    case Consuming(_, status) => t.status == Some(status)
    case Logging(_, status) => t.status == Some(status)
    case Metering(status) => t.status == Some(status)
    case Closing => t.status.Some? && IsSuccess(t.status.value)
    case Refunding(_) => t.status.None? || IsServerError(t.status.value)
    case Counting(_) => t.status.None? || IsServerError(t.status.value)
    case Invalidating => t.status.None? || IsServerError(t.status.value)
    case Rejecting(_) => t.status.None?
    case Finished => true
    case _ => t.status.None?
  }

  ghost predicate KeepsOutcome(s: State, s': State, id: nat)
    requires id < |s.tasks|
  {
    |s'.tasks| == |s.tasks| && s'.tasks == s.tasks[id := s'.tasks[id]] && OutcomeOk(s'.tasks[id])
  }

  lemma OutcomeBeforeAnswer(env: Env, s: State, id: nat, world: World)
    requires id < |s.tasks| && OutcomeOk(s.tasks[id])
    requires s.tasks[id].pc.LookingUp? || s.tasks[id].pc.Loading? || s.tasks[id].pc.Storing?
      || s.tasks[id].pc.Gating? || s.tasks[id].pc.Preparing? || s.tasks[id].pc.Rejecting?
    ensures KeepsOutcome(s, Advance(env, s, id, world), id)
  {
  }

  lemma OutcomeAtAnswer(env: Env, s: State, id: nat, world: World)
    requires id < |s.tasks| && OutcomeOk(s.tasks[id])
    requires s.tasks[id].pc.Sending?
    ensures KeepsOutcome(s, Advance(env, s, id, world), id)
  {
  }

  lemma OutcomeAtConsume(env: Env, s: State, id: nat, world: World)
    requires id < |s.tasks| && OutcomeOk(s.tasks[id])
    requires s.tasks[id].pc.Consuming?
    ensures KeepsOutcome(s, Advance(env, s, id, world), id)
  {
  }

  lemma OutcomeAfterAnswer(env: Env, s: State, id: nat, world: World)
    requires id < |s.tasks| && OutcomeOk(s.tasks[id])
    requires s.tasks[id].pc.Logging? || s.tasks[id].pc.Metering? || s.tasks[id].pc.Closing?
      || s.tasks[id].pc.Refunding? || s.tasks[id].pc.Counting? || s.tasks[id].pc.Invalidating?
      || s.tasks[id].pc.Finished?
    ensures KeepsOutcome(s, Advance(env, s, id, world), id)
  {
  }

  lemma OutcomeStep(env: Env, s: State, id: nat, world: World)
    requires id < |s.tasks| && OutcomeOk(s.tasks[id])
    ensures KeepsOutcome(s, Advance(env, s, id, world), id)
  {
    var pc := s.tasks[id].pc;
    if pc.Paying? {
    } else if pc.Sending? {
      OutcomeAtAnswer(env, s, id, world);
    } else if pc.Consuming? {
      OutcomeAtConsume(env, s, id, world);
    } else if pc.Logging? || pc.Metering? || pc.Closing? || pc.Refunding? || pc.Counting? || pc.Invalidating? || pc.Finished? {
      OutcomeAfterAnswer(env, s, id, world);
    } else {
      OutcomeBeforeAnswer(env, s, id, world);
    }
  }

  lemma {:induction false} OutcomesKept(env: Env, services: map<Slug, Service>, clock: Time, es: seq<Event>)
    ensures forall i :: 0 <= i < |Run(env, Init(services, clock), es).tasks| ==>
              OutcomeOk(Run(env, Init(services, clock), es).tasks[i])
  {
    if es != [] {
      var n := |es| - 1;
      OutcomesKept(env, services, clock, es[..n]);
      var s := Run(env, Init(services, clock), es[..n]);
      if es[n].Act? && es[n].task < |s.tasks| {
        OutcomeStep(env, s, es[n].task, es[n].world);
      }
    }
  }

  /** The breaker columns of a row. */
  function Columns(row: Service): (bool, Option<Time>, int) {
    (row.breakerOpen, row.breakerUntil, row.failures)
  }

  /**
   In every run, a step changes a listed row's breaker columns only as the close of a call answered 2xx,
   as the failure record of a call answered 5xx or not at all, or as a health probe. Calls answered
   3xx or 4xx change nothing.
   */
  lemma OnlyOutcomesMoveBreaker(
    env: Env, services: map<Slug, Service>, clock: Time, es: seq<Event>, e: Event, slug: Slug)
    requires slug in Run(env, Init(services, clock), es).tables.services
    ensures
      var s := Run(env, Init(services, clock), es);
      var s' := Step(env, s, e);
      && slug in s'.tables.services
      && (Columns(s'.tables.services[slug]) != Columns(s.tables.services[slug]) && !e.Probe? ==>
            && e.Act? && e.task < |s.tasks| && s.tasks[e.task].slug == slug
            && var status := s.tasks[e.task].status;
               || (Closes(s, e, slug) && status.Some? && IsSuccess(status.value))
               || (RecordsFailure(s, e, slug) && (status.None? || IsServerError(status.value))))
  {
    var s := Run(env, Init(services, clock), es);
    OutcomesKept(env, services, clock, es);
    if e.Act? && e.task < |s.tasks| {
      ServicesMove(env, s, e.task, e.world, slug);
      assert OutcomeOk(s.tasks[e.task]);
    }
  }

  // ---------------------------------------------------------------- the health checker

  /** Whether a probe leaves counter and breaker of a row whose columns agree in agreement. */
  predicate ProbeIsHarmless(t: Tables, e: Event, threshold: nat) {
    e.Probe? && e.slug in t.services ==>
      var row := t.services[e.slug];
      if e.healthy then !row.breakerOpen
      else row.breakerOpen || row.failures + 1 < OpensAt(threshold) || row.failures == MAX_INT4
  }

  /**
   The health checker shares the failure counter but not the breaker columns: a probe keeps counter and
   breaker in agreement exactly when it neither clears an open breaker's count nor fills a closed one's.
   */
  lemma ProbeKeepsAgreementExactly(t: Tables, slug: Slug, healthy: bool, threshold: nat)
    requires slug in t.services && Consistent(t.services[slug], threshold)
    ensures Consistent(Probed(t, slug, healthy).services[slug], threshold) <==>
            ProbeIsHarmless(t, Probe(slug, healthy), threshold)
  {
  }

  ghost predicate AllConsistent(t: Tables, threshold: nat) {
    forall slug :: slug in t.services ==> Consistent(t.services[slug], threshold)
  }

  lemma StepKeepsAgreementExactly(env: Env, s: State, e: Event)
    requires AllConsistent(s.tables, env.threshold)
    ensures AllConsistent(Step(env, s, e).tables, env.threshold) <==> ProbeIsHarmless(s.tables, e, env.threshold)
  {
    match e
    case Act(id, world) =>
      if id < |s.tasks| {
        forall slug | slug in Advance(env, s, id, world).tables.services
          ensures Consistent(Advance(env, s, id, world).tables.services[slug], env.threshold)
        {
          ActKeepsAgreement(env, s, id, world, slug);
        }
      }
    case Probe(slug, healthy) =>
      if slug in s.tables.services {
        ProbeKeepsAgreementExactly(s.tables, slug, healthy, env.threshold);
        assert slug in Probed(s.tables, slug, healthy).services;
      }
    case _ =>
  }

  lemma ActKeepsAgreement(env: Env, s: State, id: nat, world: World, slug: Slug)
    requires id < |s.tasks| && AllConsistent(s.tables, env.threshold)
    requires slug in Advance(env, s, id, world).tables.services
    ensures Consistent(Advance(env, s, id, world).tables.services[slug], env.threshold)
  {
    ServicesMove(env, s, id, world, slug);
    if RecordsFailure(s, Act(id, world), slug) {
      StatementsKeepConsistent(s.tables.services[slug], s.tasks[id].pc.reopenAt, env.threshold);
    } else {
      StatementsKeepConsistent(s.tables.services[slug], 0, env.threshold);
    }
  }

  ghost predicate HarmlessAt(env: Env, s: State, es: seq<Event>, k: nat)
    requires k < |es|
  {
    ProbeIsHarmless(Run(env, s, es[..k]).tables, es[k], env.threshold)
  }

  ghost predicate AgreesAt(env: Env, s: State, es: seq<Event>, k: nat)
    requires k <= |es|
  {
    AllConsistent(Run(env, s, es[..k]).tables, env.threshold)
  }

  /**
   Along a run from closed breakers every row is open exactly while its counter is at the threshold, from first to
   last, if and only if every probe of the run is harmless where it comes.
   */
  lemma AgreementExactly(env: Env, services: map<Slug, Service>, clock: Time, es: seq<Event>)
    requires forall slug :: slug in services ==> NeverFailed(services[slug])
    ensures (forall k :: 0 <= k <= |es| ==> AgreesAt(env, Init(services, clock), es, k))
       <==> forall k :: 0 <= k < |es| ==> HarmlessAt(env, Init(services, clock), es, k)
  {
    var s := Init(services, clock);
    if forall k :: 0 <= k <= |es| ==> AgreesAt(env, s, es, k) {
      forall k | 0 <= k < |es| ensures HarmlessAt(env, s, es, k) {
        assert AgreesAt(env, s, es, k) && AgreesAt(env, s, es, k + 1);
        assert es[..k + 1][..k] == es[..k];
        StepKeepsAgreementExactly(env, Run(env, s, es[..k]), es[k]);
      }
    }
    if forall k :: 0 <= k < |es| ==> HarmlessAt(env, s, es, k) {
      forall k | 0 <= k <= |es| ensures AgreesAt(env, s, es, k) {
        HarmlessPrefixAgrees(env, services, clock, es, k);
      }
    }
  }

  lemma {:induction false} HarmlessPrefixAgrees(
    env: Env, services: map<Slug, Service>, clock: Time, es: seq<Event>, k: nat)
    requires forall slug :: slug in services ==> NeverFailed(services[slug])
    requires k <= |es| && forall j :: 0 <= j < |es| ==> HarmlessAt(env, Init(services, clock), es, j)
    ensures AgreesAt(env, Init(services, clock), es, k)
    decreases k
  {
    if k > 0 {
      HarmlessPrefixAgrees(env, services, clock, es, k - 1);
      assert HarmlessAt(env, Init(services, clock), es, k - 1);
      assert es[..k][..k - 1] == es[..k - 1];
      StepKeepsAgreementExactly(env, Run(env, Init(services, clock), es[..k - 1]), es[k - 1]);
    }
  }

  /** In such a run an open breaker reopens when its last call failure said. */
  lemma {:induction false} LastFailureReopens(
    env: Env, services: map<Slug, Service>, clock: Time, es: seq<Event>, slug: Slug, k: nat)
    requires forall name :: name in services ==> NeverFailed(services[name])
    requires k <= |es| && forall j :: 0 <= j < |es| ==> HarmlessAt(env, Init(services, clock), es, j)
    ensures
      var tally := History(env, Init(services, clock), es[..k], slug);
      tally.trippedUntil.Some? ==> tally.trippedUntil == tally.lastReopen
    decreases k
  {
    if k > 0 {
      var s := Init(services, clock);
      LastFailureReopens(env, services, clock, es, slug, k - 1);
      HarmlessPrefixAgrees(env, services, clock, es, k - 1);
      BreakerFollowsHistory(env, services, clock, es[..k - 1], slug);
      assert es[..k][..k - 1] == es[..k - 1];
      TripIsLast(env, Run(env, s, es[..k - 1]), History(env, s, es[..k - 1], slug), es[k - 1], slug);
    }
  }

  lemma TripIsLast(env: Env, before: State, tally: Tally, e: Event, slug: Slug)
    requires Tracks(before.tables, tally, slug) && AllConsistent(before.tables, env.threshold)
    requires tally.trippedUntil.Some? ==> tally.trippedUntil == tally.lastReopen
    ensures
      var after := Counted(before, tally, e, slug, env.threshold);
      after.trippedUntil.Some? ==> after.trippedUntil == after.lastReopen
  {
  }

  /**
   After any such run, a call failure recorded on an open row keeps it open until that failure's own reopen time,
   so one failure after expiry is enough; and a close leaves the row as if it had never failed.
   */
  lemma OneFailureReopens(
    env: Env, services: map<Slug, Service>, clock: Time, es: seq<Event>, e: Event, slug: Slug)
    requires forall name :: name in services ==> NeverFailed(services[name])
    requires forall j :: 0 <= j < |es| ==> HarmlessAt(env, Init(services, clock), es, j)
    ensures
      var s := Run(env, Init(services, clock), es);
      var s' := Step(env, s, e);
      && (RecordsFailure(s, e, slug) && s.tables.services[slug].breakerOpen ==>
            && slug in s'.tables.services && s'.tables.services[slug].breakerOpen
            && s'.tables.services[slug].breakerUntil == Some(s.tasks[e.task].pc.reopenAt))
      && (Closes(s, e, slug) && slug in s.tables.services ==>
            slug in s'.tables.services && NeverFailed(s'.tables.services[slug]))
  {
    var s := Run(env, Init(services, clock), es);
    HarmlessPrefixAgrees(env, services, clock, es, |es|);
    assert es[..|es|] == es;
    if slug in s.tables.services && (RecordsFailure(s, e, slug) || Closes(s, e, slug)) {
      ServicesMove(env, s, e.task, e.world, slug);
    }
  }
}

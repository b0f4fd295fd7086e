/** The books balance in every run: the invariants behind exactly-once charging, conservation and solvency. */
module Books {
  import opened Common
  import opened Meter
  import opened Proxy
  import opened Billing

  // ---------------------------------------------------------------- invariants

  ghost predicate AllOk(vouched: Vouched, s: State) {
    forall i :: 0 <= i < |s.tasks| ==> TaskOk(vouched, s.tasks[i])
  }

  ghost predicate MeterBalances(s: State, scope: Option<Slug>) {
    Sum(s.tables.metered, MeteredIn(scope)) == Sum(s.tasks, MeteredBy(scope))
  }

  ghost predicate LogBalances(s: State, scope: Option<Slug>) {
    Sum(s.tables.logs, ChargedIn(scope)) == Sum(s.tasks, LoggedBy(scope))
  }

  ghost predicate ClaimsMatchRows(s: State, signature: Signature, service: Slug) {
    Sum(s.tables.consumed, ConsumedAs(signature, service)) == Sum(s.tasks, ClaimedAs(signature, service))
  }

  ghost predicate PaidLogsMatch(s: State, signature: Signature, service: Slug) {
    Sum(s.tables.logs, PaidLogAs(signature, service)) == Sum(s.tasks, LoggedAs(signature, service))
  }

  ghost predicate WonIsPaid(vouched: Vouched, s: State, scope: Option<Slug>) {
    vouched.Some? ==> Sum(s.tasks, WonBy(scope)) <= Sum(s.tables.consumed, PaidIn(vouched.value, scope))
  }

  /** `owner` names, for each metered row, the one request that wrote it. */
  ghost predicate Owners(s: State, owner: seq<nat>) {
    && |owner| == |s.tables.metered|
    && (forall i, j :: 0 <= i < j < |owner| ==> owner[i] != owner[j])
    && forall i :: 0 <= i < |owner| ==> OwnsRow(s, owner[i], s.tables.metered[i])
  }

  ghost predicate OwnsRow(s: State, id: nat, row: MeteredRow) {
    && id < |s.tasks| && s.tasks[id].metered && s.tasks[id].claim.Won?
    && row == MeteredRow(s.tasks[id].slug, s.tasks[id].claim.amount)
  }

  ghost predicate Balanced(vouched: Vouched, s: State) {
    && AllOk(vouched, s)
    && Distinct(s.tables.consumed)
    && (forall scope :: MeterBalances(s, scope))
    && (forall scope :: LogBalances(s, scope))
    && (forall signature, service :: ClaimsMatchRows(s, signature, service))
    && (forall signature, service :: PaidLogsMatch(s, signature, service))
    && (forall scope :: WonIsPaid(vouched, s, scope))
    && exists owner :: Owners(s, owner)
  }

  // ---------------------------------------------------------------- one step of one request

  lemma MeterStep(vouched: Vouched, s: State, s': State, id: nat, scope: Option<Slug>)
    requires id < |s.tasks| && GoodStep(vouched, s, s', id) && TaskOk(vouched, s.tasks[id])
    requires MeterBalances(s, scope)
    ensures MeterBalances(s', scope)
  {
    SumUpdate(s.tasks, id, s'.tasks[id], MeteredBy(scope));
    if s'.tables.metered != s.tables.metered {
      SumAppend(s.tables.metered, MeteredRow(s.tasks[id].slug, s.tasks[id].claim.amount), MeteredIn(scope));
    }
  }

  lemma LogStep(vouched: Vouched, s: State, s': State, id: nat, scope: Option<Slug>)
    requires id < |s.tasks| && GoodStep(vouched, s, s', id)
    requires LogBalances(s, scope)
    ensures LogBalances(s', scope)
  {
    SumUpdate(s.tasks, id, s'.tasks[id], LoggedBy(scope));
    if s'.tables.logs != s.tables.logs {
      SumAppend(s.tables.logs, s'.tables.logs[|s.tables.logs|], ChargedIn(scope));
    }
  }

  lemma PaidLogStep(vouched: Vouched, s: State, s': State, id: nat, signature: Signature, service: Slug)
    requires id < |s.tasks| && GoodStep(vouched, s, s', id)
    requires PaidLogsMatch(s, signature, service)
    ensures PaidLogsMatch(s', signature, service)
  {
    SumUpdate(s.tasks, id, s'.tasks[id], LoggedAs(signature, service));
    if s'.tables.logs != s.tables.logs {
      SumAppend(s.tables.logs, s'.tables.logs[|s.tables.logs|], PaidLogAs(signature, service));
    }
  }

  lemma ClaimStep(vouched: Vouched, s: State, s': State, id: nat, signature: Signature, service: Slug)
    requires id < |s.tasks| && GoodStep(vouched, s, s', id)
    requires ClaimsMatchRows(s, signature, service)
    ensures ClaimsMatchRows(s', signature, service)
  {
    var t, t' := s.tasks[id], s'.tasks[id];
    SumUpdate(s.tasks, id, t', ClaimedAs(signature, service));
    if s'.tables.consumed != s.tables.consumed {
      SumAppend(s.tables.consumed, ConsumedRow(t'.claim.signature, t.slug), ConsumedAs(signature, service));
    }
  }

  lemma WonStep(vouched: Vouched, s: State, s': State, id: nat, scope: Option<Slug>)
    requires id < |s.tasks| && GoodStep(vouched, s, s', id)
    requires WonIsPaid(vouched, s, scope)
    ensures WonIsPaid(vouched, s', scope)
  {
    if vouched.Some? {
      var t, t' := s.tasks[id], s'.tasks[id];
      SumUpdate(s.tasks, id, t', WonBy(scope));
      if s'.tables.consumed != s.tables.consumed {
        SumAppend(s.tables.consumed, ConsumedRow(t'.claim.signature, t.slug), PaidIn(vouched.value, scope));
      }
    }
  }

  lemma OwnerStep(vouched: Vouched, s: State, s': State, id: nat, owner: seq<nat>)
    requires id < |s.tasks| && GoodStep(vouched, s, s', id) && TaskOk(vouched, s.tasks[id])
    requires Owners(s, owner)
    ensures exists owner' :: Owners(s', owner')
  {
    forall i | 0 <= i < |owner| ensures OwnsRow(s', owner[i], s.tables.metered[i]) {
      assert OwnsRow(s, owner[i], s.tables.metered[i]);
    }
    if s'.tables.metered == s.tables.metered {
      assert Owners(s', owner);
    } else {
      assert forall i :: 0 <= i < |owner| ==> OwnsRow(s, owner[i], s.tables.metered[i]) && owner[i] != id;
      assert Owners(s', owner + [id]);
    }
  }

  lemma ActKeepsBalanced(env: Env, s: State, id: nat, world: World)
    requires id < |s.tasks| && Balanced(VouchedBy(env), s)
    ensures Balanced(VouchedBy(env), Advance(env, s, id, world))
  {
    var vouched := VouchedBy(env);
    var s' := Advance(env, s, id, world);
    ActEffect(env, s, id, world);
    forall scope ensures MeterBalances(s', scope) && LogBalances(s', scope) && WonIsPaid(vouched, s', scope) {
      MeterStep(vouched, s, s', id, scope);
      LogStep(vouched, s, s', id, scope);
      WonStep(vouched, s, s', id, scope);
    }
    forall signature, service
      ensures ClaimsMatchRows(s', signature, service) && PaidLogsMatch(s', signature, service)
    {
      ClaimStep(vouched, s, s', id, signature, service);
      PaidLogStep(vouched, s, s', id, signature, service);
    }
    var owner :| Owners(s, owner);
    OwnerStep(vouched, s, s', id, owner);
    DistinctKept(vouched, s, s', id);
  }

  lemma DistinctKept(vouched: Vouched, s: State, s': State, id: nat)
    requires id < |s.tasks| && GoodStep(vouched, s, s', id)
    requires Distinct(s.tables.consumed)
    ensures Distinct(s'.tables.consumed)
  {
  }

  // ---------------------------------------------------------------- every event, every run

  lemma ArriveKeepsBalanced(vouched: Vouched, s: State, t: Task)
    requires Balanced(vouched, s)
    requires t.claim.NoClaim? && !t.metered && !t.logged && TaskOk(vouched, t)
    ensures Balanced(vouched, s.(tasks := s.tasks + [t]))
  {
    var s' := s.(tasks := s.tasks + [t]);
    forall scope ensures MeterBalances(s', scope) && LogBalances(s', scope) && WonIsPaid(vouched, s', scope) {
      assert MeterBalances(s, scope) && LogBalances(s, scope) && WonIsPaid(vouched, s, scope);
      SumAppend(s.tasks, t, MeteredBy(scope));
      SumAppend(s.tasks, t, LoggedBy(scope));
      SumAppend(s.tasks, t, WonBy(scope));
    }
    forall signature, service
      ensures ClaimsMatchRows(s', signature, service) && PaidLogsMatch(s', signature, service)
    {
      assert ClaimsMatchRows(s, signature, service) && PaidLogsMatch(s, signature, service);
      SumAppend(s.tasks, t, ClaimedAs(signature, service));
      SumAppend(s.tasks, t, LoggedAs(signature, service));
    }
    var owner :| Owners(s, owner);
    forall i | 0 <= i < |owner| ensures OwnsRow(s', owner[i], s.tables.metered[i]) {
      assert OwnsRow(s, owner[i], s.tables.metered[i]);
    }
    assert Owners(s', owner);
  }

  /** Steps that touch neither requests nor the three append-only tables keep the books. */
  lemma OutsideKeepsBalanced(vouched: Vouched, s: State, s': State)
    requires Balanced(vouched, s)
    requires s'.tasks == s.tasks && SameRows(s.tables, s'.tables)
    ensures Balanced(vouched, s')
  {
    forall scope ensures MeterBalances(s', scope) && LogBalances(s', scope) && WonIsPaid(vouched, s', scope) {
      assert MeterBalances(s, scope) && LogBalances(s, scope) && WonIsPaid(vouched, s, scope);
    }
    forall signature, service
      ensures ClaimsMatchRows(s', signature, service) && PaidLogsMatch(s', signature, service)
    {
      assert ClaimsMatchRows(s, signature, service) && PaidLogsMatch(s, signature, service);
    }
    var owner :| Owners(s, owner);
    forall i | 0 <= i < |owner| ensures OwnsRow(s', owner[i], s.tables.metered[i]) {
      assert OwnsRow(s, owner[i], s.tables.metered[i]);
    }
    assert Owners(s', owner);
  }

  lemma StepKeepsBalanced(env: Env, s: State, e: Event)
    requires Balanced(VouchedBy(env), s)
    ensures Balanced(VouchedBy(env), Step(env, s, e))
  {
    match e
    case Act(id, world) =>
      if id < |s.tasks| {
        ActKeepsBalanced(env, s, id, world);
      }
    case Arrive(gateway, slug, header) =>
      ArriveKeepsBalanced(VouchedBy(env), s, Task(gateway, slug, header, LookingUp, None, NoClaim, false, false));
    case _ => OutsideKeepsBalanced(VouchedBy(env), s, Step(env, s, e));
  }

  lemma InitIsBalanced(vouched: Vouched, services: map<Slug, Service>, clock: Time)
    ensures Balanced(vouched, Init(services, clock))
  {
    assert Owners(Init(services, clock), []);
  }

  /** So is any state without requests and without rows, whatever its caches. */
  lemma StartIsBalanced(vouched: Vouched, s: State)
    requires s.tasks == [] && SameRows(s.tables, Tables(s.tables.services, [], [], []))
    ensures Balanced(vouched, s)
  {
    InitIsBalanced(vouched, s.tables.services, s.clock);
    OutsideKeepsBalanced(vouched, Init(s.tables.services, s.clock), s);
  }

  lemma {:induction false} RunKeepsBalanced(env: Env, s: State, es: seq<Event>)
    requires Balanced(VouchedBy(env), s)
    ensures Balanced(VouchedBy(env), Run(env, s, es))
  {
    if es != [] {
      RunKeepsBalanced(env, s, es[..|es| - 1]);
      StepKeepsBalanced(env, Run(env, s, es[..|es| - 1]), es[|es| - 1]);
    }
  }

  lemma RunIsBalanced(env: Env, services: map<Slug, Service>, clock: Time, es: seq<Event>)
    ensures Balanced(VouchedBy(env), Run(env, Init(services, clock), es))
  {
    InitIsBalanced(VouchedBy(env), services, clock);
    RunKeepsBalanced(env, Init(services, clock), es);
  }
}

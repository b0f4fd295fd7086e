/**
 The gateway's tables and the SQL statements of meter.rs. Each statement is one
 atomic step on a `Tables` value; class `MeterStore` runs the same statements
 in place. A service is named by its slug, which is unique and never renamed.
 */
module Meter {
  import opened Common
  import X402

  type Slug = string
  type Signature = string
  type Time = int

  /** The columns of a service_listings row that the gateway reads or writes. */
  datatype Service = Service(
    price: int, proxyEnabled: bool,
    breakerOpen: bool, breakerUntil: Option<Time>, failures: int)

  datatype ConsumedRow = ConsumedRow(signature: Signature, service: Slug)

  datatype MeteredRow = MeteredRow(service: Slug, amount: int)

  /** The values of the payment_status column: 'none', 'client_error', 'paid', and so on. */
  datatype PaymentStatus = Unbilled | ClientError | Paid | PaymentRequired | Refunded | FailedCall

  /** The values of the error_reason column, `Verification` carrying the verifier's own code. */
  datatype Reason =
    | PayloadMalformed | Verification(code: X402.Code)
    | UnsafeOrigin | BreakerOpen | DecryptFailed | InjectionFailed
    | UpstreamTimeout | UpstreamConnectFailed | UpstreamError | Upstream5xx
    | MissingSignature | ReplayedSignature | ConsumeFailed

  datatype LogRow = LogRow(
    service: Slug, upstreamStatus: Option<int>, gatewayStatus: int, charged: int,
    payment: PaymentStatus, signature: Option<Signature>, error: Option<Reason>)

  datatype Tables = Tables(
    services: map<Slug, Service>, consumed: seq<ConsumedRow>, metered: seq<MeteredRow>, logs: seq<LogRow>)

  /** The largest value of the 32-bit column `consecutive_failures`. */
  const MAX_INT4 := 0x7FFF_FFFF

  /** `threshold.max(1) as i32` for a u32 threshold: large thresholds wrap to negative numbers. */
  function ThresholdParameter(threshold: nat): int {
    var atLeastOne := if threshold < 1 then 1 else threshold;
    var low := atLeastOne % 0x1_0000_0000;
    if low > MAX_INT4 then low - 0x1_0000_0000 else low
  }

  predicate IsConsumed(consumed: seq<ConsumedRow>, signature: Signature) {
    exists i | 0 <= i < |consumed| :: consumed[i].signature == signature
  }

  /** The primary key of gateway_consumed_payments. */
  ghost predicate Distinct(consumed: seq<ConsumedRow>) {
    forall i, j :: 0 <= i < j < |consumed| ==> consumed[i].signature != consumed[j].signature
  }

  // ---------------------------------------------------------------- the statements on table values

  function InsertConsumed(t: Tables, service: Slug, signature: Signature): Tables {
    if IsConsumed(t.consumed, signature) then t
    else t.(consumed := t.consumed + [ConsumedRow(signature, service)])
  }

  function InsertLog(t: Tables, row: LogRow): Tables {
    t.(logs := t.logs + [row])
  }

  function InsertMetered(t: Tables, row: MeteredRow): Tables {
    t.(metered := t.metered + [row])
  }

  /** The UPDATE fails, changing nothing, when the row is missing or its counter is full. */
  predicate CanCountFailure(t: Tables, service: Slug) {
    service in t.services && t.services[service].failures < MAX_INT4
  }

  function CountedFailure(row: Service, reopenAt: Time, threshold: nat): Service {
    if row.failures + 1 >= ThresholdParameter(threshold) then
      row.(failures := row.failures + 1, breakerOpen := true, breakerUntil := Some(reopenAt))
    else
      row.(failures := row.failures + 1)
  }

  function RecordFailure(t: Tables, service: Slug, reopenAt: Time, threshold: nat): Tables {
    if CanCountFailure(t, service) then
      t.(services := t.services[service := CountedFailure(t.services[service], reopenAt, threshold)])
    else t
  }

  function ClosedRow(row: Service): Service {
    if row.breakerOpen || row.failures > 0 then
      row.(breakerOpen := false, breakerUntil := None, failures := 0)
    else row
  }

  function CloseBreaker(t: Tables, service: Slug): Tables {
    if service in t.services then
      t.(services := t.services[service := ClosedRow(t.services[service])])
    else t
  }

  /** The number of failures at which the breaker opens, as the wrapped parameter has it. */
  function OpensAt(threshold: nat): (n: nat)
    ensures n >= 1
  {
    if ThresholdParameter(threshold) < 1 then 1 else ThresholdParameter(threshold)
  }

  /** A u32 threshold means max(threshold, 1) failures exactly when it fits a signed 32-bit integer. */
  lemma ThresholdFaithful(threshold: nat)
    requires threshold < 0x1_0000_0000
    ensures OpensAt(threshold) == (if threshold < 1 then 1 else threshold) <==> threshold <= 0x7FFF_FFFF
  {
  }

  /** Breaker columns agree with the counter. */
  predicate Consistent(row: Service, threshold: nat) {
    && 0 <= row.failures
    && (row.breakerOpen <==> row.failures >= OpensAt(threshold))
    && (row.breakerOpen <==> row.breakerUntil.Some?)
  }

  lemma StatementsKeepConsistent(row: Service, reopenAt: Time, threshold: nat)
    requires Consistent(row, threshold)
    ensures Consistent(CountedFailure(row, reopenAt, threshold), threshold)
    ensures Consistent(ClosedRow(row), threshold)
    ensures !ClosedRow(row).breakerOpen && ClosedRow(row).failures == 0
  {
  }

  // ---------------------------------------------------------------- the store

  class MeterStore {
    var services: map<Slug, Service>
    var consumed: seq<ConsumedRow>
    var metered: seq<MeteredRow>
    var logs: seq<LogRow>

    constructor (services: map<Slug, Service>)
      ensures Value() == Tables(services, [], [], [])
    {
      this.services := services;
      consumed, metered, logs := [], [], [];
    }

    function Value(): Tables
      reads this
    {
      Tables(services, consumed, metered, logs)
    }

    method RecordCallLog(row: LogRow)
      modifies this
      ensures Value() == InsertLog(old(Value()), row)
    {
      logs := logs + [row];
    }

    method RecordMeteredUsage(row: MeteredRow)
      modifies this
      ensures Value() == InsertMetered(old(Value()), row)
    {
      metered := metered + [row];
    }

    /** True exactly for the one call that inserts the signature. */
    method ConsumePaymentSignature(service: Slug, signature: Signature) returns (won: bool)
      requires Distinct(consumed)
      modifies this
      ensures won <==> !IsConsumed(old(consumed), signature)
      ensures Value() == InsertConsumed(old(Value()), service, signature)
      ensures Distinct(consumed) && IsConsumed(consumed, signature)
    {
      var i := 0;
      while i < |consumed|
        invariant 0 <= i <= |consumed|
        invariant forall j :: 0 <= j < i ==> consumed[j].signature != signature
      {
        if consumed[i].signature == signature {
          return false;
        }
        i := i + 1;
      }
      consumed := consumed + [ConsumedRow(signature, service)];
      assert consumed[|consumed| - 1].signature == signature;
      won := true;
    }

    method RecordFailureAndMaybeOpen(service: Slug, reopenAt: Time, threshold: nat) returns (isOpen: Option<bool>)
      modifies this
      ensures Value() == RecordFailure(old(Value()), service, reopenAt, threshold)
      ensures isOpen.Some? <==> service in old(services) && old(services)[service].failures < 0x7FFF_FFFF
      ensures isOpen.Some? ==> isOpen.value == services[service].breakerOpen
      ensures isOpen.Some? && Consistent(old(services)[service], threshold) ==>
                isOpen.value == (old(services)[service].failures + 1 >= OpensAt(threshold))
    {
      if service !in services || services[service].failures >= MAX_INT4 {
        return None;
      }
      var row := services[service];
      row := row.(failures := row.failures + 1);
      if row.failures >= ThresholdParameter(threshold) {
        row := row.(breakerOpen := true, breakerUntil := Some(reopenAt));
      }
      services := services[service := row];
      isOpen := Some(row.breakerOpen);
    }

    method CloseCircuitBreaker(service: Slug)
      modifies this
      ensures Value() == CloseBreaker(old(Value()), service)
    {
      if service in services {
        var row := services[service];
        if row.breakerOpen || row.failures > 0 {
          services := services[service := row.(breakerOpen := false, breakerUntil := None, failures := 0)];
        }
      }
    }
  }
}

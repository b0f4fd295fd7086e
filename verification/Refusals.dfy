/** Why the on-chain verifier refuses a payment: exactly the first of its thirteen reasons that applies. */
module Refusals {
  import opened Common
  import opened X402

  /** The transaction's first transfer into escrow. */
  ghost predicate FirstIs(settings: Settings, codec: Codec, tx: Tx, i: nat) {
    && i < |Instructions(tx)| && IsEscrowTransfer(settings, codec, Instructions(tx)[i])
    && forall j :: 0 <= j < i ==> !IsEscrowTransfer(settings, codec, Instructions(tx)[j])
  }

  ghost predicate PaysLess(info: TransferInfo, required: int) {
    (if info.amount.Some? then info.amount.value else 0) < required
  }

  /** No configured mint is unpaused and has an account of the escrow wallet. */
  ghost predicate NothingAccepted(settings: Settings, codec: Codec, wallet: Pubkey) {
    forall m :: m in settings.mints && !m.paused && m.address != "" && codec.decode(m.address).Some? ==>
      codec.account(wallet, codec.decode(m.address).value).None?
  }

  /** What each code says is wrong. */
  ghost predicate Applies(
    code: Code, settings: Settings, codec: Codec, payment: Payment, reply: Reply, now: int, required: int)
  {
    match code
    case SchemeNotSupported => payment.scheme != Exact
    case NetworkMismatch => !OnNetwork(settings.rpcUrl, payment.network)
    case EscrowWalletMissing => settings.escrow == None
    case BadEscrowWallet => settings.escrow.Some? && codec.decode(settings.escrow.value) == None
    case NoAcceptedMints =>
      settings.escrow.Some? && codec.decode(settings.escrow.value).Some?
      && NothingAccepted(settings, codec, codec.decode(settings.escrow.value).value)
    case RpcUnavailable => reply == RpcFailed
    case TxNotFinalized => reply == NotFinalized
    case TxFailed => reply.Found? && reply.tx.failed
    case TxMissingBlockTime => reply.Found? && reply.tx.blockTime == None
    case TxTooOld =>
      reply.Found? && reply.tx.blockTime.Some?
      && now > reply.tx.blockTime.value && now - reply.tx.blockTime.value > settings.maxTxAge
    case TransferNotFound =>
      reply.Found? && forall ix :: ix in Instructions(reply.tx) ==> !IsEscrowTransfer(settings, codec, ix)
    case AmountTooLow =>
      reply.Found? && exists i: nat :: FirstIs(settings, codec, reply.tx, i)
                               && PaysLess(Instructions(reply.tx)[i].info.value, required)
    case SenderMismatch =>
      reply.Found? && exists i: nat :: FirstIs(settings, codec, reply.tx, i)
                               && Instructions(reply.tx)[i].info.value.authority != payment.from
  }

  /** The order in which the reasons are looked for. */
  ghost function Position(code: Code): nat {
    match code
    case SchemeNotSupported => 0
    case NetworkMismatch => 1
    case EscrowWalletMissing => 2
    case BadEscrowWallet => 3
    case NoAcceptedMints => 4
    case RpcUnavailable => 5
    case TxNotFinalized => 6
    case TxFailed => 7
    case TxMissingBlockTime => 8
    case TxTooOld => 9
    case TransferNotFound => 10
    case AmountTooLow => 11
    case SenderMismatch => 12
  }

  /** This reason applies and none that is looked for before it. */
  ghost predicate IsFirst(
    code: Code, settings: Settings, codec: Codec, payment: Payment, reply: Reply, now: int, required: int)
  {
    && Applies(code, settings, codec, payment, reply, now, required)
    && forall c :: Position(c) < Position(code) ==> !Applies(c, settings, codec, payment, reply, now, required)
  }

  lemma AcceptsNothing(settings: Settings, codec: Codec, wallet: Pubkey)
    ensures AcceptSet(codec, wallet, settings.mints) == [] <==> NothingAccepted(settings, codec, wallet)
  {
    var accepted := AcceptSet(codec, wallet, settings.mints);
    if accepted != [] {
      AcceptSetMembers(codec, wallet, settings.mints, accepted[0]);
    }
    forall m | m in settings.mints && AcceptedEntry(codec, wallet, m).Some?
      ensures AcceptedEntry(codec, wallet, m).value in accepted
    {
      AcceptSetMembers(codec, wallet, settings.mints, AcceptedEntry(codec, wallet, m).value);
    }
  }

  /** The first transfer the verifier finds is the first into escrow. */
  lemma FoundFirst(settings: Settings, codec: Codec, tx: Tx) returns (i: nat)
    requires settings.escrow.Some? && codec.decode(settings.escrow.value).Some?
    ensures
      var accepted := AcceptSet(codec, codec.decode(settings.escrow.value).value, settings.mints);
      match FirstTransfer(accepted, Instructions(tx))
      case None => forall ix :: ix in Instructions(tx) ==> !IsEscrowTransfer(settings, codec, ix)
      case Some(t) =>
        && FirstIs(settings, codec, tx, i)
        && t.amount == AmountOf(Instructions(tx)[i].info.value) && t.authority == Instructions(tx)[i].info.value.authority
  {
    var accepted := AcceptSet(codec, codec.decode(settings.escrow.value).value, settings.mints);
    var ixs := Instructions(tx);
    forall ix ensures
      && (TransferOf(accepted, ix).Some? <==> IsEscrowTransfer(settings, codec, ix))
      && (TransferOf(accepted, ix).Some? ==>
            && TransferOf(accepted, ix).value.amount == AmountOf(ix.info.value)
            && TransferOf(accepted, ix).value.authority == ix.info.value.authority)
    {
      TransferOfMeansEscrow(settings, codec, ix);
    }
    i := 0;
    if FirstTransfer(accepted, ixs).Some? {
      i := FirstTransferExists(accepted, ixs);
    } else {
      NoneFound(accepted, ixs);
    }
  }

  lemma {:induction false} NoneFound(accepted: seq<Accepted>, ixs: seq<Instruction>)
    requires FirstTransfer(accepted, ixs).None?
    ensures forall ix :: ix in ixs ==> TransferOf(accepted, ix).None?
  {
    if ixs != [] {
      NoneFound(accepted, ixs[1..]);
    }
  }

  lemma FirstIsUnique(settings: Settings, codec: Codec, tx: Tx, i: nat, j: nat)
    requires FirstIs(settings, codec, tx, i) && FirstIs(settings, codec, tx, j)
    ensures i == j
  {
  }

  /** If the verifier looks for this reason, it applies just if it is the answer. */
  ghost predicate Told(code: Code, settings: Settings, codec: Codec, payment: Payment, reply: Reply, now: int, required: int) {
    var result := VerifyPayment(settings, codec, payment, reply, now, required);
    (result.Failure? ==> Position(code) <= Position(result.error)) ==>
      (Applies(code, settings, codec, payment, reply, now, required) <==> result == Failure(code))
  }

  ghost predicate Reaches(
    from: nat, settings: Settings, codec: Codec, payment: Payment, reply: Reply, now: int, required: int)
  {
    var result := VerifyPayment(settings, codec, payment, reply, now, required);
    result.Failure? ==> Position(result.error) >= from
  }

  lemma ConfigurationTells(settings: Settings, codec: Codec, payment: Payment, reply: Reply, now: int, required: int)
    ensures Told(SchemeNotSupported, settings, codec, payment, reply, now, required)
    ensures Told(NetworkMismatch, settings, codec, payment, reply, now, required)
    ensures Told(EscrowWalletMissing, settings, codec, payment, reply, now, required)
    ensures Told(BadEscrowWallet, settings, codec, payment, reply, now, required)
    ensures Told(NoAcceptedMints, settings, codec, payment, reply, now, required)
  {
    ExpectedNetwork(settings.rpcUrl, payment.network);
    if settings.escrow.Some? && codec.decode(settings.escrow.value).Some? {
      AcceptsNothing(settings, codec, codec.decode(settings.escrow.value).value);
    }
  }

  lemma ReplyTells(settings: Settings, codec: Codec, payment: Payment, reply: Reply, now: int, required: int)
    requires Reaches(5, settings, codec, payment, reply, now, required)
    ensures Told(RpcUnavailable, settings, codec, payment, reply, now, required)
    ensures Told(TxNotFinalized, settings, codec, payment, reply, now, required)
    ensures Told(TxFailed, settings, codec, payment, reply, now, required)
    ensures Told(TxMissingBlockTime, settings, codec, payment, reply, now, required)
    ensures Told(TxTooOld, settings, codec, payment, reply, now, required)
  {
  }

  lemma TransferTells(settings: Settings, codec: Codec, payment: Payment, reply: Reply, now: int, required: int)
    requires Reaches(10, settings, codec, payment, reply, now, required)
    ensures Told(TransferNotFound, settings, codec, payment, reply, now, required)
    ensures Told(AmountTooLow, settings, codec, payment, reply, now, required)
    ensures Told(SenderMismatch, settings, codec, payment, reply, now, required)
  {
    var i := FoundFirst(settings, codec, reply.tx);
    LastChecks(settings, codec, payment, reply, now, required);
    var accepted := AcceptSet(codec, codec.decode(settings.escrow.value).value, settings.mints);
    if FirstTransfer(accepted, Instructions(reply.tx)).Some? {
      TransferReasons(settings, codec, payment, reply, now, required, i);
    }
  }

  lemma LastChecks(settings: Settings, codec: Codec, payment: Payment, reply: Reply, now: int, required: int)
    requires Reaches(10, settings, codec, payment, reply, now, required)
    ensures settings.escrow.Some? && codec.decode(settings.escrow.value).Some? && reply.Found?
    ensures
      var t := FirstTransfer(AcceptSet(codec, codec.decode(settings.escrow.value).value, settings.mints),
                             Instructions(reply.tx));
      var result := VerifyPayment(settings, codec, payment, reply, now, required);
      && (t.None? ==> result == Failure(TransferNotFound))
      && (t.Some? ==> if t.value.amount < required then result == Failure(AmountTooLow)
                      else if t.value.authority != payment.from then result == Failure(SenderMismatch)
                      else result.Success?)
  {
  }

  /** With a first transfer into escrow, the last three reasons are about it. */
  lemma TransferReasons(
    settings: Settings, codec: Codec, payment: Payment, reply: Reply, now: int, required: int, i: nat)
    requires reply.Found? && FirstIs(settings, codec, reply.tx, i)
    ensures
      var info := Instructions(reply.tx)[i].info.value;
      && !Applies(TransferNotFound, settings, codec, payment, reply, now, required)
      && (Applies(AmountTooLow, settings, codec, payment, reply, now, required) <==> PaysLess(info, required))
      && (Applies(SenderMismatch, settings, codec, payment, reply, now, required) <==> info.authority != payment.from)
  {
    forall j: nat | FirstIs(settings, codec, reply.tx, j) ensures i == j {
      FirstIsUnique(settings, codec, reply.tx, i, j);
    }
    assert Instructions(reply.tx)[i] in Instructions(reply.tx);
  }

  lemma AllTold(settings: Settings, codec: Codec, payment: Payment, reply: Reply, now: int, required: int, code: Code)
    ensures Told(code, settings, codec, payment, reply, now, required)
  {
    if Position(code) < 5 {
      ConfigurationTells(settings, codec, payment, reply, now, required);
    } else if Position(code) < 10 {
      if Reaches(5, settings, codec, payment, reply, now, required) {
        ReplyTells(settings, codec, payment, reply, now, required);
      }
    } else if Reaches(10, settings, codec, payment, reply, now, required) {
      TransferTells(settings, codec, payment, reply, now, required);
    }
  }

  /** What is told up to the answer, no two reasons standing at one position, makes the answer the first. */
  lemma FirstIsAnswer(result: Result<Verified, Code>, applies: Code -> bool, code: Code)
    requires forall c :: (result.Failure? ==> Position(c) <= Position(result.error)) ==>
               (applies(c) <==> result == Failure(c))
    ensures result == Failure(code) <==> applies(code) && forall c :: Position(c) < Position(code) ==> !applies(c)
  {
  }

  /** A payment is refused with a code exactly when that code's reason is the first that applies. */
  lemma RefusedExactly(
    settings: Settings, codec: Codec, payment: Payment, reply: Reply, now: int, required: int, code: Code)
    ensures VerifyPayment(settings, codec, payment, reply, now, required) == Failure(code)
       <==> IsFirst(code, settings, codec, payment, reply, now, required)
  {
    ghost var applies := (c: Code) => Applies(c, settings, codec, payment, reply, now, required);
    var result := VerifyPayment(settings, codec, payment, reply, now, required);
    forall c ensures (result.Failure? ==> Position(c) <= Position(result.error)) ==> (applies(c) <==> result == Failure(c)) {
      AllTold(settings, codec, payment, reply, now, required, c);
    }
    FirstIsAnswer(result, applies, code);
    assert forall c :: applies(c) <==> Applies(c, settings, codec, payment, reply, now, required);
  }
}

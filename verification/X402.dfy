/**
 The x402 payment rules of the gateway: what a 402 challenge offers
 (x402_challenge.rs) and what the on-chain verifier accepts (x402_verify.rs).
 Base58 decoding and account derivation are the functions of a `Codec`; the
 chain is whatever transaction the RPC node returns.
 */
module X402 {
  import opened Common

  type Pubkey = seq<bv8>

  datatype Codec = Codec(decode: string -> Option<Pubkey>, account: (Pubkey, Pubkey) -> Option<string>)

  datatype Mint = Mint(symbol: string, address: string, decimals: nat, paused: bool)

  datatype Settings = Settings(
    rpcUrl: string, escrow: Option<string>, maxTxAge: int, mints: seq<Mint>, primarySymbol: string)

  /** The network identifiers the gateway knows by name or by genesis hash, such as "solana:mainnet-beta". */
  datatype Network = Devnet | DevnetGenesis | Mainnet | MainnetBeta | MainnetGenesis | OtherNetwork(name: string)

  datatype Scheme = Exact | OtherScheme(name: string)

  /** The verifier's refusals, one for each of its error codes. */
  datatype Code =
    | SchemeNotSupported | NetworkMismatch | EscrowWalletMissing | BadEscrowWallet | NoAcceptedMints
    | RpcUnavailable | TxNotFinalized | TxFailed | TxMissingBlockTime | TxTooOld
    | TransferNotFound | AmountTooLow | SenderMismatch

  datatype Payment = Payment(scheme: Scheme, network: Network, signature: string, from: string)

  /** A field that is missing from the RPC's JSON, or not a string, reads as the empty string. */
  datatype TransferInfo = TransferInfo(mint: string, destination: string, amount: Option<int>, authority: string)

  datatype Instruction = Opaque | Parsed(transferChecked: bool, info: Option<TransferInfo>)

  datatype Tx = Tx(failed: bool, blockTime: Option<int>, top: seq<Instruction>, inner: seq<seq<Instruction>>)

  datatype Reply = RpcFailed | NotFinalized | Found(tx: Tx)

  datatype Accepted = Accepted(mint: string, account: string, symbol: string)

  datatype Transfer = Transfer(amount: int, authority: string, currency: string)

  datatype Verified = Verified(signature: string, currency: string)

  // ---------------------------------------------------------------- networks

  predicate OccursAt(text: string, part: string, i: int) {
    0 <= i <= |text| - |part| && text[i..i + |part|] == part
  }

  predicate Contains(text: string, part: string) {
    exists i | 0 <= i <= |text| :: OccursAt(text, part, i)
  }

  predicate IsDevnet(rpcUrl: string) { Contains(rpcUrl, "devnet") }

  function NetworkForRpc(rpcUrl: string): Network {
    if IsDevnet(rpcUrl) then Devnet else Mainnet
  }

  predicate IsExpectedNetwork(rpcUrl: string, network: Network) {
    if IsDevnet(rpcUrl) then network.Devnet? || network.DevnetGenesis?
    else network.Mainnet? || network.MainnetBeta? || network.MainnetGenesis?
  }

  // ---------------------------------------------------------------- the accepted set

  function AcceptedEntry(codec: Codec, wallet: Pubkey, m: Mint): Option<Accepted> {
    if m.paused || m.address == "" then None
    else match codec.decode(m.address)
      case None => None
      case Some(key) =>
        match codec.account(wallet, key)
        case None => None
        case Some(account) => Some(Accepted(m.address, account, m.symbol))
  }

  function AcceptSet(codec: Codec, wallet: Pubkey, mints: seq<Mint>): seq<Accepted> {
    if mints == [] then []
    else
      var earlier := AcceptSet(codec, wallet, mints[..|mints| - 1]);
      match AcceptedEntry(codec, wallet, mints[|mints| - 1])
      case None => earlier
      case Some(entry) => earlier + [entry]
  }

  lemma {:induction false} AcceptSetMembers(codec: Codec, wallet: Pubkey, mints: seq<Mint>, entry: Accepted)
    ensures entry in AcceptSet(codec, wallet, mints)
       <==> exists m :: m in mints && AcceptedEntry(codec, wallet, m) == Some(entry)
  {
    if mints != [] {
      var n := |mints| - 1;
      AcceptSetMembers(codec, wallet, mints[..n], entry);
      assert mints == mints[..n] + [mints[n]];
    }
  }

  method BuildAcceptSet(codec: Codec, wallet: Pubkey, mints: seq<Mint>) returns (accepted: seq<Accepted>)
    ensures accepted == AcceptSet(codec, wallet, mints)
  {
    accepted := [];
    for i := 0 to |mints|
      invariant accepted == AcceptSet(codec, wallet, mints[..i])
    {
      var m := mints[i];
      assert mints[..i + 1][..i] == mints[..i];
      if m.paused || m.address == "" {
        continue;
      }
      var key := codec.decode(m.address);
      if key.None? {
        continue;
      }
      var account := codec.account(wallet, key.value);
      if account.None? {
        continue;
      }
      accepted := accepted + [Accepted(m.address, account.value, m.symbol)];
    }
    assert mints[..|mints|] == mints;
  }

  // ---------------------------------------------------------------- scanning a transaction

  function Flatten(groups: seq<seq<Instruction>>): seq<Instruction> {
    if groups == [] then [] else Flatten(groups[..|groups| - 1]) + groups[|groups| - 1]
  }

  function Instructions(tx: Tx): seq<Instruction> {
    tx.top + Flatten(tx.inner)
  }

  /** How many instructions the first `g` groups have. */
  ghost function SizeOf(groups: seq<seq<Instruction>>, g: nat): nat
    requires g <= |groups|
  {
    if g == 0 then 0 else SizeOf(groups, g - 1) + |groups[g - 1]|
  }

  lemma {:induction false} FlattenOrder(groups: seq<seq<Instruction>>, g: nat, j: nat)
    requires g < |groups| && j < |groups[g]|
    ensures SizeOf(groups, g) + j < |Flatten(groups)| && Flatten(groups)[SizeOf(groups, g) + j] == groups[g][j]
  {
    var n := |groups| - 1;
    FlattenSize(groups[..n]);
    SizeOfPrefix(groups, n, n);
    if g < n {
      FlattenOrder(groups[..n], g, j);
      SizeOfPrefix(groups, n, g);
    }
  }

  lemma {:induction false} SizeOfPrefix(groups: seq<seq<Instruction>>, n: nat, g: nat)
    requires g <= n <= |groups|
    ensures SizeOf(groups[..n], g) == SizeOf(groups, g)
  {
    if g > 0 {
      SizeOfPrefix(groups, n, g - 1);
    }
  }

  lemma {:induction false} FlattenSize(groups: seq<seq<Instruction>>)
    ensures |Flatten(groups)| == SizeOf(groups, |groups|)
  {
    if groups != [] {
      var n := |groups| - 1;
      FlattenSize(groups[..n]);
      SizeOfPrefix(groups, n, n);
    }
  }

  ghost predicate InnerAt(tx: Tx, g: nat, j: nat)
    requires g < |tx.inner| && j < |tx.inner[g]|
  {
    var at := |tx.top| + SizeOf(tx.inner, g) + j;
    at < |Instructions(tx)| && Instructions(tx)[at] == tx.inner[g][j]
  }

  /** The instructions are scanned in order: the transaction's own, then those of each inner group in turn. */
  lemma InstructionOrder(tx: Tx)
    ensures |Instructions(tx)| == |tx.top| + SizeOf(tx.inner, |tx.inner|)
    ensures forall i :: 0 <= i < |tx.top| ==> Instructions(tx)[i] == tx.top[i]
    ensures forall g: nat, j: nat :: g < |tx.inner| && j < |tx.inner[g]| ==> InnerAt(tx, g, j)
  {
    FlattenSize(tx.inner);
    forall g: nat, j: nat | g < |tx.inner| && j < |tx.inner[g]| ensures InnerAt(tx, g, j) {
      FlattenOrder(tx.inner, g, j);
    }
  }

  function FindAccepted(accepted: seq<Accepted>, mint: string, destination: string): Option<Accepted> {
    if accepted == [] then None
    else if accepted[0].mint == mint && accepted[0].account == destination then Some(accepted[0])
    else FindAccepted(accepted[1..], mint, destination)
  }

  lemma FindAcceptedFinds(accepted: seq<Accepted>, mint: string, destination: string)
    ensures FindAccepted(accepted, mint, destination).Some?
       <==> exists a :: a in accepted && a.mint == mint && a.account == destination
  {
  }

  /** What one instruction contributes: a transfer into one of our accounts, or nothing. */
  function TransferOf(accepted: seq<Accepted>, ix: Instruction): Option<Transfer> {
    if ix.Parsed? && ix.transferChecked && ix.info.Some? then
      match FindAccepted(accepted, ix.info.value.mint, ix.info.value.destination)
      case None => None
      case Some(a) => Some(Transfer(AmountOf(ix.info.value), ix.info.value.authority, a.symbol))
    else
      None
  }

  function AmountOf(info: TransferInfo): int {
    if info.amount.Some? then info.amount.value else 0
  }

  function FirstTransfer(accepted: seq<Accepted>, ixs: seq<Instruction>): Option<Transfer> {
    if ixs == [] then None
    else if TransferOf(accepted, ixs[0]).Some? then TransferOf(accepted, ixs[0])
    else FirstTransfer(accepted, ixs[1..])
  }

  lemma {:induction false} FirstTransferIs(accepted: seq<Accepted>, ixs: seq<Instruction>, i: nat)
    requires i < |ixs| && TransferOf(accepted, ixs[i]).Some?
    requires forall j :: 0 <= j < i ==> TransferOf(accepted, ixs[j]).None?
    ensures FirstTransfer(accepted, ixs) == TransferOf(accepted, ixs[i])
  {
    if i > 0 {
      FirstTransferIs(accepted, ixs[1..], i - 1);
    }
  }

  lemma {:induction false} FirstTransferExists(accepted: seq<Accepted>, ixs: seq<Instruction>) returns (i: nat)
    requires FirstTransfer(accepted, ixs).Some?
    ensures i < |ixs| && FirstTransfer(accepted, ixs) == TransferOf(accepted, ixs[i])
    ensures forall j :: 0 <= j < i ==> TransferOf(accepted, ixs[j]).None?
  {
    if TransferOf(accepted, ixs[0]).Some? {
      i := 0;
    } else {
      var k := FirstTransferExists(accepted, ixs[1..]);
      i := k + 1;
    }
  }

  lemma {:induction false} FirstTransferNone(accepted: seq<Accepted>, ixs: seq<Instruction>)
    requires forall j :: 0 <= j < |ixs| ==> TransferOf(accepted, ixs[j]).None?
    ensures FirstTransfer(accepted, ixs).None?
  {
    if ixs != [] {
      FirstTransferNone(accepted, ixs[1..]);
    }
  }

  method ExtractTransferInfo(tx: Tx, accepted: seq<Accepted>) returns (found: Option<Transfer>)
    ensures found == FirstTransfer(accepted, Instructions(tx))
  {
    var instructions := tx.top;
    for g := 0 to |tx.inner|
      invariant instructions == tx.top + Flatten(tx.inner[..g])
    {
      assert tx.inner[..g + 1][..g] == tx.inner[..g];
      instructions := instructions + tx.inner[g];
    }
    assert tx.inner[..|tx.inner|] == tx.inner;
    for i := 0 to |instructions|
      invariant forall j :: 0 <= j < i ==> TransferOf(accepted, instructions[j]).None?
    {
      var ix := instructions[i];
      if ix.Opaque? || !ix.transferChecked || ix.info.None? {
        continue;
      }
      var info := ix.info.value;
      var matched := FindAccepted(accepted, info.mint, info.destination);
      if matched.None? {
        continue;
      }
      FirstTransferIs(accepted, instructions, i);
      return Some(Transfer(AmountOf(info), info.authority, matched.value.symbol));
    }
    FirstTransferNone(accepted, instructions);
    found := None;
  }

  // ---------------------------------------------------------------- verification

  function Max0(x: int): int { if x < 0 then 0 else x }

  function VerifyPayment(
    settings: Settings, codec: Codec, payment: Payment, reply: Reply, now: int, required: int
  ): Result<Verified, Code>
  {
    if !payment.scheme.Exact? then Failure(SchemeNotSupported)
    else if !IsExpectedNetwork(settings.rpcUrl, payment.network) then Failure(NetworkMismatch)
    else if settings.escrow.None? then Failure(EscrowWalletMissing)
    else if codec.decode(settings.escrow.value).None? then Failure(BadEscrowWallet)
    else
      var accepted := AcceptSet(codec, codec.decode(settings.escrow.value).value, settings.mints);
      if accepted == [] then Failure(NoAcceptedMints)
      else match reply
        case RpcFailed => Failure(RpcUnavailable)
        case NotFinalized => Failure(TxNotFinalized)
        case Found(tx) =>
          if tx.failed then Failure(TxFailed)
          else if tx.blockTime.None? then Failure(TxMissingBlockTime)
          else if now - tx.blockTime.value > Max0(settings.maxTxAge) then Failure(TxTooOld)
          else match FirstTransfer(accepted, Instructions(tx))
            case None => Failure(TransferNotFound)
            case Some(t) =>
              if t.amount < required then Failure(AmountTooLow)
              else if t.authority != payment.from then Failure(SenderMismatch)
              else Success(Verified(payment.signature, t.currency))
  }

  method VerifyOnchainPayment(
    settings: Settings, codec: Codec, payment: Payment, reply: Reply, now: int, required: int
  ) returns (result: Result<Verified, Code>)
    ensures result == VerifyPayment(settings, codec, payment, reply, now, required)
  {
    if !payment.scheme.Exact? {
      return Failure(SchemeNotSupported);
    }
    if !IsExpectedNetwork(settings.rpcUrl, payment.network) {
      return Failure(NetworkMismatch);
    }
    if settings.escrow.None? {
      return Failure(EscrowWalletMissing);
    }
    var wallet := codec.decode(settings.escrow.value);
    if wallet.None? {
      return Failure(BadEscrowWallet);
    }
    var accepted := BuildAcceptSet(codec, wallet.value, settings.mints);
    if accepted == [] {
      return Failure(NoAcceptedMints);
    }
    if reply.RpcFailed? {
      return Failure(RpcUnavailable);
    }
    if reply.NotFinalized? {
      return Failure(TxNotFinalized);
    }
    var tx := reply.tx;
    if tx.failed {
      return Failure(TxFailed);
    }
    match tx.blockTime {
      case Some(blockTime) =>
        if now - blockTime > Max0(settings.maxTxAge) {
          return Failure(TxTooOld);
        }
      case None =>
        return Failure(TxMissingBlockTime);
    }
    var transfer := ExtractTransferInfo(tx, accepted);
    if transfer.None? {
      return Failure(TransferNotFound);
    }
    if transfer.value.amount < required {
      return Failure(AmountTooLow);
    }
    if transfer.value.authority != payment.from {
      return Failure(SenderMismatch);
    }
    result := Success(Verified(payment.signature, transfer.value.currency));
  }

  // ---------------------------------------------------------------- what acceptance means

  ghost predicate MentionsDevnet(url: string) {
    exists before, after :: url == before + "devnet" + after
  }

  /** A payment is on the gateway's own network, by either of the names it goes by. */
  ghost predicate OnNetwork(url: string, network: Network) {
    match network
    case Devnet | DevnetGenesis => MentionsDevnet(url)
    case Mainnet | MainnetBeta | MainnetGenesis => !MentionsDevnet(url)
    case OtherNetwork(_) => false
  }

  lemma DevnetMentioned(url: string)
    ensures IsDevnet(url) <==> MentionsDevnet(url)
  {
    if i :| 0 <= i <= |url| && OccursAt(url, "devnet", i) {
      assert url == url[..i] + "devnet" + url[i + 6..];
    }
    if before, after :| url == before + "devnet" + after {
      assert OccursAt(url, "devnet", |before|);
    }
  }

  lemma ExpectedNetwork(url: string, network: Network)
    ensures IsExpectedNetwork(url, network) <==> OnNetwork(url, network)
  {
    DevnetMentioned(url);
  }

  /** `info` moves a live mint into the escrow wallet's own account for that mint. */
  ghost predicate PaysEscrow(settings: Settings, codec: Codec, info: TransferInfo) {
    settings.escrow.Some? && codec.decode(settings.escrow.value).Some? &&
    exists m :: m in settings.mints && LiveMintPaid(codec, codec.decode(settings.escrow.value).value, m, info)
  }

  ghost predicate LiveMintPaid(codec: Codec, wallet: Pubkey, m: Mint, info: TransferInfo) {
    && !m.paused
    && m.address != ""
    && info.mint == m.address
    && codec.decode(m.address).Some?
    && codec.account(wallet, codec.decode(m.address).value) == Some(info.destination)
  }

  ghost predicate IsEscrowTransfer(settings: Settings, codec: Codec, ix: Instruction) {
    ix.Parsed? && ix.transferChecked && ix.info.Some? && PaysEscrow(settings, codec, ix.info.value)
  }

  /** `ixs[i]` is the first transfer into escrow, and it pays `required` in full on behalf of `from`. */
  ghost predicate PaidAt(
    settings: Settings, codec: Codec, ixs: seq<Instruction>, i: int, required: int, from: string)
  {
    && 0 <= i < |ixs|
    && IsEscrowTransfer(settings, codec, ixs[i])
    && (forall j :: 0 <= j < i ==> !IsEscrowTransfer(settings, codec, ixs[j]))
    && required <= (if ixs[i].info.value.amount.Some? then ixs[i].info.value.amount.value else 0)
    && ixs[i].info.value.authority == from
  }

  ghost predicate Fresh(settings: Settings, tx: Tx, now: int) {
    && !tx.failed && tx.blockTime.Some?
    && (now <= tx.blockTime.value || now - tx.blockTime.value <= settings.maxTxAge)
  }

  lemma TransferOfMeansEscrow(settings: Settings, codec: Codec, ix: Instruction)
    requires settings.escrow.Some? && codec.decode(settings.escrow.value).Some?
    ensures
      var wallet := codec.decode(settings.escrow.value).value;
      var t := TransferOf(AcceptSet(codec, wallet, settings.mints), ix);
      && (t.Some? <==> IsEscrowTransfer(settings, codec, ix))
      && (t.Some? ==> t.value.amount == AmountOf(ix.info.value) && t.value.authority == ix.info.value.authority)
  {
    if ix.Parsed? && ix.transferChecked && ix.info.Some? {
      var info := ix.info.value;
      var wallet := codec.decode(settings.escrow.value).value;
      var accepted := AcceptSet(codec, wallet, settings.mints);
      FindAcceptedFinds(accepted, info.mint, info.destination);
      if FindAccepted(accepted, info.mint, info.destination).Some? {
        var a :| a in accepted && a.mint == info.mint && a.account == info.destination;
        AcceptSetMembers(codec, wallet, settings.mints, a);
        var m :| m in settings.mints && AcceptedEntry(codec, wallet, m) == Some(a);
        assert LiveMintPaid(codec, wallet, m, info);
      }
      if PaysEscrow(settings, codec, info) {
        var m :| m in settings.mints && LiveMintPaid(codec, wallet, m, info);
        var a := AcceptedEntry(codec, wallet, m).value;
        AcceptSetMembers(codec, wallet, settings.mints, a);
      }
    }
  }

  /** The verifier accepts exactly the fresh transactions whose first escrow transfer pays in full. */
  lemma VerifyAcceptsExactly(
    settings: Settings, codec: Codec, payment: Payment, reply: Reply, now: int, required: int)
    ensures VerifyPayment(settings, codec, payment, reply, now, required).Success? <==>
            && payment.scheme.Exact?
            && OnNetwork(settings.rpcUrl, payment.network)
            && reply.Found?
            && Fresh(settings, reply.tx, now)
            && exists i :: PaidAt(settings, codec, Instructions(reply.tx), i, required, payment.from)
  {
    ExpectedNetwork(settings.rpcUrl, payment.network);
    if reply.Found? && settings.escrow.Some? && codec.decode(settings.escrow.value).Some? {
      var ixs := Instructions(reply.tx);
      var accepted := AcceptSet(codec, codec.decode(settings.escrow.value).value, settings.mints);
      forall ix ensures
        && (TransferOf(accepted, ix).Some? <==> IsEscrowTransfer(settings, codec, ix))
        && (TransferOf(accepted, ix).Some? ==>
              && TransferOf(accepted, ix).value.amount == AmountOf(ix.info.value)
              && TransferOf(accepted, ix).value.authority == ix.info.value.authority)
      {
        TransferOfMeansEscrow(settings, codec, ix);
      }
      if FirstTransfer(accepted, ixs).Some? {
        var i := FirstTransferExists(accepted, ixs);
        assert forall k, required, from :: PaidAt(settings, codec, ixs, k, required, from) ==> k == i;
        if VerifyPayment(settings, codec, payment, reply, now, required).Success? {
          assert PaidAt(settings, codec, ixs, i, required, payment.from);
        }
      } else if i :| PaidAt(settings, codec, ixs, i, required, payment.from) {
        FirstTransferIs(accepted, ixs, i);
      }
      if i :| PaidAt(settings, codec, ixs, i, required, payment.from) {
        assert FindAccepted(accepted, ixs[i].info.value.mint, ixs[i].info.value.destination).Some?;
      }
    }
  }

  /** The amount the verifier reads off a settled transaction; zero when it reads none. */
  ghost function PaidAmount(settings: Settings, codec: Codec, tx: Tx): int {
    if settings.escrow.Some? && codec.decode(settings.escrow.value).Some? then
      var accepted := AcceptSet(codec, codec.decode(settings.escrow.value).value, settings.mints);
      match FirstTransfer(accepted, Instructions(tx))
      case None => 0
      case Some(t) => t.amount
    else 0
  }

  /** All that a list of instructions moves into escrow, in live mints. */
  ghost function Received(settings: Settings, codec: Codec, ixs: seq<Instruction>): nat {
    if ixs == [] then 0
    else
      (if IsEscrowTransfer(settings, codec, ixs[0]) then Max0(AmountOf(ixs[0].info.value)) else 0)
        + Received(settings, codec, ixs[1..])
  }

  /** What a transaction really brought into escrow: nothing, if it failed. */
  ghost function EscrowReceived(settings: Settings, codec: Codec, tx: Tx): nat {
    if tx.failed then 0 else Received(settings, codec, Instructions(tx))
  }

  lemma {:induction false} FirstIsReceived(settings: Settings, codec: Codec, ixs: seq<Instruction>)
    requires settings.escrow.Some? && codec.decode(settings.escrow.value).Some?
    ensures
      var accepted := AcceptSet(codec, codec.decode(settings.escrow.value).value, settings.mints);
      FirstTransfer(accepted, ixs).Some? ==> FirstTransfer(accepted, ixs).value.amount <= Received(settings, codec, ixs)
  {
    if ixs != [] {
      TransferOfMeansEscrow(settings, codec, ixs[0]);
      FirstIsReceived(settings, codec, ixs[1..]);
    }
  }

  /** The verifier never reads more off a transaction than escrow received. */
  lemma PaidIsReceived(settings: Settings, codec: Codec, tx: Tx)
    requires !tx.failed
    ensures PaidAmount(settings, codec, tx) <= EscrowReceived(settings, codec, tx)
  {
    if settings.escrow.Some? && codec.decode(settings.escrow.value).Some? {
      FirstIsReceived(settings, codec, Instructions(tx));
    }
  }

  // ---------------------------------------------------------------- the challenge

  datatype Offer = Offer(
    scheme: Scheme, network: Network, amount: int, payTo: string, asset: string, symbol: string, decimals: nat)

  function Lower(c: char): char {
    if 'A' <= c <= 'Z' then (c as int + 32) as char else c
  }

  predicate EqIgnoreAsciiCase(a: string, b: string) {
    |a| == |b| && forall i | 0 <= i < |a| :: Lower(a[i]) == Lower(b[i])
  }

  predicate IsPrimary(settings: Settings, m: Mint) {
    EqIgnoreAsciiCase(m.symbol, settings.primarySymbol)
  }

  function Rank(settings: Settings, m: Mint): int { if IsPrimary(settings, m) then 0 else 1 }

  function Filter(ms: seq<Mint>, keep: Mint -> bool): seq<Mint> {
    if ms == [] then []
    else
      var earlier := Filter(ms[..|ms| - 1], keep);
      if keep(ms[|ms| - 1]) then earlier + [ms[|ms| - 1]] else earlier
  }

  lemma {:induction false} FilterMembers(ms: seq<Mint>, keep: Mint -> bool, m: Mint)
    ensures m in Filter(ms, keep) <==> m in ms && keep(m)
  {
    if ms != [] {
      var n := |ms| - 1;
      FilterMembers(ms[..n], keep, m);
      assert ms == ms[..n] + [ms[n]];
    }
  }

  /** Stable insertion: `m` goes behind every entry whose rank is not larger. */
  function InsertByRank(settings: Settings, sorted: seq<Mint>, m: Mint): seq<Mint> {
    if sorted == [] || Rank(settings, sorted[|sorted| - 1]) <= Rank(settings, m) then sorted + [m]
    else InsertByRank(settings, sorted[..|sorted| - 1], m) + [sorted[|sorted| - 1]]
  }

  /** The stable sort by rank. */
  function SortByRank(settings: Settings, ms: seq<Mint>): seq<Mint> {
    if ms == [] then [] else InsertByRank(settings, SortByRank(settings, ms[..|ms| - 1]), ms[|ms| - 1])
  }

  function NotPaused(): Mint -> bool { (m: Mint) => !m.paused }
  function Primary(settings: Settings): Mint -> bool { (m: Mint) => IsPrimary(settings, m) }
  function Secondary(settings: Settings): Mint -> bool { (m: Mint) => !IsPrimary(settings, m) }

  function OfferFor(settings: Settings, payTo: string, price: int, m: Mint): Offer {
    Offer(Exact, NetworkForRpc(settings.rpcUrl), price, payTo, m.address, m.symbol, m.decimals)
  }

  function BuildChallenge(settings: Settings, price: int): Option<seq<Offer>> {
    match settings.escrow
    case None => None
    case Some(payTo) =>
      var sorted := SortByRank(settings, Filter(settings.mints, NotPaused()));
      if sorted == [] then None
      else Some(seq(|sorted|, i requires 0 <= i < |sorted| => OfferFor(settings, payTo, price, sorted[i])))
  }

  lemma {:induction false} InsertSecondaryFirstRun(settings: Settings, front: seq<Mint>, back: seq<Mint>, m: Mint)
    requires forall x :: x in front ==> IsPrimary(settings, x)
    requires forall x :: x in back ==> !IsPrimary(settings, x)
    ensures InsertByRank(settings, front + back, m) ==
            if IsPrimary(settings, m) then front + [m] + back else front + back + [m]
  {
    if IsPrimary(settings, m) && back != [] {
      var n := |back| - 1;
      InsertSecondaryFirstRun(settings, front, back[..n], m);
      assert (front + back)[..|front + back| - 1] == front + back[..n];
      assert back[n] in back;
      assert back == back[..n] + [back[n]];
    }
  }

  /** Sorting by rank is the stable partition: the primaries in order, then the rest in order. */
  lemma {:induction false} SortIsStablePartition(settings: Settings, ms: seq<Mint>)
    ensures SortByRank(settings, ms) == Filter(ms, Primary(settings)) + Filter(ms, Secondary(settings))
  {
    if ms != [] {
      var n := |ms| - 1;
      SortIsStablePartition(settings, ms[..n]);
      var front, back := Filter(ms[..n], Primary(settings)), Filter(ms[..n], Secondary(settings));
      forall x ensures (x in front ==> IsPrimary(settings, x)) && (x in back ==> !IsPrimary(settings, x)) {
        FilterMembers(ms[..n], Primary(settings), x);
        FilterMembers(ms[..n], Secondary(settings), x);
      }
      InsertSecondaryFirstRun(settings, front, back, ms[n]);
    }
  }

  lemma {:induction false} PartitionKeepsAll(settings: Settings, ms: seq<Mint>)
    ensures multiset(Filter(ms, Primary(settings)) + Filter(ms, Secondary(settings))) == multiset(ms)
  {
    if ms != [] {
      var n := |ms| - 1;
      PartitionKeepsAll(settings, ms[..n]);
      assert ms == ms[..n] + [ms[n]];
    }
  }

  /** The same letter, in either case, or the same character. */
  ghost predicate SameLetter(a: char, b: char) {
    || a == b
    || ('A' <= a <= 'Z' && b as int == a as int + 32)
    || ('A' <= b <= 'Z' && a as int == b as int + 32)
  }

  ghost predicate IsNamed(m: Mint, symbol: string) {
    |m.symbol| == |symbol| && forall i :: 0 <= i < |symbol| ==> SameLetter(m.symbol[i], symbol[i])
  }

  lemma PrimaryIsNamed(settings: Settings, m: Mint)
    ensures IsPrimary(settings, m) <==> IsNamed(m, settings.primarySymbol)
  {
    forall a, b ensures Lower(a) == Lower(b) <==> SameLetter(a, b) {
    }
  }

  /** What a client is asked for: the price, into the escrow wallet, in this mint. */
  ghost predicate AsksFor(settings: Settings, price: int, offer: Offer, m: Mint) {
    && offer.scheme == Exact && offer.network == (if MentionsDevnet(settings.rpcUrl) then Devnet else Mainnet)
    && offer.amount == price && settings.escrow == Some(offer.payTo)
    && offer.asset == m.address && offer.symbol == m.symbol && offer.decimals == m.decimals
  }

  /** The challenge's offers are those for the sorted live mints, in their order. */
  lemma OffersAsk(settings: Settings, price: int)
    ensures
      var sorted, challenge := SortByRank(settings, Filter(settings.mints, NotPaused())), BuildChallenge(settings, price);
      && (challenge.None? <==> settings.escrow.None? || sorted == [])
      && (challenge.Some? ==>
            && |challenge.value| == |sorted|
            && forall i :: 0 <= i < |sorted| ==> AsksFor(settings, price, challenge.value[i], sorted[i]))
  {
    DevnetMentioned(settings.rpcUrl);
  }

  /** A challenge lists every live mint once each, primaries first, otherwise in configured order. */
  lemma ChallengeOrder(settings: Settings, price: int)
    ensures forall m :: IsPrimary(settings, m) <==> IsNamed(m, settings.primarySymbol)
    ensures
      var live, challenge := Filter(settings.mints, NotPaused()), BuildChallenge(settings, price);
      var ordered := Filter(live, Primary(settings)) + Filter(live, Secondary(settings));
      && (challenge.None? <==> settings.escrow.None? || live == [])
      && multiset(ordered) == multiset(live)
      && (challenge.Some? ==>
            && |challenge.value| == |ordered|
            && forall i :: 0 <= i < |ordered| ==> AsksFor(settings, price, challenge.value[i], ordered[i]))
  {
    forall m ensures IsPrimary(settings, m) <==> IsNamed(m, settings.primarySymbol) {
      PrimaryIsNamed(settings, m);
    }
    var live := Filter(settings.mints, NotPaused());
    OffersAsk(settings, price);
    SortIsStablePartition(settings, live);
    PartitionKeepsAll(settings, live);
    if live != [] {
      assert live[0] in multiset(live);
    }
  }

  lemma SortedMembers(settings: Settings, m: Mint)
    ensures m in SortByRank(settings, Filter(settings.mints, NotPaused())) <==> m in settings.mints && !m.paused
  {
    var live := Filter(settings.mints, NotPaused());
    SortIsStablePartition(settings, live);
    PartitionKeepsAll(settings, live);
    FilterMembers(settings.mints, NotPaused(), m);
    calc {
      m in SortByRank(settings, live);
      m in multiset(SortByRank(settings, live));
      m in multiset(live);
      m in live;
    }
  }

  lemma OfferedAssets(settings: Settings, price: int, asset: string)
    ensures (BuildChallenge(settings, price).Some? && exists o :: o in BuildChallenge(settings, price).value && o.asset == asset)
       <==> settings.escrow.Some? && exists m :: m in settings.mints && !m.paused && m.address == asset
  {
    var sorted := SortByRank(settings, Filter(settings.mints, NotPaused()));
    if settings.escrow.Some? {
      if m :| m in settings.mints && !m.paused && m.address == asset {
        SortedMembers(settings, m);
        var i :| 0 <= i < |sorted| && sorted[i] == m;
        assert BuildChallenge(settings, price).value[i].asset == asset;
      }
      if BuildChallenge(settings, price).Some? {
        var offers := BuildChallenge(settings, price).value;
        if o :| o in offers && o.asset == asset {
          var i :| 0 <= i < |offers| && offers[i] == o;
          SortedMembers(settings, sorted[i]);
        }
      }
    }
  }

  ghost predicate Offers(settings: Settings, price: int, asset: string) {
    BuildChallenge(settings, price).Some? && exists o :: o in BuildChallenge(settings, price).value && o.asset == asset
  }

  ghost predicate Accepts(settings: Settings, codec: Codec, wallet: Pubkey, asset: string) {
    exists a :: a in AcceptSet(codec, wallet, settings.mints) && a.mint == asset
  }

  /** The challenge asks only for what the verifier takes, exactly when every live mint has an account. */
  lemma ChallengeMatchesVerifier(settings: Settings, codec: Codec, wallet: Pubkey, price: int)
    requires settings.escrow.Some? && codec.decode(settings.escrow.value) == Some(wallet)
    ensures (forall asset :: Offers(settings, price, asset) <==> Accepts(settings, codec, wallet, asset))
       <==> forall m :: m in settings.mints && !m.paused ==> AcceptedEntry(codec, wallet, m).Some?
    ensures forall asset :: Accepts(settings, codec, wallet, asset) ==> Offers(settings, price, asset)
  {
    forall asset ensures Accepts(settings, codec, wallet, asset) ==> Offers(settings, price, asset) {
      OfferedAssets(settings, price, asset);
      if Accepts(settings, codec, wallet, asset) {
        var a :| a in AcceptSet(codec, wallet, settings.mints) && a.mint == asset;
        AcceptSetMembers(codec, wallet, settings.mints, a);
      }
    }
    if forall asset :: Offers(settings, price, asset) <==> Accepts(settings, codec, wallet, asset) {
      forall m | m in settings.mints && !m.paused ensures AcceptedEntry(codec, wallet, m).Some? {
        OfferedAssets(settings, price, m.address);
        assert Offers(settings, price, m.address);
        assert Accepts(settings, codec, wallet, m.address);
        var a :| a in AcceptSet(codec, wallet, settings.mints) && a.mint == m.address;
        AcceptSetMembers(codec, wallet, settings.mints, a);
      }
    }
    if forall m :: m in settings.mints && !m.paused ==> AcceptedEntry(codec, wallet, m).Some? {
      forall asset | Offers(settings, price, asset) ensures Accepts(settings, codec, wallet, asset) {
        OfferedAssets(settings, price, asset);
        var m :| m in settings.mints && !m.paused && m.address == asset;
        AcceptSetMembers(codec, wallet, settings.mints, AcceptedEntry(codec, wallet, m).value);
      }
    }
  }

  /** Every offer asks for the price, into the escrow wallet, in one unpaused mint. */
  lemma OfferAsks(settings: Settings, price: int, offer: Offer) returns (m: Mint)
    requires BuildChallenge(settings, price).Some? && offer in BuildChallenge(settings, price).value
    ensures m in settings.mints && !m.paused && AsksFor(settings, price, offer, m)
  {
    var sorted := SortByRank(settings, Filter(settings.mints, NotPaused()));
    var offers := BuildChallenge(settings, price).value;
    var i :| 0 <= i < |offers| && offers[i] == offer;
    m := sorted[i];
    SortedMembers(settings, m);
    DevnetMentioned(settings.rpcUrl);
  }

  /** What a client does that follows an offer: the transfer goes to the account of `payTo` for the asset. */
  ghost predicate Follows(codec: Codec, offer: Offer, ix: Instruction, from: string) {
    && ix.Parsed? && ix.transferChecked && ix.info.Some?
    && ix.info.value.mint == offer.asset && offer.asset != ""
    && codec.decode(offer.payTo).Some? && codec.decode(offer.asset).Some?
    && codec.account(codec.decode(offer.payTo).value, codec.decode(offer.asset).value) == Some(ix.info.value.destination)
    && offer.amount <= (if ix.info.value.amount.Some? then ix.info.value.amount.value else 0)
    && ix.info.value.authority == from
  }

  /** Following any offer of the challenge, in the transaction's first escrow transfer, satisfies the verifier. */
  lemma PayingAnOfferVerifies(
    settings: Settings, codec: Codec, price: int, offer: Offer, payment: Payment, tx: Tx, i: nat, now: int)
    requires BuildChallenge(settings, price).Some? && offer in BuildChallenge(settings, price).value
    requires payment.scheme == offer.scheme && payment.network == offer.network
    requires Fresh(settings, tx, now)
    requires i < |Instructions(tx)| && Follows(codec, offer, Instructions(tx)[i], payment.from)
    requires forall j :: 0 <= j < i ==> !IsEscrowTransfer(settings, codec, Instructions(tx)[j])
    ensures VerifyPayment(settings, codec, payment, Found(tx), now, price).Success?
  {
    var m := OfferAsks(settings, price, offer);
    assert LiveMintPaid(codec, codec.decode(offer.payTo).value, m, Instructions(tx)[i].info.value);
    assert PaidAt(settings, codec, Instructions(tx), i, price, payment.from);
    VerifyAcceptsExactly(settings, codec, payment, Found(tx), now, price);
  }

  /** Whatever the verifier accepts paid one of the offers of the challenge, in the currency it reports. */
  lemma VerifiedPaidAnOffer(
    settings: Settings, codec: Codec, payment: Payment, reply: Reply, now: int, price: int)
    requires VerifyPayment(settings, codec, payment, reply, now, price).Success?
    ensures reply.Found? && BuildChallenge(settings, price).Some?
    ensures exists i, offer ::
              && PaidAt(settings, codec, Instructions(reply.tx), i, price, payment.from)
              && offer in BuildChallenge(settings, price).value
              && Follows(codec, offer, Instructions(reply.tx)[i], payment.from)
              && offer.symbol == VerifyPayment(settings, codec, payment, reply, now, price).value.currency
  {
    VerifyAcceptsExactly(settings, codec, payment, reply, now, price);
    var i :| PaidAt(settings, codec, Instructions(reply.tx), i, price, payment.from);
    var info := Instructions(reply.tx)[i].info.value;
    var m := CurrencyPaid(settings, codec, payment, reply, now, price, i);
    var offer := MintOffered(settings, price, m);
    assert Follows(codec, offer, Instructions(reply.tx)[i], payment.from);
  }

  /** The mint that the first escrow transfer was in, as the verifier names it. */
  lemma CurrencyPaid(
    settings: Settings, codec: Codec, payment: Payment, reply: Reply, now: int, price: int, i: nat) returns (m: Mint)
    requires VerifyPayment(settings, codec, payment, reply, now, price).Success?
    requires PaidAt(settings, codec, Instructions(reply.tx), i, price, payment.from)
    ensures m in settings.mints
    ensures LiveMintPaid(codec, codec.decode(settings.escrow.value).value, m, Instructions(reply.tx)[i].info.value)
    ensures m.symbol == VerifyPayment(settings, codec, payment, reply, now, price).value.currency
  {
    var wallet := codec.decode(settings.escrow.value).value;
    var accepted, ixs := AcceptSet(codec, wallet, settings.mints), Instructions(reply.tx);
    forall j | 0 <= j <= i ensures TransferOf(accepted, ixs[j]).Some? <==> j == i {
      TransferOfMeansEscrow(settings, codec, ixs[j]);
    }
    FirstTransferIs(accepted, ixs, i);
    var a := FoundEntry(accepted, ixs[i].info.value.mint, ixs[i].info.value.destination);
    AcceptSetMembers(codec, wallet, settings.mints, a);
    m :| m in settings.mints && AcceptedEntry(codec, wallet, m) == Some(a);
  }

  lemma {:induction false} FoundEntry(accepted: seq<Accepted>, mint: string, destination: string) returns (a: Accepted)
    requires FindAccepted(accepted, mint, destination).Some?
    ensures FindAccepted(accepted, mint, destination) == Some(a)
    ensures a in accepted && a.mint == mint && a.account == destination
  {
    a := accepted[0];
    if a.mint != mint || a.account != destination {
      a := FoundEntry(accepted[1..], mint, destination);
    }
  }

  lemma MintOffered(settings: Settings, price: int, m: Mint) returns (offer: Offer)
    requires settings.escrow.Some? && m in settings.mints && !m.paused
    ensures BuildChallenge(settings, price).Some? && offer in BuildChallenge(settings, price).value
    ensures AsksFor(settings, price, offer, m)
  {
    var sorted := SortByRank(settings, Filter(settings.mints, NotPaused()));
    SortedMembers(settings, m);
    var i :| 0 <= i < |sorted| && sorted[i] == m;
    offer := BuildChallenge(settings, price).value[i];
    DevnetMentioned(settings.rpcUrl);
  }

  /** A verified payment's signature is returned, and its transaction brought at least the price into escrow. */
  lemma VerifiedCoversPrice(
    settings: Settings, codec: Codec, payment: Payment, reply: Reply, now: int, price: int)
    requires VerifyPayment(settings, codec, payment, reply, now, price).Success?
    ensures VerifyPayment(settings, codec, payment, reply, now, price).value.signature == payment.signature
    ensures reply.Found? && price <= PaidAmount(settings, codec, reply.tx) <= EscrowReceived(settings, codec, reply.tx)
  {
    PaidIsReceived(settings, codec, reply.tx);
  }
}

/**
 One-time login nonces: a store that forgets a nonce when it is named or has expired, against the
 plain record of everything that was ever asked of it. Times are in nanoseconds.
 */
module Nonces {
  import opened Common

  type Nonce = string
  type Wallet = string
  type Time = int

  const NONCE_EXPIRY := 300_000_000_000

  datatype Issued = Issued(wallet: Wallet, created: Time)

  type Store = map<Nonce, Issued>

  datatype Op =
    | Generate(nonce: Nonce, wallet: Wallet, at: Time)
    | Validate(nonce: Nonce, wallet: Wallet, at: Time)

  // ---------------------------------------------------------------- the store

  function Unexpired(nonces: Store, now: Time): Store {
    map nonce | nonce in nonces && Elapsed(nonces[nonce].created, now) < NONCE_EXPIRY :: nonces[nonce]
  }

  /** What one operation does to the store, and whether it says yes. */
  function Apply(nonces: Store, op: Op): (Store, bool) {
    match op
    case Generate(nonce, wallet, now) => (Unexpired(nonces, now)[nonce := Issued(wallet, now)], true)
    case Validate(nonce, wallet, now) =>
      if nonce in nonces then
        (nonces - {nonce}, nonces[nonce].wallet == wallet && Elapsed(nonces[nonce].created, now) < NONCE_EXPIRY)
      else (nonces, false)
  }

  class NonceStore {
    var nonces: Store

    constructor ()
      ensures nonces == map[]
    {
      nonces := map[];
    }

    /** `nonce` is the random string drawn for this call. */
    method Generate(wallet: Wallet, nonce: Nonce, now: Time) returns (issued: Nonce)
      modifies this
      ensures issued == nonce
      ensures nonces == Apply(old(nonces), Op.Generate(nonce, wallet, now)).0
      ensures forall n :: n in nonces && n != nonce ==>
                n in old(nonces) && nonces[n] == old(nonces)[n] && now - nonces[n].created < 300_000_000_000
    {
      nonces := Unexpired(nonces, now);
      nonces := nonces[nonce := Issued(wallet, now)];
      issued := nonce;
    }

    method ValidateAndRemove(nonce: Nonce, wallet: Wallet, now: Time) returns (valid: bool)
      modifies this
      ensures (nonces, valid) == Apply(old(nonces), Validate(nonce, wallet, now))
    {
      if nonce in nonces {
        var stored := nonces[nonce];
        nonces := nonces - {nonce};
        valid := stored.wallet == wallet && Elapsed(stored.created, now) < NONCE_EXPIRY;
      } else {
        valid := false;
      }
    }
  }

  function Run(ops: seq<Op>): (Store, seq<bool>) {
    if ops == [] then (map[], [])
    else
      var n := |ops| - 1;
      var (nonces, answers) := Run(ops[..n]);
      var (nonces', yes) := Apply(nonces, ops[n]);
      (nonces', answers + [yes])
  }

  // ---------------------------------------------------------------- the record

  /** Who holds the nonce by the record: the wallet it was issued to, if nothing has named it since. */
  function Holder(ops: seq<Op>, nonce: Nonce): Option<Issued> {
    if ops == [] then None
    else
      var last := ops[|ops| - 1];
      if last.nonce != nonce then Holder(ops[..|ops| - 1], nonce)
      else if last.Generate? then Some(Issued(last.wallet, last.at))
      else None
  }

  function StillLive(issued: Option<Issued>, t: Time): Option<Issued> {
    if issued.Some? && Elapsed(issued.value.created, t) < NONCE_EXPIRY then issued else None
  }

  function Lookup(nonces: Store, nonce: Nonce): Option<Issued> {
    if nonce in nonces then Some(nonces[nonce]) else None
  }

  /** From `now` on, the store and the record agree on who holds an unexpired nonce. */
  ghost predicate Agrees(nonces: Store, ops: seq<Op>, now: Time) {
    forall nonce, t :: now <= t ==> StillLive(Lookup(nonces, nonce), t) == StillLive(Holder(ops, nonce), t)
  }

  ghost predicate InTimeOrder(ops: seq<Op>) {
    forall i, j :: 0 <= i < j < |ops| ==> ops[i].at <= ops[j].at
  }

  lemma {:induction false} RunAgrees(ops: seq<Op>, now: Time)
    requires InTimeOrder(ops) && (ops != [] ==> ops[|ops| - 1].at <= now)
    ensures Agrees(Run(ops).0, ops, now)
  {
    if ops != [] {
      var n := |ops| - 1;
      RunAgrees(ops[..n], ops[n].at);
    }
  }

  lemma {:induction false} AnswersLength(ops: seq<Op>)
    ensures |Run(ops).1| == |ops|
  {
    if ops != [] {
      AnswersLength(ops[..|ops| - 1]);
    }
  }

  lemma {:induction false} AnswerAt(ops: seq<Op>, j: nat)
    requires j < |ops|
    ensures |Run(ops).1| == |ops|
    ensures Run(ops).1[j] == Apply(Run(ops[..j]).0, ops[j]).1
  {
    AnswersLength(ops);
    AnswersLength(ops[..|ops| - 1]);
    if j < |ops| - 1 {
      AnswerAt(ops[..|ops| - 1], j);
      assert ops[..|ops| - 1][..j] == ops[..j];
    }
  }

  // ---------------------------------------------------------------- one-shot

  /** The operation at `i` issued the nonce that the one at `j` names, and nothing between names it. */
  ghost predicate IssuedAt(ops: seq<Op>, i: int, j: int) {
    && 0 <= i < j < |ops| && ops[i].Generate? && ops[i].nonce == ops[j].nonce
    && forall k :: i < k < j ==> ops[k].nonce != ops[j].nonce
  }

  /** Moreover it was issued to the wallet that now names it, less than five minutes before. */
  ghost predicate GoodFor(ops: seq<Op>, i: int, j: int) {
    IssuedAt(ops, i, j) && ops[i].wallet == ops[j].wallet && ops[j].at - ops[i].at < 300_000_000_000
  }

  /** The last operation to name the nonce, if it is the one at `i` that issued it. */
  ghost predicate LastIssued(ops: seq<Op>, i: int, nonce: Nonce) {
    && 0 <= i < |ops| && ops[i].Generate? && ops[i].nonce == nonce
    && forall k :: i < k < |ops| ==> ops[k].nonce != nonce
  }

  lemma {:induction false} HolderExactly(ops: seq<Op>, nonce: Nonce)
    ensures Holder(ops, nonce).Some? ==> exists i :: LastIssued(ops, i, nonce)
    ensures forall i :: LastIssued(ops, i, nonce) ==> Holder(ops, nonce) == Some(Issued(ops[i].wallet, ops[i].at))
  {
    if ops != [] {
      var n := |ops| - 1;
      HolderExactly(ops[..n], nonce);
      if Holder(ops, nonce).Some? && ops[n].nonce != nonce {
        var i :| LastIssued(ops[..n], i, nonce);
        assert LastIssued(ops, i, nonce);
      } else if Holder(ops, nonce).Some? {
        assert LastIssued(ops, n, nonce);
      }
      forall i | LastIssued(ops, i, nonce) ensures Holder(ops, nonce) == Some(Issued(ops[i].wallet, ops[i].at)) {
        if i < n {
          assert LastIssued(ops[..n], i, nonce);
        }
      }
    }
  }

  /**
   In every run in time order a nonce validates exactly when it was issued to that wallet less than five
   minutes before and nothing has named it since; the sweeps change no answer.
   */
  lemma ValidatesExactly(ops: seq<Op>, j: nat)
    requires InTimeOrder(ops) && j < |ops| && ops[j].Validate?
    ensures |Run(ops).1| == |ops|
    ensures Run(ops).1[j] <==> exists i :: GoodFor(ops, i, j)
  {
    AnswerAt(ops, j);
    var before, nonce := ops[..j], ops[j].nonce;
    RunAgrees(before, ops[j].at);
    assert StillLive(Lookup(Run(before).0, nonce), ops[j].at) == StillLive(Holder(before, nonce), ops[j].at);
    HolderExactly(before, nonce);
    if Run(ops).1[j] {
      var i :| LastIssued(before, i, nonce);
      assert GoodFor(ops, i, j);
    }
    if i :| GoodFor(ops, i, j) {
      assert LastIssued(before, i, nonce);
    }
  }

  /** The random strings never repeat. */
  ghost predicate NoncesDiffer(ops: seq<Op>) {
    forall i, j :: 0 <= i < j < |ops| && ops[i].Generate? && ops[j].Generate? ==> ops[i].nonce != ops[j].nonce
  }

  /** Then no nonce validates twice, for whatever wallets. */
  lemma OneShot(ops: seq<Op>, j: nat, k: nat)
    requires InTimeOrder(ops) && NoncesDiffer(ops)
    requires j < k < |ops| && ops[j].Validate? && ops[k].Validate? && ops[j].nonce == ops[k].nonce
    ensures |Run(ops).1| == |ops| && !(Run(ops).1[j] && Run(ops).1[k])
  {
    ValidatesExactly(ops, j);
    ValidatesExactly(ops, k);
  }

  /** Any attempt on an issued nonce uses it up, even one with the wrong wallet or after it expired. */
  lemma AttemptUsesUp(ops: seq<Op>, i: nat, j: nat, k: nat)
    requires InTimeOrder(ops) && NoncesDiffer(ops)
    requires i < j < k < |ops| && ops[i].Generate? && ops[j].Validate? && ops[k].Validate?
    requires ops[i].nonce == ops[j].nonce == ops[k].nonce
    ensures |Run(ops).1| == |ops| && !Run(ops).1[k]
  {
    ValidatesExactly(ops, k);
  }
}

/**
 What the relay believes of a Nitro attestation document: who signed it, which image it measures, and which
 two keys its 72 bytes of user data bind, and when. Hashes and signatures are uninterpreted.
 */
module Attestation {
  import opened Common
  import opened CertChain

  newtype Byte = b: int | 0 <= b < 256

  const KEY_LEN := 32
  const USER_DATA_LEN := 72
  const USER_DATA_TS_SKEW_MS := 60_000
  const ATTESTATION_TTL_SECS := 24 * 60 * 60

  const TWO_63 := 0x8000_0000_0000_0000
  const TWO_64 := 0x1_0000_0000_0000_0000

  datatype Pcr = Pcr(index: nat, digest: seq<Byte>)

  datatype Doc = Doc(pcrs: seq<Pcr>, timestampMs: nat, userData: Option<seq<Byte>>)

  datatype TeeKind = Nitro | OtherTee

  datatype AttestationError =
    | Malformed
    | Chain
    | Signature
    | MissingPcr(index: nat)
    | UserDataMismatch
    | AllowlistSig
    | KmsSig
    | Expired
    | FutureTimestamp
    | UnsupportedTeeKind
    | Overflow

  datatype AttestedEnclave = AttestedEnclave(
    keyId: string, x25519Pub: seq<Byte>, ed25519Pub: seq<Byte>, measurement: seq<Byte>,
    attestedAt: int, expiresAt: int)

  // ---------------------------------------------------------------- 64-bit timestamps, little-endian

  predicate IsI64(n: int) { -TWO_63 <= n < TWO_63 }

  /** `i64::to_le_bytes` and back, by way of the two's complement. */
  function Unsigned(n: int): nat
    requires IsI64(n)
  {
    if n < 0 then n + TWO_64 else n
  }

  function Signed(u: nat): int { if u < TWO_63 then u else u - TWO_64 }

  function ToLe(u: nat, count: nat): (bytes: seq<Byte>)
    ensures |bytes| == count
  {
    if count == 0 then [] else [(u % 256) as Byte] + ToLe(u / 256, count - 1)
  }

  function FromLe(bytes: seq<Byte>): nat {
    if bytes == [] then 0 else bytes[0] as nat + 256 * FromLe(bytes[1..])
  }

  function Power256(n: nat): nat { if n == 0 then 1 else 256 * Power256(n - 1) }

  lemma {:induction false} LeBack(u: nat, count: nat)
    requires u < Power256(count)
    ensures FromLe(ToLe(u, count)) == u
  {
    if count > 0 {
      assert u / 256 < Power256(count - 1);
      LeBack(u / 256, count - 1);
      assert ToLe(u, count)[1..] == ToLe(u / 256, count - 1);
    }
  }

  lemma {:induction false} LeForth(bytes: seq<Byte>)
    ensures FromLe(bytes) < Power256(|bytes|) && ToLe(FromLe(bytes), |bytes|) == bytes
  {
    if bytes != [] {
      LeForth(bytes[1..]);
      assert FromLe(bytes) / 256 == FromLe(bytes[1..]) && FromLe(bytes) % 256 == bytes[0] as nat;
      assert bytes == [bytes[0]] + bytes[1..];
    }
  }

  /** What is left of a number without its last `i` bytes. */
  function Shifted(u: nat, i: nat): nat { if i == 0 then u else Shifted(u / 256, i - 1) }

  /** Byte i of the encoding is the number's i-th from the right. */
  lemma {:induction false} LeByte(u: nat, count: nat, i: nat)
    requires i < count
    ensures ToLe(u, count)[i] as int == Shifted(u, i) % 256
  {
    if i > 0 {
      LeByte(u / 256, count - 1, i - 1);
    }
  }

  // ---------------------------------------------------------------- the 72 bytes

  function Packed(x25519: seq<Byte>, ed25519: seq<Byte>, timestampMs: int): seq<Byte>
    requires IsI64(timestampMs)
  {
    x25519 + ed25519 + ToLe(Unsigned(timestampMs), 8)
  }

  method PackUserData(x25519: seq<Byte>, ed25519: seq<Byte>, timestampMs: int) returns (out: seq<Byte>)
    requires |x25519| == KEY_LEN && |ed25519| == KEY_LEN && IsI64(timestampMs)
    ensures |out| == 72 && out == Packed(x25519, ed25519, timestampMs)
    ensures out[..32] == x25519 && out[32..64] == ed25519
    ensures
      var u := if timestampMs < 0 then timestampMs + 0x1_0000_0000_0000_0000 else timestampMs;
      forall i :: 0 <= i < 8 ==> out[64 + i] as int == Shifted(u, i) % 256
  {
    forall i | 0 <= i < 8 ensures ToLe(Unsigned(timestampMs), 8)[i] as int == Shifted(Unsigned(timestampMs), i) % 256 {
      LeByte(Unsigned(timestampMs), 8, i);
    }
    out := [];
    out := out + x25519;
    out := out + ed25519;
    out := out + ToLe(Unsigned(timestampMs), 8);
  }

  datatype UserData = UserData(x25519Pub: seq<Byte>, ed25519Pub: seq<Byte>, timestampMs: int)

  function Unpack(ud: seq<Byte>): Option<UserData> {
    if |ud| != USER_DATA_LEN then None
    else Some(UserData(ud[0..32], ud[32..64], Signed(FromLe(ud[64..72]))))
  }

  /** Packing and unpacking undo each other: for every pair of keys and timestamp, and every 72 bytes. */
  lemma PackBack(x25519: seq<Byte>, ed25519: seq<Byte>, timestampMs: int)
    requires |x25519| == KEY_LEN && |ed25519| == KEY_LEN && IsI64(timestampMs)
    ensures Unpack(Packed(x25519, ed25519, timestampMs)) == Some(UserData(x25519, ed25519, timestampMs))
  {
    var ud, le := Packed(x25519, ed25519, timestampMs), ToLe(Unsigned(timestampMs), 8);
    LeBack(Unsigned(timestampMs), 8);
    assert ud[0..32] == x25519 && ud[32..64] == ed25519 && ud[64..72] == le;
  }

  lemma UnpackForth(ud: seq<Byte>)
    requires |ud| == USER_DATA_LEN
    ensures Unpack(ud).Some? && IsI64(Unpack(ud).value.timestampMs)
    ensures Packed(Unpack(ud).value.x25519Pub, Unpack(ud).value.ed25519Pub, Unpack(ud).value.timestampMs) == ud
  {
    LeForth(ud[64..72]);
    assert ud == ud[0..32] + ud[32..64] + ud[64..72];
  }

  // ---------------------------------------------------------------- the measurement

  /** The first digest with an index. */
  function FindPcr(pcrs: seq<Pcr>, index: nat): Option<seq<Byte>> {
    if pcrs == [] then None
    else if pcrs[0].index == index then Some(pcrs[0].digest)
    else FindPcr(pcrs[1..], index)
  }

  lemma {:induction false} FindPcrExactly(pcrs: seq<Pcr>, index: nat, digest: seq<Byte>)
    ensures FindPcr(pcrs, index) == Some(digest) <==>
            exists i :: 0 <= i < |pcrs| && pcrs[i] == Pcr(index, digest)
                        && forall j :: 0 <= j < i ==> pcrs[j].index != index
    ensures FindPcr(pcrs, index) == None <==> forall p :: p in pcrs ==> p.index != index
  {
    if pcrs != [] {
      FindPcrExactly(pcrs[1..], index, digest);
      if pcrs[0].index != index {
        if i :| 0 <= i < |pcrs[1..]| && pcrs[1..][i] == Pcr(index, digest) && forall j :: 0 <= j < i ==> pcrs[1..][j].index != index {
          assert pcrs[i + 1] == Pcr(index, digest);
        }
        if i :| 0 <= i < |pcrs| && pcrs[i] == Pcr(index, digest) && forall j :: 0 <= j < i ==> pcrs[j].index != index {
          assert pcrs[1..][i - 1] == Pcr(index, digest);
        }
      } else {
        assert pcrs[0] == Pcr(index, pcrs[0].digest);
      }
      assert forall p :: p in pcrs <==> p == pcrs[0] || p in pcrs[1..];
    }
  }

  /** PCR0, PCR1 and PCR2 end to end, or the first that is missing. */
  function Measurement(doc: Doc): Result<seq<Byte>, AttestationError> {
    var p0, p1, p2 := FindPcr(doc.pcrs, 0), FindPcr(doc.pcrs, 1), FindPcr(doc.pcrs, 2);
    if p0.None? then Failure(MissingPcr(0))
    else if p1.None? then Failure(MissingPcr(1))
    else if p2.None? then Failure(MissingPcr(2))
    else Success(p0.value + p1.value + p2.value)
  }

  method DeriveMeasurement(doc: Doc) returns (r: Result<seq<Byte>, AttestationError>)
    ensures r == Measurement(doc)
    ensures r.Success? <==> FindPcr(doc.pcrs, 0).Some? && FindPcr(doc.pcrs, 1).Some? && FindPcr(doc.pcrs, 2).Some?
    ensures r.Success? ==>
              r.value == FindPcr(doc.pcrs, 0).value + FindPcr(doc.pcrs, 1).value + FindPcr(doc.pcrs, 2).value
    ensures r.Failure? ==>
              exists n :: 0 <= n < 3 && r.error == MissingPcr(n) && FindPcr(doc.pcrs, n).None?
                       && forall k :: 0 <= k < n ==> FindPcr(doc.pcrs, k).Some?
  {
    var out: seq<Byte> := [];
    for n := 0 to 3
      invariant forall k :: 0 <= k < n ==> FindPcr(doc.pcrs, k).Some?
      invariant n == 0 ==> out == []
      invariant n == 1 ==> out == FindPcr(doc.pcrs, 0).value
      invariant n == 2 ==> out == FindPcr(doc.pcrs, 0).value + FindPcr(doc.pcrs, 1).value
      invariant n == 3 ==> out == FindPcr(doc.pcrs, 0).value + FindPcr(doc.pcrs, 1).value + FindPcr(doc.pcrs, 2).value
    {
      var digest := FindPcr(doc.pcrs, n);
      if digest.None? {
        return Failure(MissingPcr(n));
      }
      out := out + digest.value;
    }
    assert FindPcr(doc.pcrs, 0).Some? && FindPcr(doc.pcrs, 1).Some? && FindPcr(doc.pcrs, 2).Some?;
    r := Success(out);
  }

  function InsertPcr(sorted: seq<Pcr>, p: Pcr): seq<Pcr> {
    if sorted == [] || p.index <= sorted[0].index then [p] + sorted
    else [sorted[0]] + InsertPcr(sorted[1..], p)
  }

  /** The decoder's stable sort of the PCR map by index. */
  function SortPcrs(pcrs: seq<Pcr>): seq<Pcr> {
    if pcrs == [] then [] else InsertPcr(SortPcrs(pcrs[1..]), pcrs[0])
  }

  /** Sorting the PCRs, even with an index given twice, changes no lookup, and so no measurement. */
  lemma {:induction false} SortKeepsPcrs(pcrs: seq<Pcr>, index: nat)
    ensures FindPcr(SortPcrs(pcrs), index) == FindPcr(pcrs, index)
  {
    if pcrs != [] {
      SortKeepsPcrs(pcrs[1..], index);
      InsertFinds(SortPcrs(pcrs[1..]), pcrs[0], index);
    }
  }

  lemma {:induction false} InsertFinds(sorted: seq<Pcr>, p: Pcr, index: nat)
    ensures FindPcr(InsertPcr(sorted, p), index) == if p.index == index then Some(p.digest) else FindPcr(sorted, index)
  {
    if sorted == [] || p.index <= sorted[0].index {
      assert ([p] + sorted)[1..] == sorted;
    } else {
      InsertFinds(sorted[1..], p, index);
      assert InsertPcr(sorted, p)[1..] == InsertPcr(sorted[1..], p);
    }
  }

  ghost predicate SamePcr(d: Doc, e: Doc, index: nat) { FindPcr(d.pcrs, index) == FindPcr(e.pcrs, index) }

  /** Equal measurements mean equal digests as soon as the first two have equal lengths, and not otherwise. */
  lemma MeasurementTellsPcrs(d: Doc, e: Doc)
    requires Measurement(d).Success? && Measurement(e).Success?
    ensures SamePcr(d, e, 0) && SamePcr(d, e, 1) && SamePcr(d, e, 2) <==>
            Measurement(d) == Measurement(e)
            && |FindPcr(d.pcrs, 0).value| == |FindPcr(e.pcrs, 0).value|
            && |FindPcr(d.pcrs, 1).value| == |FindPcr(e.pcrs, 1).value|
  {
    var d0, d1, d2 := FindPcr(d.pcrs, 0).value, FindPcr(d.pcrs, 1).value, FindPcr(d.pcrs, 2).value;
    var e0, e1, e2 := FindPcr(e.pcrs, 0).value, FindPcr(e.pcrs, 1).value, FindPcr(e.pcrs, 2).value;
    if Measurement(d) == Measurement(e) && |d0| == |e0| && |d1| == |e1| {
      var whole := d0 + d1 + d2;
      assert d0 == whole[..|d0|] == e0;
      assert d1 == whole[|d0|..|d0| + |d1|] == e1;
      assert d2 == whole[|d0| + |d1|..] == e2;
    }
  }

  // ---------------------------------------------------------------- the document

  /** A COSE envelope whose payload decoded: the document, its chain, and which keys its signature verifies under. */
  datatype Envelope = Envelope(doc: Doc, certificate: Der, bundle: seq<Der>, signedUnder: Key -> bool)

  ghost predicate Chained(envelope: Envelope, rootDer: Der, crypto: Crypto) {
    && Accepted(envelope.certificate, envelope.bundle, rootDer, crypto)
    && crypto.onCurve(crypto.parse(envelope.certificate).value.key)
  }

  /** Why an envelope is refused before its document is looked at. */
  ghost function NotGenuine(envelope: Option<Envelope>, rootDer: Der, crypto: Crypto): AttestationError {
    if envelope.None? then Malformed else if !Chained(envelope.value, rootDer, crypto) then Chain else Signature
  }

  ghost predicate Genuine(envelope: Option<Envelope>, rootDer: Der, crypto: Crypto) {
    && envelope.Some?
    && Chained(envelope.value, rootDer, crypto)
    && envelope.value.signedUnder(crypto.parse(envelope.value.certificate).value.key)
  }

  method ParseAndVerifyWithRoot(envelope: Option<Envelope>, rootDer: Der, crypto: Crypto)
    returns (r: Result<Doc, AttestationError>)
    ensures r.Success? <==> Genuine(envelope, rootDer, crypto)
    ensures r.Success? ==> r.value == envelope.value.doc
    ensures r.Failure? ==> r.error == NotGenuine(envelope, rootDer, crypto)
  {
    if envelope.None? {
      return Failure(Malformed);
    }
    var chain := VerifyCertChain(envelope.value.certificate, envelope.value.bundle, rootDer, crypto);
    if chain.Failure? {
      return Failure(Chain);
    }
    var leaf := crypto.parse(envelope.value.certificate).value;
    if !crypto.onCurve(leaf.key) {
      return Failure(Chain);
    }
    if !envelope.value.signedUnder(leaf.key) {
      return Failure(Signature);
    }
    r := Success(envelope.value.doc);
  }

  /** What a document must say, besides being genuine, to be accepted at `now`. */
  ghost predicate Believable(doc: Doc, allowed: seq<Byte> -> bool, kms: Option<seq<Byte> -> bool>, now: int) {
    && Measurement(doc).Success? && allowed(Measurement(doc).value)
    && (kms.Some? ==> kms.value(Measurement(doc).value))
    && doc.userData.Some? && Unpack(doc.userData.value).Some?
    && doc.timestampMs < TWO_63
    && Close(Unpack(doc.userData.value).value.timestampMs, doc.timestampMs)
    && doc.timestampMs / 1000 <= now + 60 && now <= doc.timestampMs / 1000 + ATTESTATION_TTL_SECS
  }

  predicate Close(a: int, b: int) { -USER_DATA_TS_SKEW_MS <= a - b <= USER_DATA_TS_SKEW_MS }

  /** What is wrong with a genuine document that is refused for a reason. */
  ghost predicate Explains(
    reason: AttestationError, doc: Doc, allowed: seq<Byte> -> bool, kms: Option<seq<Byte> -> bool>, now: int)
  {
    match reason
    case MissingPcr(n) => FindPcr(doc.pcrs, n).None? && forall k :: 0 <= k < n ==> FindPcr(doc.pcrs, k).Some?
    case AllowlistSig => Measurement(doc).Success? && !allowed(Measurement(doc).value)
    case KmsSig => Measurement(doc).Success? && kms.Some? && !kms.value(Measurement(doc).value)
    case UserDataMismatch =>
      doc.userData.None? || Unpack(doc.userData.value).None?
      || !Close(Unpack(doc.userData.value).value.timestampMs, doc.timestampMs)
    case Overflow =>
      doc.timestampMs >= TWO_63
      || (doc.userData.Some? && Unpack(doc.userData.value).Some?
          && Unpack(doc.userData.value).value.timestampMs - doc.timestampMs <= -TWO_63)
    case FutureTimestamp => doc.timestampMs / 1000 > now + 60
    case Expired => now > doc.timestampMs / 1000 + ATTESTATION_TTL_SECS
    case _ => false
  }

  method VerifyAttestation(
    envelope: Option<Envelope>, rootDer: Der, crypto: Crypto, allowed: seq<Byte> -> bool,
    kms: Option<seq<Byte> -> bool>, sha256Hex: seq<Byte> -> string, kind: TeeKind, now: int)
    returns (r: Result<AttestedEnclave, AttestationError>)
    ensures r.Success? <==>
            kind == Nitro && Genuine(envelope, rootDer, crypto) && Believable(envelope.value.doc, allowed, kms, now)
    ensures r.Success? ==>
            var doc := envelope.value.doc;
            var ud := Unpack(doc.userData.value).value;
            r.value == AttestedEnclave(sha256Hex(ud.x25519Pub), ud.x25519Pub, ud.ed25519Pub, Measurement(doc).value,
                                       doc.timestampMs / 1000, doc.timestampMs / 1000 + ATTESTATION_TTL_SECS)
    ensures r.Success? ==>
              var ud := envelope.value.doc.userData.value;
              |ud| == 72 && r.value.x25519Pub == ud[..32] && r.value.ed25519Pub == ud[32..64]
              && r.value.expiresAt == r.value.attestedAt + 86_400
    ensures kind != Nitro ==> r == Failure(UnsupportedTeeKind)
    ensures kind == Nitro && Genuine(envelope, rootDer, crypto) && r.Failure? ==>
              Explains(r.error, envelope.value.doc, allowed, kms, now)
    ensures kind == Nitro && !Genuine(envelope, rootDer, crypto) ==>
              r == Failure(NotGenuine(envelope, rootDer, crypto))
  {
    if kind != Nitro {
      return Failure(UnsupportedTeeKind);
    }
    var parsed := ParseAndVerifyWithRoot(envelope, rootDer, crypto);
    if parsed.Failure? {
      return Failure(parsed.error);
    }
    var doc := parsed.value;
    var measurement := DeriveMeasurement(doc);
    if measurement.Failure? {
      return Failure(measurement.error);
    }
    if !allowed(measurement.value) {
      return Failure(AllowlistSig);
    }
    if kms.Some? && !kms.value(measurement.value) {
      return Failure(KmsSig);
    }
    if doc.userData.None? || |doc.userData.value| != USER_DATA_LEN {
      return Failure(UserDataMismatch);
    }
    var ud := doc.userData.value;
    UnpackForth(ud);
    var x25519Pub, ed25519Pub := ud[0..32], ud[32..64];
    var udTs := Signed(FromLe(ud[64..72]));
    if doc.timestampMs >= TWO_63 || !IsI64(udTs - doc.timestampMs) || udTs - doc.timestampMs == -TWO_63 {
      return Failure(Overflow);
    }
    if (if udTs < doc.timestampMs then doc.timestampMs - udTs else udTs - doc.timestampMs) > USER_DATA_TS_SKEW_MS {
      return Failure(UserDataMismatch);
    }
    var attestedAt := doc.timestampMs / 1000;
    var expiresAt := attestedAt + ATTESTATION_TTL_SECS;
    if attestedAt > now + 60 {
      return Failure(FutureTimestamp);
    }
    if now > expiresAt {
      return Failure(Expired);
    }
    r := Success(AttestedEnclave(sha256Hex(x25519Pub), x25519Pub, ed25519Pub, measurement.value, attestedAt, expiresAt));
  }

  /**
   A believable document's user data is the packing of exactly the two keys that are believed, with a time no
   more than a minute from the document's own, and so no older than a day and a minute, nor further ahead
   than two minutes and a second.
   */
  lemma BoundKeysAreFresh(
    doc: Doc, allowed: seq<Byte> -> bool, kms: Option<seq<Byte> -> bool>, now: int) returns (ts: int)
    requires Believable(doc, allowed, kms, now)
    ensures
      var ud := Unpack(doc.userData.value).value;
      && IsI64(ts) && doc.userData == Some(Packed(ud.x25519Pub, ud.ed25519Pub, ts))
      && Close(ts, doc.timestampMs)
      && (now - 86_400) * 1000 - 60_000 <= ts < (now + 121) * 1000
  {
    UnpackForth(doc.userData.value);
    ts := Unpack(doc.userData.value).value.timestampMs;
  }

  /**
   A document that packs two keys at some time is believed for those keys exactly if that time is within a minute of
   its own, its image is allowed, and this is its day.
   */
  lemma PackedIsBelieved(
    pcrs: seq<Pcr>, x25519: seq<Byte>, ed25519: seq<Byte>, timestampMs: nat, skew: int,
    allowed: seq<Byte> -> bool, now: int)
    requires |x25519| == 32 && |ed25519| == 32
    requires timestampMs + 60_000 < 0x8000_0000_0000_0000
    requires IsI64(timestampMs + skew)
    ensures
      var doc := Doc(pcrs, timestampMs, Some(Packed(x25519, ed25519, timestampMs + skew)));
      && Unpack(doc.userData.value) == Some(UserData(x25519, ed25519, timestampMs + skew))
      && (Believable(doc, allowed, None, now) <==>
          Measurement(doc).Success? && allowed(Measurement(doc).value)
          && -60_000 <= skew <= 60_000 && 0 <= now + 60 - timestampMs / 1000 <= 86_460)
  {
    PackBack(x25519, ed25519, timestampMs + skew);
  }
}

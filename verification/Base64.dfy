/**
 The attestation crate's own base64 decoder, against the encoding of section 4 of RFC 4648. It skips ASCII
 whitespace, and is lenient in two ways: any block may be padded, and unused bits may be anything.
 */
module Base64 {
  import opened Common

  type Byte = bv8

  datatype Error = BadChar | BadLength

  const PAD: Byte := 0x3D

  // ---------------------------------------------------------------- symbols

  /** The six bits a symbol stands for. */
  function Val(c: Byte): Option<Byte> {
    if 0x41 <= c <= 0x5A then Some(c - 0x41)
    else if 0x61 <= c <= 0x7A then Some(c - 0x61 + 26)
    else if 0x30 <= c <= 0x39 then Some(c - 0x30 + 52)
    else if c == 0x2B then Some(62)
    else if c == 0x2F then Some(63)
    else None
  }

  /** RFC 4648's table 1. */
  function Symbol(v: Byte): Byte
    requires v < 64
  {
    if v < 26 then 0x41 + v
    else if v < 52 then 0x61 + (v - 26)
    else if v < 62 then 0x30 + (v - 52)
    else if v == 62 then 0x2B
    else 0x2F
  }

  predicate IsSpace(c: Byte) {
    c == 0x20 || c == 0x09 || c == 0x0A || c == 0x0C || c == 0x0D
  }

  /** The input without its ASCII whitespace. */
  function Strip(input: seq<Byte>): seq<Byte> {
    if input == [] then [] else (if IsSpace(input[0]) then [] else [input[0]]) + Strip(input[1..])
  }

  // ---------------------------------------------------------------- blocks

  /** How many of the bytes are the padding character. */
  function Pads(s: seq<Byte>): nat {
    if s == [] then 0 else (if s[0] == PAD then 1 else 0) + Pads(s[1..])
  }

  function First(b0: Byte, b1: Byte): Byte { (b0 << 2) | (b1 >> 4) }

  function Second(b1: Byte, b2: Byte): Byte { (b1 << 4) | (b2 >> 2) }

  function Third(b2: Byte, b3: Byte): Byte { (b2 << 6) | b3 }

  /** The bytes that four symbols' worth of bits stand for, less the padded ones. */
  function Bytes(b0: Byte, b1: Byte, b2: Byte, b3: Byte, pad: nat): seq<Byte> {
    [First(b0, b1)] + (if pad < 2 then [Second(b1, b2)] else []) + (if pad < 1 then [Third(b2, b3)] else [])
  }

  /** A block of four symbols, one padding character after three, or two after two. */
  predicate GoodBlock(b: seq<Byte>)
    requires |b| == 4
  {
    && Val(b[0]).Some? && Val(b[1]).Some?
    && (Val(b[2]).Some? || (b[2] == PAD && b[3] == PAD))
    && (Val(b[3]).Some? || b[3] == PAD)
  }

  /** What a good block decodes to. */
  function BlockBytes(b: seq<Byte>): seq<Byte>
    requires |b| == 4 && GoodBlock(b)
  {
    Bytes(Val(b[0]).value, Val(b[1]).value,
          if b[2] == PAD then 0 else Val(b[2]).value,
          if b[3] == PAD then 0 else Val(b[3]).value,
          if b[2] == PAD then 2 else if b[3] == PAD then 1 else 0)
  }

  predicate GoodBlocks(s: seq<Byte>) {
    s == [] || (|s| >= 4 && GoodBlock(s[..4]) && GoodBlocks(s[4..]))
  }

  /** What a run of good blocks decodes to. */
  function BlocksBytes(s: seq<Byte>): Option<seq<Byte>> {
    if s == [] then Some([])
    else if |s| >= 4 && GoodBlock(s[..4]) then Prepend(BlockBytes(s[..4]), BlocksBytes(s[4..]))
    else None
  }

  function Prepend(out: seq<Byte>, rest: Option<seq<Byte>>): Option<seq<Byte>> {
    match rest
    case None => None
    case Some(bytes) => Some(out + bytes)
  }

  /** What the symbols come to: the blocks' bytes, or why there are none. */
  function OfSymbols(s: seq<Byte>): Result<seq<Byte>, Error> {
    if |s| % 4 != 0 then Failure(BadLength)
    else
      match BlocksBytes(s)
      case None => Failure(BadChar)
      case Some(bytes) => Success(bytes)
  }

  function Decoded(input: seq<Byte>): Result<seq<Byte>, Error> {
    OfSymbols(Strip(input))
  }

  // ---------------------------------------------------------------- the decoder

  method Decode(input: seq<Byte>) returns (r: Result<seq<Byte>, Error>)
    ensures r == Decoded(input)
  {
    var s := WithoutSpace(input);
    if |s| % 4 != 0 {
      return Failure(BadLength);
    }
    r := DecodeBlocks(s);
  }

  /** The decoder's loop, over blocks of four. */
  method DecodeBlocks(s: seq<Byte>) returns (r: Result<seq<Byte>, Error>)
    requires |s| % 4 == 0
    ensures r == if BlocksBytes(s).Some? then Success(BlocksBytes(s).value) else Failure(BadChar)
  {
    var out: seq<Byte> := [];
    var i := 0;
    PrependNothing(BlocksBytes(s));
    assert s[0..] == s;
    while i < |s|
      invariant 0 <= i <= |s| && i % 4 == 0
      invariant BlocksBytes(s) == Prepend(out, BlocksBytes(s[i..]))
    {
      NextBlock(s, i);
      var decoded := DecodeBlock(s[i..i + 4]);
      if decoded.Failure? {
        return decoded;
      }
      PrependTwice(out, decoded.value, BlocksBytes(s[i + 4..]));
      out := out + decoded.value;
      i := i + 4;
    }
    NothingLeft(out, s[i..]);
    r := Success(out);
  }

  lemma PrependNothing(rest: Option<seq<Byte>>)
    ensures Prepend([], rest) == rest
  {
    if rest.Some? {
      assert [] + rest.value == rest.value;
    }
  }

  lemma PrependTwice(a: seq<Byte>, b: seq<Byte>, rest: Option<seq<Byte>>)
    ensures Prepend(a + b, rest) == Prepend(a, Prepend(b, rest))
  {
    if rest.Some? {
      assert (a + b) + rest.value == a + (b + rest.value);
    }
  }

  lemma NothingLeft(out: seq<Byte>, rest: seq<Byte>)
    requires rest == []
    ensures Prepend(out, BlocksBytes(rest)) == Some(out)
  {
    assert out + [] == out;
  }

  lemma NextBlock(s: seq<Byte>, i: nat)
    requires i + 4 <= |s|
    ensures BlocksBytes(s[i..]) ==
            if GoodBlock(s[i..i + 4]) then Prepend(BlockBytes(s[i..i + 4]), BlocksBytes(s[i + 4..])) else None
  {
    assert s[i..][..4] == s[i..i + 4] && s[i..][4..] == s[i + 4..];
  }

  /** The body of the decoder's loop. */
  method DecodeBlock(chunk: seq<Byte>) returns (r: Result<seq<Byte>, Error>)
    requires |chunk| == 4
    ensures r == if GoodBlock(chunk) then Success(BlockBytes(chunk)) else Failure(BadChar)
  {
    var pad := Pads(chunk);
    GoodByPads(chunk);
    if Val(chunk[0]).None? || Val(chunk[1]).None? {
      return Failure(BadChar);
    }
    if pad < 2 && Val(chunk[2]).None? {
      return Failure(BadChar);
    }
    if pad < 1 && Val(chunk[3]).None? {
      return Failure(BadChar);
    }
    assert GoodBlock(chunk);
    var b0, b1 := Val(chunk[0]).value, Val(chunk[1]).value;
    var b2 := if pad >= 2 then 0 else Val(chunk[2]).value;
    var b3 := if pad >= 1 then 0 else Val(chunk[3]).value;
    var out := [First(b0, b1)];
    if pad < 2 {
      out := out + [Second(b1, b2)];
    }
    if pad < 1 {
      out := out + [Third(b2, b3)];
    }
    assert out == Bytes(b0, b1, b2, b3, pad) == BlockBytes(chunk);
    r := Success(out);
  }

  /** What the padding count decides. */
  lemma GoodByPads(b: seq<Byte>)
    requires |b| == 4
    ensures GoodBlock(b) <==> Val(b[0]).Some? && Val(b[1]).Some?
                              && (Pads(b) < 2 ==> Val(b[2]).Some?) && (Pads(b) < 1 ==> Val(b[3]).Some?)
    ensures GoodBlock(b) ==> Pads(b) == if b[2] == PAD then 2 else if b[3] == PAD then 1 else 0
  {
    PadsOfBlock(b);
  }

  method WithoutSpace(input: seq<Byte>) returns (s: seq<Byte>)
    ensures s == Strip(input)
  {
    s := [];
    var i := 0;
    while i < |input|
      invariant 0 <= i <= |input| && s + Strip(input[i..]) == Strip(input)
    {
      assert input[i..][1..] == input[i + 1..];
      if !IsSpace(input[i]) {
        s := s + [input[i]];
      }
      i := i + 1;
    }
  }

  /** Two symbols first leave room for padding only at the end of the block. */
  lemma PadsOfBlock(b: seq<Byte>)
    requires |b| == 4
    ensures Pads(b) == (if b[0] == PAD then 1 else 0) + (if b[1] == PAD then 1 else 0)
                       + (if b[2] == PAD then 1 else 0) + (if b[3] == PAD then 1 else 0)
    ensures Val(PAD) == None
  {
    assert b[1..][1..] == b[2..] && b[2..][1..] == b[3..] && b[3..][1..] == [];
    assert Pads(b[3..]) == if b[3] == PAD then 1 else 0;
    assert Pads(b[2..]) == (if b[2] == PAD then 1 else 0) + Pads(b[3..]);
    assert Pads(b[1..]) == (if b[1] == PAD then 1 else 0) + Pads(b[2..]);
  }

  // ---------------------------------------------------------------- the encoding

  // The four six-bit pieces of three bytes.
  function Bits0(a: Byte): Byte { a >> 2 }

  function Bits1(a: Byte, b: Byte): Byte { ((a & 3) << 4) | (b >> 4) }

  function Bits2(b: Byte, c: Byte): Byte { ((b & 15) << 2) | (c >> 6) }

  function Bits3(c: Byte): Byte { c & 63 }

  function ByteAt(x: seq<Byte>, i: nat): Byte { if i < |x| then x[i] else 0 }

  /** One to three bytes as a block of four symbols, padded at the end. */
  function Group(x: seq<Byte>): (block: seq<Byte>)
    requires 1 <= |x| <= 3
    ensures |block| == 4
  {
    [Symbol(Bits0(x[0])), Symbol(Bits1(x[0], ByteAt(x, 1))),
     if |x| > 1 then Symbol(Bits2(x[1], ByteAt(x, 2))) else PAD,
     if |x| > 2 then Symbol(Bits3(x[2])) else PAD]
  }

  /** Section 4 of RFC 4648. */
  function Encode(x: seq<Byte>): seq<Byte> {
    if x == [] then []
    else if |x| <= 3 then Group(x)
    else Group(x[..3]) + Encode(x[3..])
  }

  /** All 64 symbols, in the order of table 1 of RFC 4648. */
  lemma Alphabet()
    ensures Group([0x00, 0x10, 0x83]) == [0x41, 0x42, 0x43, 0x44]  // ABCD
    ensures Group([0x10, 0x51, 0x87]) == [0x45, 0x46, 0x47, 0x48]  // EFGH
    ensures Group([0x20, 0x92, 0x8B]) == [0x49, 0x4A, 0x4B, 0x4C]  // IJKL
    ensures Group([0x30, 0xD3, 0x8F]) == [0x4D, 0x4E, 0x4F, 0x50]  // MNOP
    ensures Group([0x41, 0x14, 0x93]) == [0x51, 0x52, 0x53, 0x54]  // QRST
    ensures Group([0x51, 0x55, 0x97]) == [0x55, 0x56, 0x57, 0x58]  // UVWX
    ensures Group([0x61, 0x96, 0x9B]) == [0x59, 0x5A, 0x61, 0x62]  // YZab
    ensures Group([0x71, 0xD7, 0x9F]) == [0x63, 0x64, 0x65, 0x66]  // cdef
    ensures Group([0x82, 0x18, 0xA3]) == [0x67, 0x68, 0x69, 0x6A]  // ghij
    ensures Group([0x92, 0x59, 0xA7]) == [0x6B, 0x6C, 0x6D, 0x6E]  // klmn
    ensures Group([0xA2, 0x9A, 0xAB]) == [0x6F, 0x70, 0x71, 0x72]  // opqr
    ensures Group([0xB2, 0xDB, 0xAF]) == [0x73, 0x74, 0x75, 0x76]  // stuv
    ensures Group([0xC3, 0x1C, 0xB3]) == [0x77, 0x78, 0x79, 0x7A]  // wxyz
    ensures Group([0xD3, 0x5D, 0xB7]) == [0x30, 0x31, 0x32, 0x33]  // 0123
    ensures Group([0xE3, 0x9E, 0xBB]) == [0x34, 0x35, 0x36, 0x37]  // 4567
    ensures Group([0xF3, 0xDF, 0xBF]) == [0x38, 0x39, 0x2B, 0x2F]  // 89+/
  {
  }

  /** The test vectors of section 10 of RFC 4648: "f", "fo", and so on to "foobar". */
  lemma TestVectors()
    ensures Encode([0x66]) == [0x5A, 0x67, 0x3D, 0x3D]  // Zg==
    ensures Encode([0x66, 0x6F]) == [0x5A, 0x6D, 0x38, 0x3D]  // Zm8=
    ensures Encode([0x66, 0x6F, 0x6F]) == [0x5A, 0x6D, 0x39, 0x76]  // Zm9v
    ensures Encode([0x66, 0x6F, 0x6F, 0x62]) == [0x5A, 0x6D, 0x39, 0x76, 0x59, 0x67, 0x3D, 0x3D]  // Zm9vYg==
    ensures Encode([0x66, 0x6F, 0x6F, 0x62, 0x61]) == [0x5A, 0x6D, 0x39, 0x76, 0x59, 0x6D, 0x45, 0x3D]  // Zm9vYmE=
    ensures Encode([0x66, 0x6F, 0x6F, 0x62, 0x61, 0x72]) == [0x5A, 0x6D, 0x39, 0x76, 0x59, 0x6D, 0x46, 0x79]  // Zm9vYmFy
  {
  }

  lemma GroupSymbols(x: seq<Byte>)
    requires 1 <= |x| <= 3
    ensures
      var block := Group(x);
      && Val(block[0]) == Some(Bits0(x[0])) && Val(block[1]) == Some(Bits1(x[0], ByteAt(x, 1)))
      && (if |x| > 1 then Val(block[2]) == Some(Bits2(x[1], ByteAt(x, 2))) && block[2] != PAD else block[2] == PAD)
      && (if |x| > 2 then Val(block[3]) == Some(Bits3(x[2])) && block[3] != PAD else block[3] == PAD)
  {
  }

  lemma GroupBack(x: seq<Byte>)
    requires 1 <= |x| <= 3
    ensures GoodBlock(Group(x)) && BlockBytes(Group(x)) == x
  {
    GroupSymbols(x);
  }

  // ---------------------------------------------------------------- round trip

  lemma {:induction false} BlocksAppend(s: seq<Byte>, t: seq<Byte>)
    requires |s| % 4 == 0
    ensures BlocksBytes(s + t) ==
            if BlocksBytes(s).Some? then Prepend(BlocksBytes(s).value, BlocksBytes(t)) else None
  {
    if s == [] {
      assert s + t == t;
      PrependNothing(BlocksBytes(t));
    } else {
      assert (s + t)[..4] == s[..4] && (s + t)[4..] == s[4..] + t;
      BlocksAppend(s[4..], t);
      if GoodBlock(s[..4]) && BlocksBytes(s[4..]).Some? {
        PrependTwice(BlockBytes(s[..4]), BlocksBytes(s[4..]).value, BlocksBytes(t));
      }
    }
  }

  /** Encoding goes three bytes at a time. */
  lemma EncodeAppend(x: seq<Byte>, y: seq<Byte>)
    requires 1 <= |x| <= 3 && (|x| == 3 || y == [])
    ensures Encode(x + y) == Group(x) + Encode(y)
  {
    if y == [] {
      assert x + y == x;
      assert Encode(y) == y;
      assert Group(x) + y == Group(x);
    } else {
      assert (x + y)[..3] == x && (x + y)[3..] == y;
    }
  }

  lemma {:induction false} EncodeBack(x: seq<Byte>)
    ensures |Encode(x)| % 4 == 0 && BlocksBytes(Encode(x)) == Some(x)
  {
    if x != [] {
      var n := if |x| <= 3 then |x| else 3;
      var first, rest := x[..n], x[n..];
      assert x == first + rest;
      EncodeBack(rest);
      EncodeAppend(first, rest);
      GroupBack(first);
      OneBlock(Group(first));
      BlocksAppend(Group(first), Encode(rest));
    }
  }

  lemma OneBlock(b: seq<Byte>)
    requires |b| == 4 && GoodBlock(b)
    ensures BlocksBytes(b) == Some(BlockBytes(b))
  {
    assert b[..4] == b && b[4..] == [];
    assert BlockBytes(b) + [] == BlockBytes(b);
  }

  /** Whatever whitespace stands between the symbols, decoding an encoding gives back what was encoded. */
  lemma RoundTrip(x: seq<Byte>, spaced: seq<Byte>)
    requires Strip(spaced) == Encode(x)
    ensures Decoded(spaced) == Success(x)
  {
    EncodeBack(x);
  }

  /** Whitespace can be put anywhere in an encoding: removing it gives the encoding back. */
  lemma SpaceAnywhere(x: seq<Byte>, i: nat, space: seq<Byte>)
    requires i <= |Encode(x)| && forall c :: c in space ==> c in {0x20, 0x09, 0x0A, 0x0C, 0x0D}
    ensures Strip(Encode(x)[..i] + space + Encode(x)[i..]) == Encode(x)
  {
    var text := Encode(x);
    EncodeHasNoSpace(x);
    forall c | c in text[..i] || c in text[i..] ensures c !in {0x20, 0x09, 0x0A, 0x0C, 0x0D} {
      assert c in text;
    }
    StripBetween(text[..i], space, text[i..]);
    assert text[..i] + text[i..] == text;
  }

  /** Spaces, tabs, line feeds, form feeds and carriage returns are removed, and nothing else. */
  lemma StripBetween(a: seq<Byte>, space: seq<Byte>, b: seq<Byte>)
    requires forall c :: c in space ==> c in {0x20, 0x09, 0x0A, 0x0C, 0x0D}
    requires forall c :: c in a || c in b ==> c !in {0x20, 0x09, 0x0A, 0x0C, 0x0D}
    ensures Strip(a + space + b) == a + b
  {
    StripAppend(a + space, b);
    StripAppend(a, space);
    StripNothing(a);
    StripNothing(b);
    StripAll(space);
    assert a + [] == a;
  }

  lemma {:induction false} StripAll(space: seq<Byte>)
    requires forall c :: c in space ==> IsSpace(c)
    ensures Strip(space) == []
  {
    if space != [] {
      assert space[0] in space;
      StripAll(space[1..]);
    }
  }

  lemma {:induction false} StripAppend(s: seq<Byte>, t: seq<Byte>)
    ensures Strip(s + t) == Strip(s) + Strip(t)
  {
    if s == [] {
      assert s + t == t;
    } else {
      assert (s + t)[1..] == s[1..] + t;
      StripAppend(s[1..], t);
    }
  }

  lemma {:induction false} StripNothing(s: seq<Byte>)
    requires forall c :: c in s ==> !IsSpace(c)
    ensures Strip(s) == s
  {
    if s != [] {
      assert s[0] in s;
      StripNothing(s[1..]);
    }
  }

  lemma {:induction false} EncodeHasNoSpace(x: seq<Byte>)
    ensures forall c :: c in Encode(x) ==> !IsSpace(c)
  {
    if x != [] {
      var n := if |x| <= 3 then |x| else 3;
      assert x == x[..n] + x[n..];
      EncodeAppend(x[..n], x[n..]);
      EncodeHasNoSpace(x[n..]);
    }
  }

  // ---------------------------------------------------------------- blocks

  /** Decoding is a homomorphism over inputs of whole blocks: each is decoded on its own. */
  lemma DecodeAppend(s: seq<Byte>, t: seq<Byte>)
    requires |Strip(s)| % 4 == 0
    ensures Decoded(s).Failure? ==> Decoded(s + t).Failure?
    ensures Decoded(s).Success? ==>
              Decoded(s + t) == if Decoded(t).Success? then Success(Decoded(s).value + Decoded(t).value) else Decoded(t)
  {
    StripAppend(s, t);
    SymbolsAppend(Strip(s), Strip(t));
  }

  lemma SymbolsAppend(s: seq<Byte>, t: seq<Byte>)
    requires |s| % 4 == 0
    ensures OfSymbols(s).Failure? ==> OfSymbols(s + t).Failure?
    ensures OfSymbols(s).Success? ==>
              OfSymbols(s + t) ==
              if OfSymbols(t).Success? then Success(OfSymbols(s).value + OfSymbols(t).value) else OfSymbols(t)
  {
    BlocksAppend(s, t);
  }

  /**
   What is accepted, exactly: whole blocks, each good, whatever the whitespace; how long the output is; and which of
   the two errors there is otherwise.
   */
  lemma AcceptedExactly(input: seq<Byte>)
    ensures Decoded(input).Success? <==> |Strip(input)| % 4 == 0 && GoodBlocks(Strip(input))
    ensures Decoded(input).Success? ==> |Decoded(input).value| == |Strip(input)| / 4 * 3 - Pads(Strip(input))
    ensures Decoded(input) == Failure(BadLength) <==> |Strip(input)| % 4 != 0
    ensures Decoded(input) == Failure(BadChar) <==> |Strip(input)| % 4 == 0 && !GoodBlocks(Strip(input))
  {
    BlocksExactly(Strip(input));
  }

  lemma {:induction false} BlocksExactly(s: seq<Byte>)
    ensures BlocksBytes(s).Some? <==> GoodBlocks(s)
    ensures GoodBlocks(s) ==> |BlocksBytes(s).value| == |s| / 4 * 3 - Pads(s)
  {
    if |s| >= 4 {
      BlocksExactly(s[4..]);
      GoodByPads(s[..4]);
      PadsAppend(s[..4], s[4..]);
      assert s == s[..4] + s[4..];
    }
  }

  lemma {:induction false} PadsAppend(s: seq<Byte>, t: seq<Byte>)
    ensures Pads(s + t) == Pads(s) + Pads(t)
  {
    if s == [] {
      assert s + t == t;
    } else {
      assert (s + t)[1..] == s[1..] + t;
      PadsAppend(s[1..], t);
    }
  }

  // ---------------------------------------------------------------- how lenient the decoder is

  /** Padding only in the last block, and no bit set that no byte uses. */
  predicate Canonical(s: seq<Byte>) {
    s == [] || (|s| >= 4 && GoodBlock(s[..4]) && (s[4..] == [] || s[3] != PAD) && NoStrayBits(s[..4]) && Canonical(s[4..]))
  }

  predicate NoStrayBits(b: seq<Byte>)
    requires |b| == 4 && GoodBlock(b)
  {
    if b[2] == PAD then Val(b[1]).value & 15 == 0
    else if b[3] == PAD then Val(b[2]).value & 3 == 0
    else true
  }

  lemma GroupIsCanonical(x: seq<Byte>)
    requires 1 <= |x| <= 3
    ensures GoodBlock(Group(x)) && NoStrayBits(Group(x)) && (|x| == 3 <==> Group(x)[3] != PAD)
  {
    GroupSymbols(x);
  }

  lemma {:induction false} EncodeIsCanonical(x: seq<Byte>)
    ensures Canonical(Encode(x))
  {
    if x != [] {
      var n := if |x| <= 3 then |x| else 3;
      assert x == x[..n] + x[n..];
      EncodeAppend(x[..n], x[n..]);
      GroupIsCanonical(x[..n]);
      EncodeIsCanonical(x[n..]);
      assert Encode(x)[..4] == Group(x[..n]) && Encode(x)[4..] == Encode(x[n..]);
    }
  }

  lemma Bits0Back(v0: Byte, v1: Byte)
    requires v0 < 64 && v1 < 64
    ensures Bits0(First(v0, v1)) == v0
  {
  }

  lemma Bits1Back(v0: Byte, v1: Byte, v2: Byte)
    requires v0 < 64 && v1 < 64 && v2 < 64
    ensures Bits1(First(v0, v1), Second(v1, v2)) == v1
    ensures v1 & 15 == 0 ==> Bits1(First(v0, v1), 0) == v1
  {
  }

  lemma Bits2Back(v1: Byte, v2: Byte, v3: Byte)
    requires v1 < 64 && v2 < 64 && v3 < 64
    ensures Bits2(Second(v1, v2), Third(v2, v3)) == v2
    ensures v2 & 3 == 0 ==> Bits2(Second(v1, v2), 0) == v2
  {
  }

  lemma Bits3Back(v2: Byte, v3: Byte)
    requires v2 < 64 && v3 < 64
    ensures Bits3(Third(v2, v3)) == v3
  {
  }

  /** The value of a symbol, or zero for padding. */
  function Value(c: Byte): (v: Byte)
    requires Val(c).Some? || c == PAD
    ensures v < 64
  {
    if c == PAD then 0 else Val(c).value
  }

  lemma ValueBack(c: Byte)
    requires Val(c).Some?
    ensures c != PAD && Value(c) == Val(c).value && Symbol(Value(c)) == c
  {
  }

  lemma BlockBack(b: seq<Byte>)
    requires |b| == 4 && GoodBlock(b) && NoStrayBits(b)
    ensures 1 <= |BlockBytes(b)| <= 3 && (b[3] != PAD ==> |BlockBytes(b)| == 3)
    ensures Group(BlockBytes(b)) == b
  {
    ValueBack(b[0]);
    ValueBack(b[1]);
    if b[2] != PAD {
      ValueBack(b[2]);
    }
    if b[3] != PAD {
      ValueBack(b[3]);
    }
    var v0, v1, v2, v3 := Value(b[0]), Value(b[1]), Value(b[2]), Value(b[3]);
    Bits0Back(v0, v1);
    Bits1Back(v0, v1, v2);
    Bits2Back(v1, v2, v3);
    Bits3Back(v2, v3);
    var first, second := First(v0, v1), Second(v1, v2);
    if b[2] == PAD {
      assert BlockBytes(b) == [first] && Group([first]) == b;
    } else if b[3] == PAD {
      assert BlockBytes(b) == [first, second] && Group([first, second]) == b;
    } else {
      assert BlockBytes(b) == [first, second, Third(v2, v3)] && Group([first, second, Third(v2, v3)]) == b;
    }
  }

  lemma {:induction false} CanonicalBack(s: seq<Byte>)
    requires Canonical(s)
    ensures BlocksBytes(s).Some? && Encode(BlocksBytes(s).value) == s
  {
    if s != [] {
      var b, rest := s[..4], s[4..];
      BlockBack(b);
      CanonicalBack(rest);
      BlocksExactly(rest);
      assert rest == [] ==> BlocksBytes(rest) == Some([]);
      EncodeAppend(BlockBytes(b), BlocksBytes(rest).value);
      assert s == b + rest;
    }
  }

  /**
   An accepted input is the encoding of what it decodes to exactly when it is canonical; any other accepted
   input is a second spelling of its bytes.
   */
  lemma OnlySpellingExactly(input: seq<Byte>)
    requires Decoded(input).Success?
    ensures Encode(Decoded(input).value) == Strip(input) <==> Canonical(Strip(input))
  {
    if Canonical(Strip(input)) {
      CanonicalBack(Strip(input));
    }
    EncodeIsCanonical(Decoded(input).value);
  }
}

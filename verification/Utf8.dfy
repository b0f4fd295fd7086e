/**
 UTF-8 (RFC 3629) and its lossy decoding: each longest piece of bytes that begins a character but does not
 complete it, or else each byte that begins none, becomes one replacement character, as section 3.9 of the
 Unicode Standard recommends and `String::from_utf8_lossy` does.
 */
module Utf8 {
  import opened Common

  type Byte = b: int | 0 <= b < 0x100

  const REPLACEMENT := '\U{FFFD}'

  // ---------------------------------------------------------------- encoding

  /** The bits after the last six, and the last six. */
  function High(u: int): int { u / 0x40 }

  function Low(u: int): int { u % 0x40 }

  function EncodeChar(c: char): (bs: seq<Byte>)
    ensures 1 <= |bs| <= 4
  {
    var u := c as int;
    if u < 0x80 then [u]
    else if u < 0x800 then [0xC0 + High(u), 0x80 + Low(u)]
    else if u < 0x1_0000 then [0xE0 + High(High(u)), 0x80 + Low(High(u)), 0x80 + Low(u)]
    else [0xF0 + High(High(High(u))), 0x80 + Low(High(High(u))), 0x80 + Low(High(u)), 0x80 + Low(u)]
  }

  function Encode(text: string): seq<Byte> {
    if text == "" then [] else EncodeChar(text[0]) + Encode(text[1..])
  }

  // ---------------------------------------------------------------- lossy decoding

  /** How many bytes the character begun by this byte has, or zero if it begins none. */
  function Width(b: Byte): nat {
    if b < 0x80 then 1 else if 0xC2 <= b < 0xE0 then 2 else if 0xE0 <= b < 0xF0 then 3 else if 0xF0 <= b < 0xF5 then 4
    else 0
  }

  predicate Continues(b: Byte) { 0x80 <= b < 0xC0 }

  /** The second byte also rules out overlong forms, surrogates and what is beyond U+10FFFF. */
  predicate SecondFits(first: Byte, b: Byte) {
    && (if first == 0xE0 then 0xA0 else if first == 0xF0 then 0x90 else 0x80) <= b
    && b < (if first == 0xED then 0xA0 else if first == 0xF4 then 0x90 else 0xC0)
  }

  /** There is an `i`-th byte, and it continues what the first began. */
  predicate Fits(bs: seq<Byte>, i: nat)
    requires 0 < i && bs != []
  {
    i < |bs| && if i == 1 then SecondFits(bs[0], bs[1]) else Continues(bs[i])
  }

  /** How far the bytes keep fitting, up to `width`. */
  function Extent(bs: seq<Byte>, i: nat, width: nat): (n: nat)
    requires 0 < i <= |bs| && i <= width
    ensures i <= n <= |bs| && n <= width
    decreases width - i
  {
    if i < width && Fits(bs, i) then Extent(bs, i + 1, width) else i
  }

  /** The code point that the payloads of up to four bytes make up. */
  function Code(bs: seq<Byte>): int {
    if |bs| == 1 then bs[0]
    else if |bs| == 2 then Six(bs[0] as int - 0xC0, bs[1])
    else if |bs| == 3 then Six(Six(bs[0] as int - 0xE0, bs[1]), bs[2])
    else if |bs| == 4 then Six(Six(Six(bs[0] as int - 0xF0, bs[1]), bs[2]), bs[3])
    else -1
  }

  function Six(high: int, b: Byte): int { high * 0x40 + (b - 0x80) }

  /** Total, though what fits is always a character. */
  function CharOf(u: int): char {
    if 0 <= u < 0xD800 || 0xE000 <= u < 0x11_0000 then u as char else REPLACEMENT
  }

  /** A complete character at the front of the bytes, or what is to be replaced there. */
  datatype Piece = Piece(length: nat, spells: Option<char>)

  function First(bs: seq<Byte>): (p: Piece)
    requires bs != []
    ensures 1 <= p.length <= |bs|
  {
    var width := Width(bs[0]);
    if width == 0 then Piece(1, None)
    else
      var n := Extent(bs, 1, width);
      Piece(n, if n == width then Some(CharOf(Code(bs[..n]))) else None)
  }

  function Shown(p: Piece): char {
    match p.spells
    case Some(c) => c
    case None => REPLACEMENT
  }

  function Lossy(bs: seq<Byte>): string {
    if bs == [] then "" else [Shown(First(bs))] + Lossy(bs[First(bs).length..])
  }

  // ---------------------------------------------------------------- what is not replaced

  lemma {:induction false} ExtentFits(bs: seq<Byte>, i: nat, width: nat)
    requires 0 < i <= |bs| && i <= width
    ensures forall j :: i <= j < Extent(bs, i, width) ==> Fits(bs, j)
    ensures Extent(bs, i, width) < width ==> !Fits(bs, Extent(bs, i, width))
    decreases width - i
  {
    if i < width && Fits(bs, i) {
      ExtentFits(bs, i + 1, width);
    }
  }

  /** The examples of section 7 of RFC 3629. */
  lemma Examples()
    ensures EncodeChar('\U{0041}') == [0x41]
    ensures EncodeChar('\U{2262}') == [0xE2, 0x89, 0xA2]
    ensures EncodeChar('\U{0391}') == [0xCE, 0x91]
    ensures EncodeChar('\U{002E}') == [0x2E]
    ensures EncodeChar('\U{D55C}') == [0xED, 0x95, 0x9C]
    ensures EncodeChar('\U{AD6D}') == [0xEA, 0xB5, 0xAD]
    ensures EncodeChar('\U{C5B4}') == [0xEC, 0x96, 0xB4]
    ensures EncodeChar('\U{65E5}') == [0xE6, 0x97, 0xA5]
    ensures EncodeChar('\U{672C}') == [0xE6, 0x9C, 0xAC]
    ensures EncodeChar('\U{8A9E}') == [0xE8, 0xAA, 0x9E]
    ensures EncodeChar('\U{233B4}') == [0xF0, 0xA3, 0x8E, 0xB4]
  {
  }

  /** The cut characters and stray bytes of table 3-8 in section 3.9 of the Unicode Standard, each with what follows it. */
  lemma ReplacementExamples()
    ensures First([0xF1, 0x80, 0x80, 0xE1]) == Piece(3, None)
    ensures First([0xE1, 0x80, 0xC2]) == Piece(2, None)
    ensures First([0xC2, 0x62]) == Piece(1, None)
    ensures First([0x80, 0x63]) == Piece(1, None)
    ensures First([0x80, 0xBF, 0x64]) == Piece(1, None)
    ensures First([0xBF, 0x64]) == Piece(1, None)
    ensures Shown(First([0xBF, 0x64])) == '\U{FFFD}'
  {
    var a: seq<Byte>, b: seq<Byte>, c: seq<Byte> := [0xF1, 0x80, 0x80, 0xE1], [0xE1, 0x80, 0xC2], [0xC2, 0x62];
    ExtentIs(a, 1, 4, 3);
    ExtentIs(b, 1, 3, 2);
    ExtentIs(c, 1, 2, 1);
  }

  /** Every encoding is found complete, and spells its character. */
  lemma EncodedFirst(c: char, rest: seq<Byte>)
    ensures First(EncodeChar(c) + rest) == Piece(|EncodeChar(c)|, Some(c))
  {
    var head := EncodeChar(c);
    var bs := head + rest;
    assert bs[..|head|] == head && bs[0] == head[0];
    EncodedCode(c);
    ExtentFits(bs, 1, |head|);
    forall j | 1 <= j < |head| ensures Fits(bs, j) {
      assert bs[j] == head[j] && bs[1] == head[1];
    }
  }

  lemma EncodedCode(c: char)
    ensures
      var head := EncodeChar(c);
      && Width(head[0]) == |head| && Code(head) == c as int && CharOf(Code(head)) == c
      && forall j :: 1 <= j < |head| ==> Fits(head, j)
  {
  }

  /** Decoding gives back every text. */
  lemma {:induction false} LossyEncode(text: string)
    ensures Lossy(Encode(text)) == text
  {
    if text != "" {
      var head, rest := EncodeChar(text[0]), Encode(text[1..]);
      EncodedFirst(text[0], rest);
      assert (head + rest)[|head|..] == rest;
      LossyEncode(text[1..]);
    }
  }

  lemma {:induction false} EncodeAppend(a: string, b: string)
    ensures Encode(a + b) == Encode(a) + Encode(b)
  {
    if a == "" {
      assert a + b == b;
    } else {
      assert (a + b)[0] == a[0] && (a + b)[1..] == a[1..] + b;
      EncodeAppend(a[1..], b);
      Regroup(EncodeChar(a[0]), Encode(a[1..]), Encode(b));
    }
  }

  /** The bytes are the encoding of some text. */
  ghost predicate IsUtf8(bs: seq<Byte>) {
    exists text :: Encode(text) == bs
  }

  lemma IsUtf8Exactly(bs: seq<Byte>)
    ensures IsUtf8(bs) <==> Encode(Lossy(bs)) == bs
  {
    if text :| Encode(text) == bs {
      LossyEncode(text);
    }
  }

  /** Replacing never makes a text shorter in bytes. */
  lemma {:induction false} LossyNotShorter(bs: seq<Byte>)
    ensures |Encode(Lossy(bs))| >= |bs|
  {
    if bs != [] {
      var p := First(bs);
      LossyNotShorter(bs[p.length..]);
    }
  }

  // ---------------------------------------------------------------- decoding in parts

  /** What is heard when each read is decoded on its own. */
  function Heard(parts: seq<seq<Byte>>): seq<string> {
    if parts == [] then [] else [Lossy(parts[0])] + Heard(parts[1..])
  }

  /** Some whole number of pieces make up the first `k` bytes. */
  ghost predicate Between(bs: seq<Byte>, k: nat)
    decreases k
  {
    k == 0 || (bs != [] && First(bs).length <= k && Between(bs[First(bs).length..], k - First(bs).length))
  }

  ghost predicate CutBetween(parts: seq<seq<Byte>>) {
    parts == [] || (Between(Concat(parts), |parts[0]|) && CutBetween(parts[1..]))
  }

  lemma {:induction false} ExtentIs(bs: seq<Byte>, i: nat, width: nat, n: nat)
    requires 0 < i <= n <= |bs| && n <= width
    requires (forall j :: i <= j < n ==> Fits(bs, j)) && (n < width ==> !Fits(bs, n))
    ensures Extent(bs, i, width) == n
    decreases n - i
  {
    if i < n {
      ExtentIs(bs, i + 1, width, n);
    }
  }

  /** A piece that ends within the first part is a piece of it. */
  lemma FirstOfPart(a: seq<Byte>, b: seq<Byte>)
    requires a != [] && First(a + b).length <= |a|
    ensures First(a) == First(a + b)
  {
    var width, n := Width(a[0]), First(a + b).length;
    assert (a + b)[0] == a[0] && (a + b)[..n] == a[..n];
    if width > 0 {
      ExtentFits(a + b, 1, width);
      forall j | 1 <= j < |a| ensures Fits(a + b, j) <==> Fits(a, j) {
      }
      ExtentIs(a, 1, width, n);
    }
  }

  /** A piece that does not leaves the whole first part to be replaced, and each byte of the rest of it. */
  lemma FirstIsCut(a: seq<Byte>, b: seq<Byte>)
    requires a != [] && First(a + b).length > |a|
    ensures First(a) == Piece(|a|, None)
    ensures forall i :: 0 <= i < First(a + b).length - |a| ==> Continues(b[i])
  {
    var width := Width(a[0]);
    assert (a + b)[0] == a[0];
    ExtentFits(a + b, 1, width);
    forall j | 1 <= j < |a| ensures Fits(a, j) {
    }
    ExtentIs(a, 1, width, |a|);
    forall i | 0 <= i < First(a + b).length - |a| ensures Continues(b[i]) {
      assert Fits(a + b, |a| + i);
      assert (a + b)[|a| + i] == b[i];
    }
  }

  lemma {:induction false} StrayBytes(b: seq<Byte>, m: nat)
    requires m <= |b| && forall i :: 0 <= i < m ==> Continues(b[i])
    ensures |Lossy(b)| == m + |Lossy(b[m..])|
  {
    if m > 0 {
      assert First(b) == Piece(1, None);
      StrayBytes(b[1..], m - 1);
      assert b[1..][m - 1..] == b[m..];
    }
  }

  /** Cut between two pieces, the parts show what the whole does; cut inside one, more. */
  ghost predicate CutShows(a: seq<Byte>, b: seq<Byte>) {
    if Between(a + b, |a|) then Lossy(a) + Lossy(b) == Lossy(a + b)
    else |Lossy(a)| + |Lossy(b)| > |Lossy(a + b)|
  }

  lemma LossySteps(a: seq<Byte>, b: seq<Byte>, n: nat)
    requires a != [] && First(a + b) == First(a) && First(a).length == n
    ensures Lossy(a) == [Shown(First(a))] + Lossy(a[n..])
    ensures Lossy(a + b) == [Shown(First(a))] + Lossy(a[n..] + b)
  {
    assert (a + b)[n..] == a[n..] + b;
  }

  lemma BetweenSteps(a: seq<Byte>, b: seq<Byte>, n: nat)
    requires a != [] && First(a + b).length == n <= |a|
    ensures Between(a + b, |a|) <==> Between(a[n..] + b, |a| - n)
  {
    assert (a + b)[n..] == a[n..] + b;
  }

  lemma CutLater(a: seq<Byte>, b: seq<Byte>, n: nat)
    requires a != [] && First(a + b).length == n <= |a| && CutShows(a[n..], b)
    ensures CutShows(a, b)
  {
    FirstOfPart(a, b);
    LossySteps(a, b, n);
    BetweenSteps(a, b, n);
    OneMore(Shown(First(a)), Lossy(a[n..]), Lossy(b), Lossy(a[n..] + b));
  }

  lemma OneMore(c: char, x: string, y: string, z: string)
    ensures ([c] + x) + y == [c] + z <==> x + y == z
  {
    Regroup([c], x, y);
    SameTail([c], x + y, z);
  }

  lemma CutInside(a: seq<Byte>, b: seq<Byte>, length: nat)
    requires a != [] && First(a + b).length == length > |a|
    ensures CutShows(a, b)
  {
    FirstIsCut(a, b);
    StrayBytes(b, length - |a|);
    MoreShown(a, b, length);
  }

  lemma MoreShown(a: seq<Byte>, b: seq<Byte>, length: nat)
    requires |a| < length <= |a + b|
    requires |Lossy(a)| == 1 + |Lossy(a[|a|..])| && |Lossy(a + b)| == 1 + |Lossy((a + b)[length..])|
    requires |Lossy(b)| == length - |a| + |Lossy(b[length - |a|..])|
    ensures |Lossy(a)| + |Lossy(b)| > |Lossy(a + b)|
  {
    assert (a + b)[length..] == b[length - |a|..];
  }

  lemma {:induction false} CutInTwo(a: seq<Byte>, b: seq<Byte>)
    ensures CutShows(a, b)
    decreases |a|
  {
    if a == [] {
      assert a + b == b;
    } else if First(a + b).length <= |a| {
      CutInTwo(a[First(a + b).length..], b);
      CutLater(a, b, First(a + b).length);
    } else {
      CutInside(a, b, First(a + b).length);
    }
  }

  /**
   Decoding the reads one by one gives the text of all of them exactly when every cut falls between two
   pieces; otherwise it gives more characters.
   */
  lemma {:induction false} HeardExactly(parts: seq<seq<Byte>>)
    ensures Concat(Heard(parts)) == Lossy(Concat(parts)) <==> CutBetween(parts)
    ensures |Concat(Heard(parts))| >= |Lossy(Concat(parts))|
  {
    if parts != [] {
      var first, rest := parts[0], parts[1..];
      HeardExactly(rest);
      CutInTwo(first, Concat(rest));
      assert parts == [first] + rest;
      SameTail(Lossy(first), Concat(Heard(rest)), Lossy(Concat(rest)));
    }
  }

  lemma SameTail<T>(a: seq<T>, b: seq<T>, c: seq<T>)
    ensures a + b == a + c <==> b == c
  {
    assert (a + b)[|a|..] == b && (a + c)[|a|..] == c;
  }

  // ---------------------------------------------------------------- parts of a well-formed text

  lemma {:induction false} HeardNotShorter(parts: seq<seq<Byte>>)
    ensures |Encode(Concat(Heard(parts)))| >= |Concat(parts)|
    ensures Encode(Concat(Heard(parts))) == Concat(parts) <==> forall r :: r in parts ==> IsUtf8(r)
  {
    if parts != [] {
      var first, rest := parts[0], parts[1..];
      assert parts == [first] + rest;
      HeardNotShorter(rest);
      EncodeAppend(Lossy(first), Concat(Heard(rest)));
      LossyNotShorter(first);
      IsUtf8Exactly(first);
      SameParts(Encode(Lossy(first)), Encode(Concat(Heard(rest))), first, Concat(rest));
    }
  }

  lemma SameParts<T>(a: seq<T>, b: seq<T>, c: seq<T>, d: seq<T>)
    requires |a| >= |c| && |b| >= |d|
    ensures a + b == c + d <==> a == c && b == d
  {
    if a + b == c + d {
      assert a == (a + b)[..|a|] && c == (c + d)[..|c|];
      assert b == (a + b)[|a|..] && d == (c + d)[|c|..];
    }
  }

  /** A text sent as UTF-8 is heard as it is exactly when every read of it is UTF-8 by itself. */
  lemma TextIsHeardExactly(text: string, parts: seq<seq<Byte>>)
    requires Concat(parts) == Encode(text)
    ensures Concat(Heard(parts)) == text <==> forall r :: r in parts ==> IsUtf8(r)
  {
    HeardNotShorter(parts);
    if Encode(Concat(Heard(parts))) == Encode(text) {
      LossyEncode(text);
      LossyEncode(Concat(Heard(parts)));
    }
  }
}

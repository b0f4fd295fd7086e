/**
 JSON text as UTF-16 code units: how JSON.stringify quotes a string (section 25.5.2 of ECMA-262), and why
 a quoted string or a number can be read back from the front of a longer text.
 */
module JsonText {

  newtype Unit = u: int | 0 <= u < 0x1_0000

  type Text = seq<Unit>

  const QUOTE: Unit := 0x22
  const BACKSLASH: Unit := 0x5C
  const COMMA: Unit := 0x2C
  const COLON: Unit := 0x3A
  const OPEN_ARRAY: Unit := 0x5B
  const CLOSE_ARRAY: Unit := 0x5D
  const OPEN_OBJECT: Unit := 0x7B
  const CLOSE_OBJECT: Unit := 0x7D

  // The words null, true, false and undefined.
  const NULL: Text := [0x6E, 0x75, 0x6C, 0x6C]
  const TRUE: Text := [0x74, 0x72, 0x75, 0x65]
  const FALSE: Text := [0x66, 0x61, 0x6C, 0x73, 0x65]
  const UNDEFINED: Text := [0x75, 0x6E, 0x64, 0x65, 0x66, 0x69, 0x6E, 0x65, 0x64]

  // ---------------------------------------------------------------- strings

  predicate High(u: Unit) { 0xD800 <= u < 0xDC00 }

  predicate Low(u: Unit) { 0xDC00 <= u < 0xE000 }

  /** The text starts with a character outside the basic plane. */
  predicate PairFirst(s: Text) { |s| >= 2 && High(s[0]) && Low(s[1]) }

  function HexDigit(n: Unit): Unit
    requires n < 16
  {
    if n < 10 then 0x30 + n else 0x57 + n
  }

  /** The letter after a backslash for the units that have one, else the unit itself. */
  function Letter(u: Unit): Unit {
    if u == 8 then 0x62 else if u == 9 then 0x74 else if u == 10 then 0x6E
    else if u == 12 then 0x66 else if u == 13 then 0x72 else u
  }

  function Escape(u: Unit): Text {
    if u == QUOTE || u == BACKSLASH || Letter(u) != u then [BACKSLASH, Letter(u)]
    else if u < 0x20 || High(u) || Low(u) then
      [BACKSLASH, 0x75, HexDigit(u / 0x1000), HexDigit(u / 0x100 % 16), HexDigit(u / 16 % 16), HexDigit(u % 16)]
    else [u]
  }

  /** Everything between the quotes; only a surrogate without its partner is escaped. */
  function Escaped(s: Text): Text {
    if s == [] then []
    else if PairFirst(s) then s[..2] + Escaped(s[2..])
    else Escape(s[0]) + Escaped(s[1..])
  }

  function Quote(s: Text): Text {
    [QUOTE] + Escaped(s) + [QUOTE]
  }

  lemma HexDigitsDiffer(a: Unit, b: Unit)
    requires a < 16 && b < 16 && HexDigit(a) == HexDigit(b)
    ensures a == b
  {
  }

  lemma FourDigits(u: Unit)
    ensures u == u / 0x1000 * 0x1000 + u / 0x100 % 16 * 0x100 + u / 16 % 16 * 16 + u % 16
  {
    assert u / 0x100 == u / 0x1000 * 16 + u / 0x100 % 16;
    assert u / 16 == u / 0x100 * 16 + u / 16 % 16;
  }

  /** No escape is the start of another. */
  lemma EscapeReadable(a: Unit, b: Unit, x: Text, y: Text)
    requires Escape(a) + x == Escape(b) + y
    ensures a == b && x == y
  {
    var ab := Escape(a) + x;
    assert |Escape(a)| == |Escape(b)| by {
      assert ab[0] == Escape(a)[0] == Escape(b)[0];
      if ab[0] == BACKSLASH {
        assert ab[1] == Escape(a)[1] == Escape(b)[1];
      }
    }
    var n := |Escape(a)|;
    assert Escape(a) == ab[..n] == Escape(b) && x == ab[n..] == y;
    if n == 6 {
      FourDigits(a);
      FourDigits(b);
      HexDigitsDiffer(a / 0x1000, b / 0x1000);
      HexDigitsDiffer(a / 0x100 % 16, b / 0x100 % 16);
      HexDigitsDiffer(a / 16 % 16, b / 16 % 16);
      HexDigitsDiffer(a % 16, b % 16);
    }
  }

  /** The rest of a quoted string and what follows it. */
  function Closing(s: Text, x: Text): Text {
    if s == [] then [QUOTE] + x
    else if PairFirst(s) then s[..2] + Closing(s[2..], x)
    else Escape(s[0]) + Closing(s[1..], x)
  }

  lemma {:induction false} ClosingIs(s: Text, x: Text)
    ensures Closing(s, x) == Escaped(s) + [QUOTE] + x
  {
    if s != [] {
      ClosingIs(if PairFirst(s) then s[2..] else s[1..], x);
    }
  }

  lemma ClosingStarts(s: Text, x: Text)
    ensures Closing(s, x) != []
    ensures s == [] <==> Closing(s, x)[0] == QUOTE
    ensures s != [] ==> (PairFirst(s) <==> High(Closing(s, x)[0]))
  {
  }

  lemma {:induction false} ClosingReadable(s: Text, t: Text, x: Text, y: Text)
    requires Closing(s, x) == Closing(t, y)
    ensures s == t && x == y
    decreases |s|
  {
    ClosingStarts(s, x);
    ClosingStarts(t, y);
    if s == [] {
      assert x == Closing(s, x)[1..] == y;
    } else if PairFirst(s) {
      assert s[..2] == Closing(s, x)[..2] == t[..2];
      assert Closing(s[2..], x) == Closing(s, x)[2..] == Closing(t[2..], y);
      ClosingReadable(s[2..], t[2..], x, y);
      assert s == s[..2] + s[2..] && t == t[..2] + t[2..];
    } else {
      EscapeReadable(s[0], t[0], Closing(s[1..], x), Closing(t[1..], y));
      ClosingReadable(s[1..], t[1..], x, y);
    }
  }

  /** A quoted string says which string it is and where it ends. */
  lemma QuoteReadable(s: Text, t: Text, x: Text, y: Text)
    requires Quote(s) + x == Quote(t) + y
    ensures s == t && x == y
  {
    ClosingIs(s, x);
    ClosingIs(t, y);
    assert Closing(s, x) == (Quote(s) + x)[1..] == Closing(t, y);
    ClosingReadable(s, t, x, y);
  }

  // ---------------------------------------------------------------- numbers

  predicate NumberUnit(u: Unit) {
    // digits, and "-", "+", "." and "e"
    0x30 <= u <= 0x39 || u == 0x2D || u == 0x2B || u == 0x2E || u == 0x65
  }

  /** What JavaScript prints for a finite number, as far as reading it back needs to know. */
  predicate NumberText(s: Text) {
    && s != [] && (s[0] == 0x2D || 0x30 <= s[0] <= 0x39)
    && forall u :: u in s ==> NumberUnit(u)
  }

  type Number = s: Text | NumberText(s) witness [0x30]

  /** Nothing follows, or what does ends whatever came before it. */
  predicate Delimited(s: Text) {
    s == [] || s[0] == COMMA || s[0] == CLOSE_ARRAY || s[0] == CLOSE_OBJECT
  }

  function NumberLength(s: Text): nat {
    if s != [] && NumberUnit(s[0]) then 1 + NumberLength(s[1..]) else 0
  }

  lemma {:induction false} NumberEnds(n: Text, x: Text)
    requires (forall u :: u in n ==> NumberUnit(u)) && Delimited(x)
    ensures NumberLength(n + x) == |n|
  {
    if n == [] {
      assert n + x == x;
    } else {
      assert n[0] in n;
      NumberEnds(n[1..], x);
      assert (n + x)[1..] == n[1..] + x;
    }
  }

  lemma NumberReadable(m: Number, n: Number, x: Text, y: Text)
    requires m + x == n + y && Delimited(x) && Delimited(y)
    ensures m == n && x == y
  {
    NumberEnds(m, x);
    NumberEnds(n, y);
    assert m == (m + x)[..|m|] && n == (n + y)[..|n|];
    assert x == (m + x)[|m|..] && y == (n + y)[|n|..];
  }

  // ---------------------------------------------------------------- no lone surrogates

  /** Every surrogate is half of a pair, so that encoding the text as UTF-8 loses nothing. */
  predicate Paired(s: Text) {
    if s == [] then true
    else if PairFirst(s) then Paired(s[2..])
    else !High(s[0]) && !Low(s[0]) && Paired(s[1..])
  }

  lemma {:induction false} PairedAppend(s: Text, t: Text)
    requires Paired(s) && Paired(t)
    ensures Paired(s + t)
    decreases |s|
  {
    if s == [] {
      assert s + t == t;
    } else if PairFirst(s) {
      PairedAppend(s[2..], t);
      assert (s + t)[2..] == s[2..] + t;
    } else {
      PairedAppend(s[1..], t);
      assert (s + t)[1..] == s[1..] + t;
    }
  }

  lemma {:induction false} PlainIsPaired(s: Text)
    requires forall u :: u in s ==> !High(u) && !Low(u)
    ensures Paired(s)
  {
    if s != [] {
      assert s[0] in s;
      PlainIsPaired(s[1..]);
    }
  }

  lemma {:induction false} EscapedIsPaired(s: Text)
    ensures Paired(Escaped(s))
  {
    if s != [] && PairFirst(s) {
      EscapedIsPaired(s[2..]);
      assert Escaped(s)[2..] == Escaped(s[2..]);
    } else if s != [] {
      EscapedIsPaired(s[1..]);
      PlainIsPaired(Escape(s[0]));
      PairedAppend(Escape(s[0]), Escaped(s[1..]));
    }
  }

  lemma QuoteIsPaired(s: Text)
    ensures Paired(Quote(s))
  {
    EscapedIsPaired(s);
    PlainIsPaired([QUOTE]);
    PairedAppend([QUOTE], Escaped(s));
    PairedAppend([QUOTE] + Escaped(s), [QUOTE]);
  }

  lemma NumberIsPaired(n: Number)
    ensures Paired(n)
  {
    PlainIsPaired(n);
  }
}

/**
 The token stream from the network's side: what the cuts between reads do to the bytes of a text, and to the
 tokens in it.
 */
module ByteStream {
  import opened Common
  import opened Utf8
  import opened LineStream

  // ---------------------------------------------------------------- reads without an error

  function Arrived(parts: seq<seq<Byte>>): seq<Read> {
    if parts == [] then [] else [Success(parts[0])] + Arrived(parts[1..])
  }

  /** What the stream yields when the bytes come in these parts. */
  function Tokens(parts: seq<seq<Byte>>, decode: Decoder): seq<Event> {
    Events("", Decoded(Arrived(parts)), decode)
  }

  lemma {:induction false} ArrivedIsHeard(parts: seq<seq<Byte>>)
    ensures Decoded(Arrived(parts)) == Reads(Heard(parts))
  {
    if parts != [] {
      ArrivedIsHeard(parts[1..]);
      assert ([Success(parts[0])] + Arrived(parts[1..]))[1..] == Arrived(parts[1..]);
      assert ([Lossy(parts[0])] + Heard(parts[1..]))[1..] == Heard(parts[1..]);
    }
  }

  /**
   However bytes are cut between pieces, what is yielded before the first [DONE] line is what a splitter of the
   whole text yields.
   */
  lemma ByteInvariance(parts: seq<seq<Byte>>, decode: Decoder)
    requires CutBetween(parts)
    ensures
      var lines := Lines(Lossy(Concat(parts)));
      && EmitAll(BeforeDone(lines), decode) <= Tokens(parts, decode)
      && (!HasDone(lines) ==> Tokens(parts, decode) == EmitAll(lines, decode))
  {
    ArrivedIsHeard(parts);
    HeardExactly(parts);
    ChunkInvariance(Heard(parts), decode);
  }

  // ---------------------------------------------------------------- ASCII bytes

  /** ASCII at the front of the bytes is heard as it is, wherever they are cut. */
  lemma {:induction false} AsciiFirst(c: char, bytes: seq<Byte>, parts: seq<seq<Byte>>) returns (others: seq<seq<Byte>>)
    requires c < '\U{80}' && Concat(parts) == [c as Byte] + bytes
    ensures Concat(others) == bytes && Concat(Heard(parts)) == [c] + Concat(Heard(others))
  {
    var first, rest := parts[0], parts[1..];
    assert parts == [first] + rest;
    if first == [] {
      others := AsciiFirst(c, bytes, rest);
    } else {
      SameHead(first, Concat(rest), c as Byte, bytes);
      others := AsciiInFirst(c, first[1..], rest);
    }
  }

  lemma AsciiInFirst(c: char, bytes: seq<Byte>, rest: seq<seq<Byte>>) returns (others: seq<seq<Byte>>)
    requires c < '\U{80}'
    ensures Concat(others) == bytes + Concat(rest)
    ensures Lossy([c as Byte] + bytes) + Concat(Heard(rest)) == [c] + Concat(Heard(others))
  {
    others := [bytes] + rest;
    Regroup([c], Lossy(bytes), Concat(Heard(rest)));
  }

  lemma SameHead<T>(a: seq<T>, b: seq<T>, x: T, ys: seq<T>)
    requires a != [] && a + b == [x] + ys
    ensures a == [x] + a[1..] && ys == a[1..] + b
  {
    assert a[0] == (a + b)[0] && a[1..] + b == (a + b)[1..];
  }

  ghost predicate IsAscii(text: string) {
    forall c :: c in text ==> c < '\U{80}'
  }

  lemma {:induction false} AsciiStart(ascii: string, bytes: seq<Byte>, parts: seq<seq<Byte>>)
    returns (others: seq<seq<Byte>>)
    requires IsAscii(ascii) && Concat(parts) == Encode(ascii) + bytes
    ensures Concat(others) == bytes && Concat(Heard(parts)) == ascii + Concat(Heard(others))
  {
    if ascii == "" {
      others := parts;
    } else {
      assert ascii[0] in ascii && forall c :: c in ascii[1..] ==> c in ascii;
      var rest := AsciiFirst(ascii[0], Encode(ascii[1..]) + bytes, parts);
      others := AsciiStart(ascii[1..], bytes, rest);
      PutInFront(ascii, Concat(Heard(parts)), Concat(Heard(rest)), Concat(Heard(others)));
    }
  }

  lemma PutInFront<T>(head: seq<T>, all: seq<T>, rest: seq<T>, tail: seq<T>)
    requires head != [] && all == [head[0]] + rest && rest == head[1..] + tail
    ensures all == head + tail
  {
  }

  /** Nothing runs across an ASCII byte. */
  lemma {:induction false} LossyAtAscii(before: seq<Byte>, c: char, after: seq<Byte>)
    requires c < '\U{80}'
    ensures Lossy(before + ([c as Byte] + after)) == Lossy(before) + ([c] + Lossy(after))
    decreases |before|
  {
    if before == [] {
      assert before + ([c as Byte] + after) == [c as Byte] + after;
      assert Lossy(before) + ([c] + Lossy(after)) == [c] + Lossy(after);
    } else {
      AsciiEndsPiece(before, c, after);
      var n := First(before).length;
      LossyAtAscii(before[n..], c, after);
      LossySteps(before, [c as Byte] + after, n);
      Regroup([Shown(First(before))], Lossy(before[n..]), [c] + Lossy(after));
    }
  }

  lemma AsciiEndsPiece(before: seq<Byte>, c: char, after: seq<Byte>)
    requires before != [] && c < '\U{80}'
    ensures First(before + ([c as Byte] + after)) == First(before)
  {
    var rest := [c as Byte] + after;
    assert !Continues(rest[0]);
    if First(before + rest).length > |before| {
      FirstIsCut(before, rest);
      assert false;
    }
    FirstOfPart(before, rest);
  }

  lemma LossyAsciiLast(bytes: seq<Byte>, c: char)
    requires c < '\U{80}'
    ensures Lossy(bytes + [c as Byte]) == Lossy(bytes) + [c]
  {
    var none: seq<Byte> := [];
    LossyAtAscii(bytes, c, none);
    assert [c as Byte] + none == [c as Byte] && [c] + Lossy(none) == [c];
  }

  /** So is ASCII at the end. */
  lemma {:induction false} AsciiLast(c: char, bytes: seq<Byte>, parts: seq<seq<Byte>>) returns (others: seq<seq<Byte>>)
    requires c < '\U{80}' && Concat(parts) == bytes + [c as Byte]
    ensures Concat(others) == bytes && Concat(Heard(parts)) == Concat(Heard(others)) + [c]
    decreases |parts|
  {
    var first, rest := parts[0], parts[1..];
    assert parts == [first] + rest;
    if Concat(rest) == [] {
      assert first == bytes + [c as Byte];
      LossyAsciiLast(bytes, c);
      NothingHeard(rest);
      others := [bytes];
      assert others[1..] == [] && Heard(others) == [Lossy(bytes)] && Heard(others)[1..] == [];
    } else {
      var n := |bytes| - |first|;
      var left := Concat(rest)[..n];
      assert Concat(rest) == (bytes + [c as Byte])[|first|..] == left + [c as Byte];
      others := AsciiLast(c, left, rest);
      others := [first] + others;
      assert others[1..] == others[1..] && first + left == (first + Concat(rest))[..|bytes|] == bytes;
    }
  }

  lemma {:induction false} NothingHeard(parts: seq<seq<Byte>>)
    requires Concat(parts) == []
    ensures Concat(Heard(parts)) == ""
  {
    if parts != [] {
      NothingHeard(parts[1..]);
      assert parts == [parts[0]] + parts[1..];
    }
  }

  /** No newline is heard that was not sent. */
  lemma {:induction false} LossyHasNoNewline(bytes: seq<Byte>)
    requires NEWLINE as Byte !in bytes
    ensures NEWLINE !in Lossy(bytes)
  {
    if bytes != [] {
      var p := First(bytes);
      if Shown(p) == NEWLINE {
        assert false;
      }
      LossyHasNoNewline(bytes[p.length..]);
    }
  }

  lemma {:induction false} NoNewlineHeard(parts: seq<seq<Byte>>)
    requires NEWLINE as Byte !in Concat(parts)
    ensures NEWLINE !in Concat(Heard(parts))
  {
    if parts != [] {
      LossyHasNoNewline(parts[0]);
      NoNewlineHeard(parts[1..]);
      assert parts == [parts[0]] + parts[1..];
    }
  }

  lemma {:induction false} NoNewlineSent(text: string)
    requires NEWLINE !in text
    ensures NEWLINE as Byte !in Encode(text)
  {
    if text != "" {
      assert text[0] in text;
      NoNewlineSent(text[1..]);
      assert NEWLINE as Byte !in EncodeChar(text[0]);
    }
  }

  // ---------------------------------------------------------------- cuts between pieces

  /** The first newline among the bytes. */
  function FindByte(bytes: seq<Byte>): (pos: Option<nat>)
    ensures pos.Some? ==>
              pos.value < |bytes| && bytes[pos.value] == NEWLINE as Byte && NEWLINE as Byte !in bytes[..pos.value]
    ensures pos.None? ==> NEWLINE as Byte !in bytes
  {
    if bytes == [] then None
    else if bytes[0] == NEWLINE as Byte then Some(0)
    else
      match FindByte(bytes[1..])
      case None => None
      case Some(p) =>
        assert bytes[..p + 1] == [bytes[0]] + bytes[1..][..p];
        Some(p + 1)
  }

  /** The bytes can be cut after every newline: newlines are where they were, whatever is between them. */
  lemma {:induction false} CutAtNewlines(bytes: seq<Byte>) returns (cuts: seq<seq<Byte>>)
    ensures Heard(cuts) == LineByLine(Lossy(bytes)) && Concat(cuts) == bytes
    decreases |bytes|
  {
    match FindByte(bytes)
    case None =>
      LossyHasNoNewline(bytes);
      cuts := [bytes];
      assert cuts[1..] == [] && FindNewline(Lossy(bytes)) == None;
    case Some(pos) =>
      var first, rest := bytes[..pos + 1], bytes[pos + 1..];
      LineIsCutOff(bytes, bytes[..pos], first, rest);
      cuts := CutAtNewlines(rest);
      cuts := [first] + cuts;
  }

  lemma LineIsCutOff(bytes: seq<Byte>, line: seq<Byte>, first: seq<Byte>, rest: seq<Byte>)
    requires NEWLINE as Byte !in line && first == line + [NEWLINE as Byte] && bytes == first + rest
    ensures LineByLine(Lossy(bytes)) == [Lossy(first)] + LineByLine(Lossy(rest))
  {
    LossyHasNoNewline(line);
    LossyAtAscii(line, NEWLINE, rest);
    LossyAsciiLast(line, NEWLINE);
    Regroup(line, [NEWLINE as Byte], rest);
    LineInFront(Lossy(line), Lossy(rest));
  }

  lemma LineInFront(line: string, rest: string)
    requires NEWLINE !in line
    ensures LineByLine(line + ([NEWLINE] + rest)) == [line + [NEWLINE]] + LineByLine(rest)
  {
    Regroup(line, [NEWLINE], rest);
    CutAtNewline(line, rest);
    CutHere(line + [NEWLINE] + rest, |line|);
  }

  ghost predicate SameForGoodCuts(bytes: seq<Byte>, decode: Decoder) {
    forall parts: seq<seq<Byte>>, others: seq<seq<Byte>> ::
      Concat(parts) == bytes && Concat(others) == bytes && CutBetween(parts) && CutBetween(others) ==>
        Tokens(parts, decode) == Tokens(others, decode)
  }

  /** The cuts between pieces all yield the same exactly when no line from the first marker on has a token in it. */
  lemma GoodCutsExactly(bytes: seq<Byte>, decode: Decoder)
    ensures SameForGoodCuts(bytes, decode) <==> EmitAll(FromDone(Lines(Lossy(bytes))), decode) == []
  {
    if EmitAll(FromDone(Lines(Lossy(bytes))), decode) == [] {
      InvariantExactly(Lossy(bytes), decode);
      SameAsBytes(bytes, decode);
    }
    if SameForGoodCuts(bytes, decode) {
      SameAsText(bytes, decode);
    }
  }

  lemma SameAsBytes(bytes: seq<Byte>, decode: Decoder)
    requires SameForAllCuts(Lossy(bytes), decode)
    ensures SameForGoodCuts(bytes, decode)
  {
    forall parts: seq<seq<Byte>>, others: seq<seq<Byte>>
      | Concat(parts) == bytes && Concat(others) == bytes && CutBetween(parts) && CutBetween(others)
      ensures Tokens(parts, decode) == Tokens(others, decode)
    {
      HeardExactly(parts);
      HeardExactly(others);
      ArrivedIsHeard(parts);
      ArrivedIsHeard(others);
    }
  }

  /** Read at once the bytes yield what is before the first marker; read line by line, all there is. */
  lemma SameAsText(bytes: seq<Byte>, decode: Decoder)
    requires SameForGoodCuts(bytes, decode)
    ensures EmitAll(FromDone(Lines(Lossy(bytes))), decode) == []
  {
    var whole := [bytes];
    var lines := CutAtNewlines(bytes);
    TwoCuts(Lossy(bytes), decode);
    assert whole[1..] == [] && Heard(whole) == [Lossy(bytes)] && Concat(whole) == bytes;
    HeardExactly(whole);
    HeardExactly(lines);
    ArrivedIsHeard(whole);
    ArrivedIsHeard(lines);
    assert Tokens(whole, decode) == Tokens(lines, decode);
  }

  // ---------------------------------------------------------------- one token

  /** A decoder that hands on what it is given. */
  function Echo(): Decoder { (data: string) => Some(data) }

  /** The line that carries a JSON object. */
  function Frame(json: string): string { DATA + json + [NEWLINE] }

  ghost predicate IsObject(json: string) {
    NEWLINE !in json && json != "" && json[|json| - 1] == '}'
  }

  /** Whatever happens to the characters inside, a framed object is heard as a framed object. */
  lemma FrameIsHeard(json: string, parts: seq<seq<Byte>>) returns (heard: string)
    requires IsObject(json) && Concat(parts) == Encode(Frame(json))
    ensures IsObject(heard) && Concat(Heard(parts)) == Frame(heard)
  {
    var inside := json[..|json| - 1];
    EncodedFrame(json, inside);
    var tail := AsciiStart(DATA, Encode(inside) + ['}' as Byte] + [NEWLINE as Byte], parts);
    heard := TailIsHeard(inside, tail);
  }

  lemma TailIsHeard(inside: string, parts: seq<seq<Byte>>) returns (heard: string)
    requires NEWLINE !in inside && Concat(parts) == Encode(inside) + ['}' as Byte] + [NEWLINE as Byte]
    ensures IsObject(heard) && Concat(Heard(parts)) == heard + [NEWLINE]
  {
    var middle := AsciiLast(NEWLINE, Encode(inside) + ['}' as Byte], parts);
    var rest := AsciiLast('}', Encode(inside), middle);
    NoNewlineSent(inside);
    NoNewlineHeard(rest);
    heard := Concat(Heard(rest)) + "}";
  }

  lemma EncodedFrame(json: string, inside: string)
    requires json == inside + "}"
    ensures Encode(Frame(json)) == Encode(DATA) + (Encode(inside) + ['}' as Byte] + [NEWLINE as Byte])
  {
    assert Frame(json) == DATA + (inside + "}" + [NEWLINE]);
    EncodeAppend(DATA, inside + "}" + [NEWLINE]);
    EncodeAppend(inside + "}", [NEWLINE]);
    EncodeAppend(inside, "}");
    EncodedAscii();
  }

  lemma EncodedAscii()
    ensures Encode("}") == ['}' as Byte] && Encode([NEWLINE]) == [NEWLINE as Byte]
  {
    assert "}"[1..] == "" && [NEWLINE][1..] == "";
  }

  lemma FrameLine(json: string)
    requires IsObject(json)
    ensures Lines(Frame(json)) == [DATA + json] && Trim(DATA + json) == DATA + json && !IsDone(DATA + json)
  {
    var line, none := DATA + json, json[..0];
    assert Frame(json) == line + [NEWLINE] + none;
    LinesFirst(line, none);
    assert line[|line| - 1] == '}' && DONE[|DONE| - 1] == ']';
  }

  lemma OneLine(line: string, decode: Decoder)
    requires !IsDone(line)
    ensures !HasDone([line]) && EmitAll([line], decode) == Content(Trim(line), decode)
  {
    var none: seq<string> := [];
    assert [line] == [line] + none;
    SplitsFirst(line, none, Marker());
  }

  /** The frame yields what is in it. */
  lemma FrameYields(json: string, texts: seq<string>)
    requires IsObject(json) && Concat(texts) == Frame(json)
    ensures Events("", Reads(texts), Echo()) == [Success(json)]
  {
    FrameLine(json);
    OneLine(DATA + json, Echo());
    ChunkInvariance(texts, Echo());
    assert (DATA + json)[|DATA|..] == json;
  }

  /**
   A token's line reaches the JSON decoder as it was sent exactly when every read is UTF-8 by itself: a character
   cut in two is lost, and nothing else is.
   */
  lemma TokenArrivesExactly(json: string, parts: seq<seq<Byte>>)
    requires IsObject(json) && Concat(parts) == Encode(Frame(json))
    ensures Tokens(parts, Echo()) == [Success(json)] <==> forall r :: r in parts ==> IsUtf8(r)
  {
    var heard := FrameIsHeard(json, parts);
    ArrivedIsHeard(parts);
    FrameYields(heard, Heard(parts));
    TextIsHeardExactly(Frame(json), parts);
    if Frame(heard) == Frame(json) {
      assert heard == Frame(heard)[|DATA|..|Frame(heard)| - 1] == json;
    }
  }
}

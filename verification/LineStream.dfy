/**
 The home node's token stream: each network read is decoded into a chunk of text, the chunks are gathered in a
 buffer and cut into lines, and each data line is decoded into a token.
 */
module LineStream {
  import opened Common
  import Utf8

  /** What one read brings: bytes, or an error that ends the stream. */
  type Read = Result<seq<Utf8.Byte>, string>

  /** The read's bytes as text. */
  type Chunk = Result<string, string>

  /** What the stream yields: a token, or the error that ended it. */
  type Event = Result<string, string>

  const BROKEN := "stream error: "

  /** How the JSON after "data: " is decoded into the text of its first choice, if it has one. */
  type Decoder = string -> Option<string>

  const NEWLINE := '\n'
  const DONE := "data: [DONE]"
  const DATA := "data: "

  // ---------------------------------------------------------------- lines

  /** Unicode's White_Space property. */
  predicate IsSpace(c: char) {
    var u := c as int;
    || 9 <= u <= 13 || u == 0x20 || u == 0x85 || u == 0xA0 || u == 0x1680 || 0x2000 <= u <= 0x200A
    || u == 0x2028 || u == 0x2029 || u == 0x202F || u == 0x205F || u == 0x3000
  }

  function TrimStart(s: string): string {
    if s != [] && IsSpace(s[0]) then TrimStart(s[1..]) else s
  }

  function TrimEnd(s: string): string {
    if s != [] && IsSpace(s[|s| - 1]) then TrimEnd(s[..|s| - 1]) else s
  }

  function Trim(s: string): string { TrimEnd(TrimStart(s)) }

  function FindNewline(s: string): (pos: Option<nat>)
    ensures pos.Some? ==> pos.value < |s| && s[pos.value] == NEWLINE && NEWLINE !in s[..pos.value]
    ensures pos.None? ==> NEWLINE !in s
  {
    if s == [] then None
    else if s[0] == NEWLINE then Some(0)
    else
      match FindNewline(s[1..])
      case None => None
      case Some(p) =>
        assert s[..p + 1] == [s[0]] + s[1..][..p];
        Some(p + 1)
  }

  predicate IsDone(line: string) { Trim(line) == DONE }

  /** What a trimmed line other than the marker yields. */
  function Content(line: string, decode: Decoder): seq<Event> {
    if DATA <= line then
      match decode(line[|DATA|..])
      case Some(text) => if text != "" then [Success(text)] else []
      case None => []
    else []
  }

  function Emit(line: string, decode: Decoder): seq<Event> {
    if IsDone(line) then [] else Content(Trim(line), decode)
  }

  function EmitAll(lines: seq<string>, decode: Decoder): seq<Event> {
    if lines == [] then [] else Emit(lines[0], decode) + EmitAll(lines[1..], decode)
  }

  // ---------------------------------------------------------------- the stream

  /** The lines taken from the buffer after one read, and the buffer they leave: a [DONE] line stops the taking. */
  function Drain(buffer: string): (seq<string>, string)
    decreases |buffer|
  {
    match FindNewline(buffer)
    case None => ([], buffer)
    case Some(pos) =>
      var line, rest := buffer[..pos], buffer[pos + 1..];
      if IsDone(line) then ([line], rest)
      else
        var (lines, left) := Drain(rest);
        ([line] + lines, left)
  }

  /** What the stream yields from here on. */
  function Events(buffer: string, chunks: seq<Chunk>, decode: Decoder): seq<Event>
    decreases chunks
  {
    if chunks == [] then []
    else
      match chunks[0]
      case Failure(error) => [Failure(BROKEN + error)]
      case Success(text) =>
        var (lines, rest) := Drain(buffer + text);
        EmitAll(lines, decode) + Events(rest, chunks[1..], decode)
  }

  /** Every read is decoded on its own. */
  function Decoded(reading: seq<Read>): seq<Chunk> {
    if reading == [] then []
    else
      match reading[0]
      case Success(bytes) => [Success(Utf8.Lossy(bytes))] + Decoded(reading[1..])
      case Failure(error) => [Failure(error)] + Decoded(reading[1..])
  }

  method GenerateStream(reading: seq<Read>, decode: Decoder) returns (events: seq<Event>)
    ensures events == Events("", Decoded(reading), decode)
  {
    var buffer := "";
    events := [];
    var i := 0;
    ghost var ahead := Events(buffer, Decoded(reading), decode);
    while i < |reading|
      invariant 0 <= i <= |reading|
      invariant ahead == Events(buffer, Decoded(reading[i..]), decode)
      invariant events + ahead == Events("", Decoded(reading), decode)
    {
      assert reading[i..][1..] == reading[i + 1..];
      match reading[i] {
        case Failure(error) =>
          events := events + [Failure(BROKEN + error)];
          return;
        case Success(bytes) =>
          var tokens;
          tokens, buffer := TakeLines(buffer + Utf8.Lossy(bytes), decode);
          ahead := Events(buffer, Decoded(reading[i + 1..]), decode);
          Regroup(events, tokens, ahead);
          events := events + tokens;
      }
      i := i + 1;
    }
  }

  /** The inner loop: lines are taken until the buffer holds no whole line, or one was the marker. */
  method TakeLines(text: string, decode: Decoder) returns (events: seq<Event>, buffer: string)
    ensures events == EmitAll(Drain(text).0, decode) && buffer == Drain(text).1
  {
    events, buffer := [], text;
    ghost var ahead := EmitAll(Drain(text).0, decode);
    var found := FindNewline(buffer);
    while found.Some?
      invariant found == FindNewline(buffer)
      invariant ahead == EmitAll(Drain(buffer).0, decode) && events + ahead == EmitAll(Drain(text).0, decode)
      invariant Drain(buffer).1 == Drain(text).1
      decreases |buffer|
    {
      var line := buffer[..found.value];
      buffer := buffer[found.value + 1..];
      if Trim(line) == DONE {
        return;
      }
      var tokens := Yield(Trim(line), decode);
      ahead := EmitAll(Drain(buffer).0, decode);
      Regroup(events, tokens, ahead);
      events := events + tokens;
      found := FindNewline(buffer);
    }
  }

  method Yield(line: string, decode: Decoder) returns (events: seq<Event>)
    ensures events == Content(line, decode)
  {
    events := [];
    if DATA <= line {
      var content := decode(line[|DATA|..]);
      if content.Some? && content.value != "" {
        events := [Success(content.value)];
      }
    }
  }

  // ---------------------------------------------------------------- reassembly

  /** All the lines a stretch of reads takes from the buffer, and the buffer they leave. */
  function Taken(buffer: string, texts: seq<string>): (seq<string>, string)
    decreases |texts|
  {
    if texts == [] then ([], buffer)
    else
      var (lines, rest) := Drain(buffer + texts[0]);
      var (more, left) := Taken(rest, texts[1..]);
      (lines + more, left)
  }

  /** The lines with their newlines, put back together. */
  function Assemble(lines: seq<string>): string {
    if lines == [] then "" else lines[0] + [NEWLINE] + Assemble(lines[1..])
  }

  ghost predicate Whole(lines: seq<string>) {
    forall line :: line in lines ==> NEWLINE !in line
  }

  lemma FirstAndRest<T>(xs: seq<T>, ys: seq<T>)
    requires xs != []
    ensures [xs[0]] + (xs[1..] + ys) == xs + ys
  {
  }

  lemma {:induction false} AssembleAppend(a: seq<string>, b: seq<string>)
    ensures Assemble(a + b) == Assemble(a) + Assemble(b)
  {
    if a == [] {
      assert a + b == b;
    } else {
      FirstAndRest(a, b);
      AssembleAppend(a[1..], b);
      Regroup(a[0] + [NEWLINE], Assemble(a[1..]), Assemble(b));
    }
  }

  lemma {:induction false} EmitAppend(a: seq<string>, b: seq<string>, decode: Decoder)
    ensures EmitAll(a + b, decode) == EmitAll(a, decode) + EmitAll(b, decode)
  {
    if a == [] {
      assert a + b == b;
    } else {
      FirstAndRest(a, b);
      EmitAppend(a[1..], b, decode);
      Regroup(Emit(a[0], decode), EmitAll(a[1..], decode), EmitAll(b, decode));
    }
  }

  lemma {:induction false} DrainReassembles(buffer: string)
    ensures Assemble(Drain(buffer).0) + Drain(buffer).1 == buffer && Whole(Drain(buffer).0)
    decreases |buffer|
  {
    match FindNewline(buffer)
    case None =>
    case Some(pos) =>
      var line, rest := buffer[..pos], buffer[pos + 1..];
      assert buffer == line + [NEWLINE] + rest;
      if IsDone(line) {
        assert Assemble([line]) == line + [NEWLINE];
      } else {
        DrainReassembles(rest);
        assert ([line] + Drain(rest).0)[1..] == Drain(rest).0;
      }
  }

  /** At every moment the lines taken so far and the buffer put the input back together. */
  lemma {:induction false} TakenReassembles(buffer: string, texts: seq<string>)
    ensures Assemble(Taken(buffer, texts).0) + Taken(buffer, texts).1 == buffer + Concat(texts)
    ensures Whole(Taken(buffer, texts).0)
    decreases |texts|
  {
    if texts != [] {
      var (lines, rest) := Drain(buffer + texts[0]);
      DrainReassembles(buffer + texts[0]);
      TakenReassembles(rest, texts[1..]);
      AssembleAppend(lines, Taken(rest, texts[1..]).0);
      Regroup(Assemble(lines), Assemble(Taken(rest, texts[1..]).0), Taken(rest, texts[1..]).1);
      Regroup(Assemble(lines), rest, Concat(texts[1..]));
      Regroup(buffer, texts[0], Concat(texts[1..]));
    }
  }

  // ---------------------------------------------------------------- a splitter for the whole text

  /** Every complete line of a text. */
  function Lines(text: string): seq<string>
    decreases |text|
  {
    match FindNewline(text)
    case None => []
    case Some(pos) => [text[..pos]] + Lines(text[pos + 1..])
  }

  lemma {:induction false} FirstNewline(line: string, rest: string)
    requires NEWLINE !in line
    ensures FindNewline(line + [NEWLINE] + rest) == Some(|line|)
  {
    var text := line + [NEWLINE] + rest;
    if line != [] {
      assert text[0] == line[0] && text[1..] == line[1..] + [NEWLINE] + rest;
      FirstNewline(line[1..], rest);
    }
  }

  lemma LinesFirst(line: string, tail: string)
    requires NEWLINE !in line
    ensures Lines(line + [NEWLINE] + tail) == [line] + Lines(tail)
  {
    var text := line + [NEWLINE] + tail;
    FirstNewline(line, tail);
    assert text[..|line|] == line && text[|line| + 1..] == tail;
  }

  /** However lines are put together, the splitter finds them again. */
  lemma {:induction false} LinesOf(lines: seq<string>, rest: string)
    requires Whole(lines)
    ensures Lines(Assemble(lines) + rest) == lines + Lines(rest)
  {
    if lines == [] {
      assert Assemble(lines) + rest == rest;
    } else {
      Regroup(lines[0] + [NEWLINE], Assemble(lines[1..]), rest);
      assert lines[0] in lines;
      LinesFirst(lines[0], Assemble(lines[1..]) + rest);
      LinesOf(lines[1..], rest);
      FirstAndRest(lines, Lines(rest));
    }
  }

  /** The lines taken are the first of the whole text's. */
  lemma TakenIsPrefix(texts: seq<string>)
    ensures Lines(Concat(texts)) == Taken("", texts).0 + Lines(Taken("", texts).1)
  {
    TakenReassembles("", texts);
    assert "" + Concat(texts) == Concat(texts);
    LinesOf(Taken("", texts).0, Taken("", texts).1);
  }

  // ---------------------------------------------------------------- the marker

  function Marker(): string -> bool { (line: string) => IsDone(line) }

  predicate Any(lines: seq<string>, stop: string -> bool) {
    lines != [] && (stop(lines[0]) || Any(lines[1..], stop))
  }

  /** The lines before the first that stops. */
  function Before(lines: seq<string>, stop: string -> bool): seq<string> {
    if lines == [] || stop(lines[0]) then [] else [lines[0]] + Before(lines[1..], stop)
  }

  /** The first line that stops, and those after it. */
  function From(lines: seq<string>, stop: string -> bool): seq<string> {
    if lines == [] || stop(lines[0]) then lines else From(lines[1..], stop)
  }

  lemma {:induction false} Splits(lines: seq<string>, stop: string -> bool)
    ensures lines == Before(lines, stop) + From(lines, stop)
    ensures !Any(lines, stop) ==> Before(lines, stop) == lines && From(lines, stop) == []
  {
    if lines != [] && !stop(lines[0]) {
      Splits(lines[1..], stop);
      assert lines == [lines[0]] + lines[1..];
    }
  }

  lemma {:induction false} SplitsAppend(a: seq<string>, b: seq<string>, stop: string -> bool)
    ensures Any(a + b, stop) <==> Any(a, stop) || Any(b, stop)
    ensures Before(a + b, stop) == if Any(a, stop) then Before(a, stop) else a + Before(b, stop)
    ensures From(a + b, stop) == if Any(a, stop) then From(a, stop) + b else From(b, stop)
  {
    if a == [] {
      assert a + b == b;
    } else {
      FirstAndRest(a, b);
      SplitsFirst(a[0], a[1..] + b, stop);
      SplitsAppend(a[1..], b, stop);
      FirstAndRest(a, Before(b, stop));
      Regroup([a[0]], Before(a[1..], stop), b);
    }
  }

  lemma SplitsFirst(x: string, rest: seq<string>, stop: string -> bool)
    ensures Any([x] + rest, stop) <==> stop(x) || Any(rest, stop)
    ensures Before([x] + rest, stop) == if stop(x) then [] else [x] + Before(rest, stop)
    ensures From([x] + rest, stop) == if stop(x) then [x] + rest else From(rest, stop)
  {
    assert ([x] + rest)[1..] == rest;
  }

  predicate HasDone(lines: seq<string>) { Any(lines, Marker()) }

  function BeforeDone(lines: seq<string>): seq<string> { Before(lines, Marker()) }

  function FromDone(lines: seq<string>): seq<string> { From(lines, Marker()) }

  lemma {:induction false} DrainStops(buffer: string)
    ensures !HasDone(Drain(buffer).0) ==> FindNewline(Drain(buffer).1) == None
    decreases |buffer|
  {
    match FindNewline(buffer)
    case None =>
    case Some(pos) =>
      var line, rest := buffer[..pos], buffer[pos + 1..];
      SplitsFirst(line, if IsDone(line) then [] else Drain(rest).0, Marker());
      if !IsDone(line) {
        DrainStops(rest);
      }
  }

  /** Without a marker among the lines taken, no whole line is left behind. */
  lemma {:induction false} TakenStops(buffer: string, texts: seq<string>)
    requires FindNewline(buffer) == None
    ensures !HasDone(Taken(buffer, texts).0) ==> FindNewline(Taken(buffer, texts).1) == None
    decreases |texts|
  {
    if texts != [] {
      var (lines, rest) := Drain(buffer + texts[0]);
      DrainStops(buffer + texts[0]);
      SplitsAppend(lines, Taken(rest, texts[1..]).0, Marker());
      if !HasDone(lines) {
        TakenStops(rest, texts[1..]);
      }
    }
  }

  // ---------------------------------------------------------------- chunk invariance

  function Reads(texts: seq<string>): seq<Chunk> {
    if texts == [] then [] else [Success(texts[0])] + Reads(texts[1..])
  }

  lemma {:induction false} EventsAreEmitted(buffer: string, texts: seq<string>, more: seq<Chunk>, decode: Decoder)
    ensures Events(buffer, Reads(texts) + more, decode)
         == EmitAll(Taken(buffer, texts).0, decode) + Events(Taken(buffer, texts).1, more, decode)
    decreases |texts|
  {
    if texts == [] {
      assert Reads(texts) + more == more;
    } else {
      var (lines, rest) := Drain(buffer + texts[0]);
      var (later, left) := Taken(rest, texts[1..]);
      assert Reads(texts) + more == [Success(texts[0])] + (Reads(texts[1..]) + more);
      EventsAreEmitted(rest, texts[1..], more, decode);
      EmitAppend(lines, later, decode);
      Regroup(EmitAll(lines, decode), EmitAll(later, decode), Events(left, more, decode));
    }
  }

  /** What the reads yield: every line they take, in order, except that markers yield nothing. */
  lemma Yielded(texts: seq<string>, decode: Decoder)
    ensures Events("", Reads(texts), decode) == EmitAll(Taken("", texts).0, decode)
  {
    var none: seq<Chunk> := [];
    EventsAreEmitted("", texts, none, decode);
    assert Reads(texts) + none == Reads(texts);
  }

  /**
   However a text is cut into reads, what is yielded before its first [DONE] line is what a splitter of the
   whole text yields; without such a line that is everything.
   */
  lemma ChunkInvariance(texts: seq<string>, decode: Decoder)
    ensures EmitAll(BeforeDone(Lines(Concat(texts))), decode) <= Events("", Reads(texts), decode)
    ensures BeforeDone(Taken("", texts).0) == BeforeDone(Lines(Concat(texts)))
    ensures !HasDone(Lines(Concat(texts))) ==>
              Events("", Reads(texts), decode) == EmitAll(Lines(Concat(texts)), decode)
  {
    var taken, left := Taken("", texts).0, Taken("", texts).1;
    TakenIsPrefix(texts);
    TakenStops("", texts);
    Yielded(texts, decode);
    SplitsAppend(taken, Lines(left), Marker());
    Splits(taken, Marker());
    EmitAppend(BeforeDone(taken), FromDone(taken), decode);
  }

  /** A read error ends the stream: what came before is yielded, then the error, and nothing after it. */
  lemma ErrorEnds(texts: seq<string>, error: string, after: seq<Chunk>, decode: Decoder)
    ensures Events("", Reads(texts) + ([Failure(error)] + after), decode)
         == EmitAll(Taken("", texts).0, decode) + [Failure("stream error: " + error)]
  {
    EventsAreEmitted("", texts, [Failure(error)] + after, decode);
  }

  // ---------------------------------------------------------------- after the marker

  /** The text cut after every newline. */
  function LineByLine(text: string): seq<string>
    decreases |text|
  {
    match FindNewline(text)
    case None => [text]
    case Some(pos) => [text[..pos + 1]] + LineByLine(text[pos + 1..])
  }

  lemma {:induction false} LineByLineTakesAll(text: string)
    ensures Concat(LineByLine(text)) == text && Taken("", LineByLine(text)).0 == Lines(text)
    decreases |text|
  {
    match FindNewline(text)
    case None =>
    case Some(pos) =>
      var line, rest := text[..pos], text[pos + 1..];
      LineByLineTakesAll(rest);
      CutHere(text, pos);
      ReadLine(line, LineByLine(rest));
  }

  lemma CutHere(text: string, pos: nat)
    requires FindNewline(text) == Some(pos)
    ensures LineByLine(text) == [text[..pos] + [NEWLINE]] + LineByLine(text[pos + 1..])
    ensures text == text[..pos] + [NEWLINE] + text[pos + 1..]
  {
  }

  /** A read of one line takes that line, marker or not, and leaves nothing. */
  lemma ReadLine(line: string, texts: seq<string>)
    requires NEWLINE !in line
    ensures Taken("", [line + [NEWLINE]] + texts).0 == [line] + Taken("", texts).0
  {
    var chunks, empty := [line + [NEWLINE]] + texts, line[..0];
    assert chunks[1..] == texts;
    assert "" + chunks[0] == line + [NEWLINE] + empty;
    DrainLine(line, empty);
  }

  lemma CutAtNewline(line: string, rest: string)
    requires NEWLINE !in line
    ensures
      var text := line + [NEWLINE] + rest;
      FindNewline(text) == Some(|line|) && text[..|line|] == line && text[|line| + 1..] == rest
  {
    FirstNewline(line, rest);
  }

  lemma DrainLine(line: string, rest: string)
    requires NEWLINE !in line && FindNewline(rest) == None
    ensures Drain(line + [NEWLINE] + rest) == ([line], rest)
  {
    CutAtNewline(line, rest);
    DrainCut(line + [NEWLINE] + rest, |line|);
  }

  lemma DrainCut(text: string, pos: nat)
    requires FindNewline(text) == Some(pos) && FindNewline(text[pos + 1..]) == None
    ensures Drain(text) == ([text[..pos]], text[pos + 1..])
  {
    var none: seq<string> := [];
    assert Drain(text[pos + 1..]) == (none, text[pos + 1..]);
    assert [text[..pos]] + none == [text[..pos]];
  }

  /** Read all at once, a text is taken up to its first marker. */
  lemma {:induction false} DrainYields(text: string, decode: Decoder)
    ensures EmitAll(Drain(text).0, decode) == EmitAll(BeforeDone(Lines(text)), decode)
    decreases |text|
  {
    if FindNewline(text).Some? {
      var pos := FindNewline(text).value;
      var line, rest := text[..pos], text[pos + 1..];
      YieldsFirst(text, decode);
      if !IsDone(line) {
        DrainYields(rest, decode);
      }
    }
  }

  /** What the first complete line adds to what comes before the marker. */
  lemma YieldsFirst(text: string, decode: Decoder)
    requires FindNewline(text).Some?
    ensures
      var pos := FindNewline(text).value;
      var line, rest := text[..pos], text[pos + 1..];
      EmitAll(BeforeDone(Lines(text)), decode)
      == Emit(line, decode) + (if IsDone(line) then [] else EmitAll(BeforeDone(Lines(rest)), decode))
  {
    var pos := FindNewline(text).value;
    var line, rest := text[..pos], text[pos + 1..];
    assert IsDone(line) ==> Emit(line, decode) == [];
  }

  /** If nothing is to be had from the first marker on, every cut yields what is before it. */
  lemma QuietAfterDone(texts: seq<string>, decode: Decoder)
    requires EmitAll(FromDone(Lines(Concat(texts))), decode) == []
    ensures Events("", Reads(texts), decode) == EmitAll(BeforeDone(Lines(Concat(texts))), decode)
  {
    var taken, left := Taken("", texts).0, Taken("", texts).1;
    TakenIsPrefix(texts);
    TakenStops("", texts);
    Yielded(texts, decode);
    SplitsAppend(taken, Lines(left), Marker());
    Splits(taken, Marker());
    EmitAppend(BeforeDone(taken), FromDone(taken), decode);
    EmitAppend(FromDone(taken), Lines(left), decode);
  }

  ghost predicate SameForAllCuts(text: string, decode: Decoder) {
    forall texts, others :: Concat(texts) == text && Concat(others) == text ==>
      Events("", Reads(texts), decode) == Events("", Reads(others), decode)
  }

  /**
   Every way of cutting a text yields the same exactly when no line from its first marker on has a token
   in it: the marker stops only the reading of the buffer, so what follows it shows when more is read.
   */
  lemma InvariantExactly(text: string, decode: Decoder)
    ensures SameForAllCuts(text, decode) <==> EmitAll(FromDone(Lines(text)), decode) == []
  {
    if EmitAll(FromDone(Lines(text)), decode) == [] {
      forall texts, others | Concat(texts) == text && Concat(others) == text
        ensures Events("", Reads(texts), decode) == Events("", Reads(others), decode)
      {
        QuietAfterDone(texts, decode);
        QuietAfterDone(others, decode);
      }
    }
    if SameForAllCuts(text, decode) {
      TwoCuts(text, decode);
      assert Concat([text]) == text && Concat(LineByLine(text)) == text;
    }
  }

  /** Read at once a text yields what is before its first marker; read line by line, all there is. */
  lemma TwoCuts(text: string, decode: Decoder)
    ensures Concat([text]) == text && Concat(LineByLine(text)) == text
    ensures Events("", Reads([text]), decode) == EmitAll(BeforeDone(Lines(text)), decode)
    ensures Events("", Reads(LineByLine(text)), decode)
         == EmitAll(BeforeDone(Lines(text)), decode) + EmitAll(FromDone(Lines(text)), decode)
  {
    LineByLineTakesAll(text);
    Yielded(LineByLine(text), decode);
    Splits(Lines(text), Marker());
    EmitAppend(BeforeDone(Lines(text)), FromDone(Lines(text)), decode);
    ReadAtOnce(text, decode);
  }

  lemma ReadAtOnce(text: string, decode: Decoder)
    ensures Concat([text]) == text
    ensures Events("", Reads([text]), decode) == EmitAll(BeforeDone(Lines(text)), decode)
  {
    Yielded([text], decode);
    assert "" + text == text && [text][1..] == [];
    DrainYields(text, decode);
  }
}

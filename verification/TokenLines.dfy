/** What the token stream says, line by line: the texts that the decoder finds in the data lines, and nothing else. */
module TokenLines {
  import opened Common
  import opened Utf8
  import opened LineStream
  import opened ByteStream

  /** A line as it is sent: something that neither starts nor ends in whitespace, with whitespace around it. */
  datatype Line = Line(before: string, body: string, after: string)

  ghost predicate AllSpace(s: string) {
    forall c :: c in s ==> IsSpace(c)
  }

  ghost predicate Bare(s: string) {
    s != "" ==> !IsSpace(s[0]) && !IsSpace(s[|s| - 1])
  }

  ghost predicate IsLine(line: Line) {
    && AllSpace(line.before) && Bare(line.body) && AllSpace(line.after)
    && '\n' !in line.before && '\n' !in line.body && '\n' !in line.after
  }

  function Sent(line: Line): string { line.before + line.body + line.after }

  /** The lines with their newlines. */
  function TextOf(lines: seq<Line>): string {
    if lines == [] then "" else Sent(lines[0]) + "\n" + TextOf(lines[1..])
  }

  /** What a line says: the decoder's text, if it is a data line and there is one. */
  ghost function Says(line: Line, decode: Decoder): seq<Event> {
    if "data: " <= line.body && decode(line.body[6..]).Some? && decode(line.body[6..]).value != ""
    then [Success(decode(line.body[6..]).value)]
    else []
  }

  ghost function AllSaid(lines: seq<Line>, decode: Decoder): seq<Event> {
    if lines == [] then [] else Says(lines[0], decode) + AllSaid(lines[1..], decode)
  }

  // ---------------------------------------------------------------- trimming

  lemma {:induction false} TrimsStart(before: string, rest: string)
    requires AllSpace(before)
    ensures TrimStart(before + rest) == TrimStart(rest)
  {
    if before == "" {
      assert before + rest == rest;
    } else {
      assert before[0] in before && (before + rest)[1..] == before[1..] + rest;
      TrimsStart(before[1..], rest);
    }
  }

  lemma {:induction false} TrimsEnd(rest: string, after: string)
    requires AllSpace(after)
    ensures TrimEnd(rest + after) == TrimEnd(rest)
  {
    if after == "" {
      assert rest + after == rest;
    } else {
      var n := |after| - 1;
      assert after[n] in after && (rest + after)[..|rest + after| - 1] == rest + after[..n];
      TrimsEnd(rest, after[..n]);
    }
  }

  /** Trimming takes all the whitespace around a line and nothing more. */
  lemma TrimExactly(line: Line)
    requires AllSpace(line.before) && Bare(line.body) && AllSpace(line.after)
    ensures Trim(Sent(line)) == line.body
  {
    Regroup(line.before, line.body, line.after);
    TrimsStart(line.before, line.body + line.after);
    if line.body == "" {
      TrimsStart(line.after, "");
      assert line.after + "" == line.after && line.body + line.after == line.after;
    } else {
      assert TrimStart(line.body + line.after) == line.body + line.after;
      TrimsEnd(line.body, line.after);
    }
  }

  // ---------------------------------------------------------------- what is yielded

  lemma LineEmits(line: Line, decode: Decoder)
    requires IsLine(line)
    ensures IsDone(Sent(line)) <==> line.body == "data: [DONE]"
    ensures line.body != "data: [DONE]" ==> Emit(Sent(line), decode) == Says(line, decode)
  {
    TrimExactly(line);
  }

  lemma {:induction false} TextLines(lines: seq<Line>)
    requires forall line :: line in lines ==> IsLine(line)
    ensures |Lines(TextOf(lines))| == |lines|
    ensures forall i :: 0 <= i < |lines| ==> Lines(TextOf(lines))[i] == Sent(lines[i])
  {
    if lines != [] {
      assert lines[0] in lines;
      TextLines(lines[1..]);
      LinesFirst(Sent(lines[0]), TextOf(lines[1..]));
    }
  }

  /** The lines before the marker are emitted just as they are said. */
  lemma {:induction false} SaidBeforeDone(lines: seq<Line>, said: seq<string>, n: nat, decode: Decoder)
    requires n <= |lines| == |said| && forall i :: 0 <= i < |lines| ==> IsLine(lines[i]) && said[i] == Sent(lines[i])
    requires forall i :: 0 <= i < n ==> lines[i].body != "data: [DONE]"
    ensures AllSaid(lines[..n], decode) <= EmitAll(BeforeDone(said), decode)
    ensures n == |lines| ==> !HasDone(said) && EmitAll(said, decode) == AllSaid(lines, decode)
    decreases n
  {
    if n > 0 {
      LineEmits(lines[0], decode);
      assert lines[..n][1..] == lines[1..][..n - 1];
      SaidBeforeDone(lines[1..], said[1..], n - 1, decode);
      SplitsFirst(said[0], said[1..], Marker());
      assert said == [said[0]] + said[1..];
      EmitsFirst(said[0], BeforeDone(said[1..]), decode);
    }
  }

  lemma EmitsFirst(line: string, rest: seq<string>, decode: Decoder)
    ensures EmitAll([line] + rest, decode) == Emit(line, decode) + EmitAll(rest, decode)
  {
    assert ([line] + rest)[1..] == rest;
  }

  /**
   For every decoder, and every cut of the bytes between characters: the lines before the first [DONE] line say, in
   order, the non-empty texts that the decoder gives for the data lines; without such a line that is all there is.
   */
  lemma TokensAreSaid(lines: seq<Line>, n: nat, parts: seq<seq<Byte>>, decode: Decoder)
    requires n <= |lines| && forall line :: line in lines ==> IsLine(line)
    requires forall i :: 0 <= i < n ==> lines[i].body != "data: [DONE]"
    requires Concat(parts) == Encode(TextOf(lines)) && CutBetween(parts)
    ensures AllSaid(lines[..n], decode) <= Tokens(parts, decode)
    ensures n == |lines| ==> Tokens(parts, decode) == AllSaid(lines, decode)
  {
    var text := TextOf(lines);
    LossyEncode(text);
    TextLines(lines);
    SaidBeforeDone(lines, Lines(text), n, decode);
    ByteInvariance(parts, decode);
  }
}

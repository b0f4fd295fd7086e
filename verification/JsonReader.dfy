/**
 Reading printed JSON back: a reader for the compact grammar of RFC 8259, and exactly which printed values it
 reads, and as what.
 */
module JsonReader {
  import opened Common
  import opened JsonText
  import opened KeyOrder
  import opened StablePrint
  import opened CanonicalPrint

  // ---------------------------------------------------------------- the reader

  /** What was read, and what is left. */
  datatype Read<T> = Read(value: T, rest: Text)

  function Ascii(s: string): Text
    requires forall c :: c in s ==> c < '\U{80}'
  {
    seq(|s|, i requires 0 <= i < |s| => assert s[i] in s; s[i] as Unit)
  }

  /** The value of a hexadecimal digit, in either case. */
  function HexValue(u: Unit): Option<Unit> {
    if 0x30 <= u <= 0x39 then Some(u - 0x30)
    else if 0x41 <= u <= 0x46 then Some(u - 0x41 + 10)
    else if 0x61 <= u <= 0x66 then Some(u - 0x61 + 10)
    else None
  }

  /** The unit that four hexadecimal digits name. */
  function FourHex(s: Text): Option<Unit>
    requires |s| >= 4
  {
    var a, b, c, d := HexValue(s[0]), HexValue(s[1]), HexValue(s[2]), HexValue(s[3]);
    if a.Some? && b.Some? && c.Some? && d.Some? && a.value < 16 && b.value < 16 && c.value < 16 && d.value < 16 then
      Some(((a.value * 16 + b.value) * 16 + c.value) * 16 + d.value)
    else None
  }

  /** What a backslash and this character stand for (section 7). */
  function Unescaped(u: Unit): Option<Unit> {
    if u == '"' as Unit || u == '\\' as Unit || u == '/' as Unit then Some(u)
    else if u == 'b' as Unit then Some(0x08)
    else if u == 'f' as Unit then Some(0x0C)
    else if u == 'n' as Unit then Some(0x0A)
    else if u == 'r' as Unit then Some(0x0D)
    else if u == 't' as Unit then Some(0x09)
    else None
  }

  /** The rest of a string, after its opening quote. */
  function ReadString(s: Text): (r: Option<Read<Text>>)
    ensures r.Some? ==> |r.value.rest| < |s|
  {
    if s == [] then None
    else if s[0] == '"' as Unit then Some(Read([], s[1..]))
    else if s[0] < 0x20 then None
    else if s[0] != '\\' as Unit then PutBefore(s[0], ReadString(s[1..]))
    else if |s| >= 6 && s[1] == 'u' as Unit then
      (match FourHex(s[2..])
       case None => None
       case Some(u) => PutBefore(u, ReadString(s[6..])))
    else if |s| >= 2 && Unescaped(s[1]).Some? then PutBefore(Unescaped(s[1]).value, ReadString(s[2..]))
    else None
  }

  function PutBefore<T>(x: T, r: Option<Read<seq<T>>>): (r': Option<Read<seq<T>>>)
    ensures r'.Some? <==> r.Some?
    ensures r.Some? ==> r'.value.rest == r.value.rest
  {
    match r
    case None => None
    case Some(read) => Some(Read([x] + read.value, read.rest))
  }

  /** A word, if the text starts with it. */
  function ReadWord(s: Text, word: Text, v: Json): (r: Option<Read<Json>>)
    requires word != []
    ensures r.Some? ==> |r.value.rest| < |s|
  {
    if word <= s then Some(Read(v, s[|word|..])) else None
  }

  /** A number is taken as its text. */
  function ReadNumber(s: Text): (r: Option<Read<Json>>)
    ensures r.Some? ==> |r.value.rest| < |s|
  {
    NumberFits(s);
    var n := NumberLength(s);
    if NumberText(s[..n]) then Some(Read(Finite(s[..n]), s[n..])) else None
  }

  lemma {:induction false} NumberFits(s: Text)
    ensures NumberLength(s) <= |s|
  {
    if s != [] && NumberUnit(s[0]) {
      NumberFits(s[1..]);
    }
  }

  function ReadValue(s: Text): (r: Option<Read<Json>>)
    ensures r.Some? ==> |r.value.rest| < |s|
    decreases |s|, 0
  {
    if s == [] then None
    else if s[0] == '"' as Unit then
      (match ReadString(s[1..])
       case None => None
       case Some(read) => Some(Read(Str(read.value), read.rest)))
    else if s[0] == '[' as Unit then
      (if |s| > 1 && s[1] == ']' as Unit then Some(Read(Arr([]), s[2..]))
       else
         match ReadItems(s[1..])
         case None => None
         case Some(read) => Some(Read(Arr(read.value), read.rest)))
    else if s[0] == '{' as Unit then
      (if |s| > 1 && s[1] == '}' as Unit then Some(Read(Obj([]), s[2..]))
       else
         match ReadMembers(s[1..])
         case None => None
         case Some(read) => Some(Read(Obj(read.value), read.rest)))
    else if s[0] == 'n' as Unit then ReadWord(s, Ascii("null"), Null)
    else if s[0] == 't' as Unit then ReadWord(s, Ascii("true"), Bool(true))
    else if s[0] == 'f' as Unit then ReadWord(s, Ascii("false"), Bool(false))
    else ReadNumber(s)
  }

  /** One or more items, and the closing bracket. */
  function ReadItems(s: Text): (r: Option<Read<seq<Json>>>)
    ensures r.Some? ==> |r.value.rest| < |s|
    decreases |s|, 1
  {
    match ReadValue(s)
    case None => None
    case Some(read) =>
      if read.rest == [] then None
      else if read.rest[0] == ']' as Unit then Some(Read([read.value], read.rest[1..]))
      else if read.rest[0] == ',' as Unit then PutBefore(read.value, ReadItems(read.rest[1..]))
      else None
  }

  /** A quoted key, a colon and a value. */
  function ReadMember(s: Text): (r: Option<Read<Member>>)
    ensures r.Some? ==> |r.value.rest| < |s|
    decreases |s|, 1
  {
    if s == [] || s[0] != '"' as Unit then None
    else
      match ReadString(s[1..])
      case None => None
      case Some(key) =>
        if key.rest == [] || key.rest[0] != ':' as Unit then None
        else
          match ReadValue(key.rest[1..])
          case None => None
          case Some(value) => Some(Read(Member(key.value, value.value), value.rest))
  }

  function ReadMembers(s: Text): (r: Option<Read<seq<Member>>>)
    ensures r.Some? ==> |r.value.rest| < |s|
    decreases |s|, 2
  {
    match ReadMember(s)
    case None => None
    case Some(read) =>
      if read.rest == [] then None
      else if read.rest[0] == '}' as Unit then Some(Read([read.value], read.rest[1..]))
      else if read.rest[0] == ',' as Unit then PutBefore(read.value, ReadMembers(read.rest[1..]))
      else None
  }

  // ---------------------------------------------------------------- strings

  lemma FourHexBack(u: Unit, rest: Text)
    ensures FourHex([HexDigit(u / 0x1000), HexDigit(u / 0x100 % 16), HexDigit(u / 16 % 16), HexDigit(u % 16)] + rest)
         == Some(u)
  {
    FourDigits(u);
    HexBack(u / 0x1000);
    HexBack(u / 0x100 % 16);
    HexBack(u / 16 % 16);
    HexBack(u % 16);
  }

  lemma HexBack(n: Unit)
    requires n < 16
    ensures HexValue(HexDigit(n)) == Some(n)
  {
  }

  lemma LongEscapeBack(u: Unit, rest: Text)
    requires |Escape(u)| == 6
    ensures ReadString(Escape(u) + rest) == PutBefore(u, ReadString(rest))
  {
    var s := Escape(u) + rest;
    var digits := [HexDigit(u / 0x1000), HexDigit(u / 0x100 % 16), HexDigit(u / 16 % 16), HexDigit(u % 16)];
    assert s[0] == BACKSLASH && s[1] == 'u' as Unit;
    assert s[2..] == digits + rest && s[6..] == rest;
    FourHexBack(u, rest);
  }

  lemma ShortEscapeBack(u: Unit, rest: Text)
    requires |Escape(u)| == 2
    ensures ReadString(Escape(u) + rest) == PutBefore(u, ReadString(rest))
  {
    var s := Escape(u) + rest;
    assert s[0] == BACKSLASH && s[1] == Letter(u) && s[1] != 'u' as Unit && Unescaped(s[1]) == Some(u);
    assert s[2..] == rest;
  }

  /** An escape reads back as the unit it was made from. */
  lemma EscapeBack(u: Unit, rest: Text)
    ensures ReadString(Escape(u) + rest) == PutBefore(u, ReadString(rest))
  {
    if |Escape(u)| == 6 {
      LongEscapeBack(u, rest);
    } else if |Escape(u)| == 2 {
      ShortEscapeBack(u, rest);
    } else {
      PlainBack(u, rest);
    }
  }

  lemma PlainBack(u: Unit, rest: Text)
    requires u >= 0x20 && u != QUOTE && u != BACKSLASH
    ensures ReadString([u] + rest) == PutBefore(u, ReadString(rest))
  {
    assert ([u] + rest)[1..] == rest;
  }

  lemma {:induction false} ClosingBack(s: Text, x: Text)
    ensures ReadString(Closing(s, x)) == Some(Read(s, x))
  {
    if s == [] {
      assert ([QUOTE] + x)[1..] == x;
    } else if JsonText.PairFirst(s) {
      ClosingBack(s[2..], x);
      PlainBack(s[1], Closing(s[2..], x));
      PlainBack(s[0], [s[1]] + Closing(s[2..], x));
      assert s[..2] + Closing(s[2..], x) == [s[0]] + ([s[1]] + Closing(s[2..], x));
      assert s == [s[0]] + ([s[1]] + s[2..]);
    } else {
      ClosingBack(s[1..], x);
      EscapeBack(s[0], Closing(s[1..], x));
      assert s == [s[0]] + s[1..];
    }
  }

  lemma QuoteRest(s: Text, x: Text)
    ensures Quote(s) + x != [] && (Quote(s) + x)[0] == '"' as Unit && (Quote(s) + x)[1..] == Closing(s, x)
  {
    ClosingIs(s, x);
  }

  /** A quoted string reads back as the string. */
  lemma QuoteBack(s: Text, x: Text)
    ensures Quote(s) + x != [] && (Quote(s) + x)[0] == '"' as Unit
    ensures ReadString((Quote(s) + x)[1..]) == Some(Read(s, x))
  {
    QuoteRest(s, x);
    ClosingBack(s, x);
  }

  // ---------------------------------------------------------------- values

  /** What a printed value reads back as: its keys in printed order, and null for a number that is not finite. */
  ghost function Normal(v: Json, less: Less): Json
    decreases v, 1
  {
    match v
    case NonFinite => Null
    case Arr(items) => if items == [Undefined] then Arr([]) else Arr(NormalItems(v, less))
    case Obj(_) => Obj(NormalMembers(v, less))
    case _ => v
  }

  ghost function NormalItems(v: Json, less: Less): seq<Json>
    requires v.Arr?
    decreases v, 0
  {
    seq(|v.items|, i requires 0 <= i < |v.items| => Normal(v.items[i], less))
  }

  ghost function NormalMembers(v: Json, less: Less): seq<Member>
    requires v.Obj?
    decreases v, 0
  {
    SortMembers(v.members, KeyOf(), less);
    var sorted := Sort(v.members, KeyOf(), less);
    seq(|sorted|, i requires 0 <= i < |sorted| =>
      assert sorted[i] in v.members;
      Member(sorted[i].key, Normal(sorted[i].value, less)))
  }

  /** Nothing in the value is undefined, unless as the only item of an array, which then prints as if empty. */
  ghost predicate IsJson(v: Json) {
    match v
    case Undefined => false
    case Arr(items) => items == [Undefined] || forall i :: 0 <= i < |items| ==> IsJson(items[i])
    case Obj(members) => forall m :: m in members ==> IsJson(m.value)
    case _ => true
  }

  lemma TailStarts(parts: seq<Text>, i: nat, close: Unit, x: Text)
    requires i <= |parts| && close in [CLOSE_ARRAY, CLOSE_OBJECT]
    ensures
      var tail := Tail(parts, i, close, x);
      && tail != [] && Delimited(tail)
      && (i == |parts| ==> tail[0] == close && tail[1..] == x)
      && (i < |parts| ==> tail[0] == COMMA && tail[1..] == parts[i] + Tail(parts, i + 1, close, x))
  {
    if i < |parts| {
      assert [COMMA] + parts[i] + Tail(parts, i + 1, close, x) == [COMMA] + (parts[i] + Tail(parts, i + 1, close, x));
    }
  }

  lemma NothingToRead(x: Text)
    requires Delimited(x) || x[0] == 'u' as Unit
    ensures ReadValue(x) == None
  {
    if x != [] {
      assert NumberLength(x) == 0 && !NumberText(x[..0]);
    }
  }

  lemma ScalarBack(v: Json, x: Text)
    requires !v.Arr? && !v.Obj? && !v.Undefined? && Delimited(x)
    ensures ReadValue(Scalar(v).value + x) == Some(Read(if v.NonFinite? then Null else v, x))
  {
    match v
    case Str(s) =>
      QuoteBack(s, x);
    case Finite(n) =>
      NumberEnds(n, x);
      assert (n + x)[..|n|] == n && (n + x)[|n|..] == x && n[0] in n;
    case _ =>
      WordBack(v, x);
  }

  lemma WordBack(v: Json, x: Text)
    requires v.Null? || v.NonFinite? || v.Bool?
    ensures ReadValue(Scalar(v).value + x) == Some(Read(if v.NonFinite? then Null else v, x))
  {
    var word := Scalar(v).value;
    assert word == Ascii(if v.Bool? then (if v.b then "true" else "false") else "null");
    assert (word + x)[|word|..] == x && word <= word + x;
  }

  /** One item and, after a comma, the others. */
  lemma ItemsStep(s: Text, tail: Text, ok: bool, v: Json, more: bool, restOk: bool, rest: seq<Json>, x: Text)
    requires ReadValue(s) == (if ok then Some(Read(v, tail)) else None) && tail != []
    requires if more then tail[0] == COMMA && ReadItems(tail[1..]) == (if restOk then Some(Read(rest, x)) else None)
             else tail[0] == CLOSE_ARRAY && tail[1..] == x && restOk && rest == []
    ensures ReadItems(s) == if ok && restOk then Some(Read([v] + rest, x)) else None
  {
    if !more {
      assert [v] + rest == [v];
    }
  }

  ghost predicate JsonFrom(items: seq<Json>, i: nat) {
    forall j :: i <= j < |items| ==> IsJson(items[j])
  }

  lemma {:induction false} ItemsBack(v: Json, less: Less, i: nat, x: Text)
    requires v.Arr? && i < |v.items|
    ensures ReadItems(Parts(v, less)[i] + Tail(Parts(v, less), i + 1, CLOSE_ARRAY, x)) ==
            if JsonFrom(v.items, i) then Some(Read(NormalItems(v, less)[i..], x)) else None
    decreases v, 0, |v.items| - i
  {
    var tail, more := Tail(Parts(v, less), i + 1, CLOSE_ARRAY, x), i + 1 < |v.items|;
    TailStarts(Parts(v, less), i + 1, CLOSE_ARRAY, x);
    ItemBack(v, less, i, tail);
    if more {
      ItemsBack(v, less, i + 1, x);
    }
    ItemsStep(Parts(v, less)[i] + tail, tail, IsJson(v.items[i]), Normal(v.items[i], less), more,
              JsonFrom(v.items, i + 1), NormalItems(v, less)[i + 1..], x);
    FromNext(v, less, i);
  }

  lemma FromNext(v: Json, less: Less, i: nat)
    requires v.Arr? && i < |v.items|
    ensures NormalItems(v, less)[i..] == [Normal(v.items[i], less)] + NormalItems(v, less)[i + 1..]
    ensures JsonFrom(v.items, i) <==> IsJson(v.items[i]) && JsonFrom(v.items, i + 1)
  {
  }

  lemma {:induction false} ItemBack(v: Json, less: Less, i: nat, x: Text)
    requires v.Arr? && i < |v.items| && Delimited(x)
    ensures ReadValue(Parts(v, less)[i] + x) ==
            if IsJson(v.items[i]) then Some(Read(Normal(v.items[i], less), x)) else None
    decreases v, 0, 0
  {
    if v.items[i].Undefined? {
      assert Parts(v, less)[i] + x == x;
      NothingToRead(x);
    } else {
      assert Parts(v, less)[i] == Shown(v.items[i], less);
      ReadsBack(v.items[i], less, x);
    }
  }

  lemma {:induction false} MemberBack(v: Json, less: Less, i: nat, x: Text)
    requires v.Obj? && i < |v.members| && i < |Parts(v, less)| && Delimited(x)
    ensures i < |NormalMembers(v, less)| && i < |Ordered(v, less)|
    ensures ReadMember(Parts(v, less)[i] + x) ==
            if IsJson(Ordered(v, less)[i].value) then Some(Read(NormalMembers(v, less)[i], x)) else None
    decreases v, 0, 0
  {
    MemberPart(v, less, i);
    var m := Ordered(v, less)[i];
    KeyThenRest(Quote(m.key), Shown(m.value, less), x);
    QuoteBack(m.key, [COLON] + (Shown(m.value, less) + x));
    assert ([COLON] + (Shown(m.value, less) + x))[1..] == Shown(m.value, less) + x;
    ReadsBack(m.value, less, x);
  }

  /** One member and, after a comma, the others. */
  lemma MembersStep(s: Text, tail: Text, ok: bool, m: Member, more: bool, restOk: bool, rest: seq<Member>, x: Text)
    requires ReadMember(s) == (if ok then Some(Read(m, tail)) else None) && tail != []
    requires if more then tail[0] == COMMA && ReadMembers(tail[1..]) == (if restOk then Some(Read(rest, x)) else None)
             else tail[0] == CLOSE_OBJECT && tail[1..] == x && restOk && rest == []
    ensures ReadMembers(s) == if ok && restOk then Some(Read([m] + rest, x)) else None
  {
    if !more {
      assert [m] + rest == [m];
    }
  }

  ghost predicate MembersJsonFrom(members: seq<Member>, i: nat) {
    forall j :: i <= j < |members| ==> IsJson(members[j].value)
  }

  lemma MembersFromNext(normal: seq<Member>, ordered: seq<Member>, i: nat)
    requires i < |normal| == |ordered|
    ensures normal[i..] == [normal[i]] + normal[i + 1..]
    ensures MembersJsonFrom(ordered, i) <==> IsJson(ordered[i].value) && MembersJsonFrom(ordered, i + 1)
  {
  }

  lemma OrderedSizes(v: Json, less: Less)
    requires v.Obj?
    ensures |Ordered(v, less)| == |Parts(v, less)| == |NormalMembers(v, less)| == |v.members|
  {
    SortMembers(v.members, KeyOf(), less);
  }

  /** Before any delimited text, the part reads as the second member, and as nothing if the first has no JSON value. */
  ghost predicate MemberReads(part: Text, m: Member, n: Member) {
    forall x :: Delimited(x) ==> ReadMember(part + x) == if IsJson(m.value) then Some(Read(n, x)) else None
  }

  lemma {:induction false} MembersBack(
    parts: seq<Text>, ordered: seq<Member>, normal: seq<Member>, i: nat, x: Text)
    requires i < |parts| == |ordered| == |normal|
    requires forall j :: 0 <= j < |parts| ==> MemberReads(parts[j], ordered[j], normal[j])
    ensures ReadMembers(parts[i] + Tail(parts, i + 1, CLOSE_OBJECT, x)) ==
            if MembersJsonFrom(ordered, i) then Some(Read(normal[i..], x)) else None
    decreases |parts| - i
  {
    var tail, more := Tail(parts, i + 1, CLOSE_OBJECT, x), i + 1 < |parts|;
    TailStarts(parts, i + 1, CLOSE_OBJECT, x);
    assert MemberReads(parts[i], ordered[i], normal[i]);
    if more {
      MembersBack(parts, ordered, normal, i + 1, x);
    }
    MembersStep(parts[i] + tail, tail, IsJson(ordered[i].value), normal[i], more,
                MembersJsonFrom(ordered, i + 1), normal[i + 1..], x);
    MembersFromNext(normal, ordered, i);
  }

  /**
   From a printed value and whatever delimited text follows it, a JSON reader reads the value, with its keys in the
   order they were sorted, and stops where it ends; and it reads nothing exactly when something in the value is
   undefined.
   */
  lemma {:induction false} ReadsBack(v: Json, less: Less, x: Text)
    requires Delimited(x)
    ensures ReadValue(Shown(v, less) + x) == if IsJson(v) then Some(Read(Normal(v, less), x)) else None
    decreases v, 1, 0
  {
    match v
    case Undefined => NothingToRead(Shown(v, less) + x);
    case Arr(_) => ArrayBack(v, less, x);
    case Obj(_) => ObjectBack(v, less, x);
    case _ => ScalarBack(v, x);
  }

  lemma ArrayStep(s: Text, body: Text, ok: bool, items: seq<Json>, x: Text)
    requires |s| > 1 && s[0] == OPEN_ARRAY && s[1..] == body && body[0] != CLOSE_ARRAY
    requires ReadItems(body) == if ok then Some(Read(items, x)) else None
    ensures ReadValue(s) == if ok then Some(Read(Arr(items), x)) else None
  {
  }

  lemma EmptyBack(s: Text, open: Unit, x: Text)
    requires open in [OPEN_ARRAY, OPEN_OBJECT]
    requires s == [open] + ([if open == OPEN_ARRAY then CLOSE_ARRAY else CLOSE_OBJECT] + x)
    ensures ReadValue(s) == Some(Read(if open == OPEN_ARRAY then Arr([]) else Obj([]), x))
  {
    assert s[2..] == x;
  }

  lemma EmptyArrayBack(v: Json, less: Less, x: Text)
    requires v == Arr([]) || v == Arr([Undefined])
    ensures ReadValue(Shown(v, less) + x) == Some(Read(Normal(v, less), x)) && IsJson(v)
  {
    var s := Shown(v, less) + x;
    ShownList(v, less, x);
    LooksEmptyArray(v, less);
    assert s[1..] == [CLOSE_ARRAY] + x && s == [OPEN_ARRAY] + s[1..];
    EmptyBack(s, OPEN_ARRAY, x);
  }

  lemma {:induction false} ArrayBack(v: Json, less: Less, x: Text)
    requires v.Arr? && Delimited(x)
    ensures ReadValue(Shown(v, less) + x) == if IsJson(v) then Some(Read(Normal(v, less), x)) else None
    decreases v, 0, |v.items| + 1
  {
    if v.items == [] || v.items == [Undefined] {
      EmptyArrayBack(v, less, x);
    } else {
      var s, normal := Shown(v, less) + x, NormalItems(v, less);
      ArrayOpens(v, less, x);
      ArrayStarts(v, less, x);
      ItemsBack(v, less, 0, x);
      assert normal[0..] == normal;
      ArrayStep(s, s[1..], JsonFrom(v.items, 0), normal, x);
    }
  }

  lemma LooksEmptyArray(v: Json, less: Less)
    requires v == Arr([]) || v == Arr([Undefined])
    ensures Join(Parts(v, less)) == [] && Normal(v, less) == Arr([]) && IsJson(v)
  {
  }

  lemma ArrayOpens(v: Json, less: Less, x: Text)
    requires v.Arr? && v.items != []
    ensures
      var s, body := Shown(v, less) + x, Parts(v, less)[0] + Tail(Parts(v, less), 1, CLOSE_ARRAY, x);
      |s| > 1 && s[0] == OPEN_ARRAY && s[1..] == body
  {
    ShownList(v, less, x);
    FirstPart(v, less, x);
  }

  lemma ArrayStarts(v: Json, less: Less, x: Text)
    requires v.Arr? && v.items != [] && v.items != [Undefined]
    ensures (Parts(v, less)[0] + Tail(Parts(v, less), 1, CLOSE_ARRAY, x))[0] != CLOSE_ARRAY
  {
    TailStarts(Parts(v, less), 1, CLOSE_ARRAY, x);
    ShownStarts(v.items[0], less);
    assert v.items[0].Undefined? ==> |v.items| > 1;
  }

  lemma ObjectStep(s: Text, body: Text, ok: bool, members: seq<Member>, x: Text)
    requires |s| > 1 && s[0] == OPEN_OBJECT && s[1..] == body && body[0] == QUOTE
    requires ReadMembers(body) == if ok then Some(Read(members, x)) else None
    ensures ReadValue(s) == if ok then Some(Read(Obj(members), x)) else None
  {
  }

  lemma EmptyObjectBack(v: Json, less: Less, x: Text)
    requires v == Obj([])
    ensures ReadValue(Shown(v, less) + x) == Some(Read(Normal(v, less), x)) && IsJson(v)
  {
    var s := Shown(v, less) + x;
    ShownList(v, less, x);
    OrderedSizes(v, less);
    assert Join(Parts(v, less)) == [];
    assert s[1..] == [CLOSE_OBJECT] + x && s == [OPEN_OBJECT] + s[1..];
    EmptyBack(s, OPEN_OBJECT, x);
  }

  lemma ObjectStarts(v: Json, less: Less, x: Text)
    requires v.Obj? && v.members != [] && |Parts(v, less)| > 0
    ensures
      var s, body := Shown(v, less) + x, Parts(v, less)[0] + Tail(Parts(v, less), 1, CLOSE_OBJECT, x);
      |s| > 1 && s[0] == OPEN_OBJECT && s[1..] == body && body[0] == QUOTE
  {
    ShownList(v, less, x);
    FirstPart(v, less, x);
    MemberPart(v, less, 0);
  }

  lemma {:induction false} ObjectBack(v: Json, less: Less, x: Text)
    requires v.Obj? && Delimited(x)
    ensures ReadValue(Shown(v, less) + x) == if IsJson(v) then Some(Read(Normal(v, less), x)) else None
    decreases v, 0, |v.members| + 1
  {
    OrderedSizes(v, less);
    if v.members == [] {
      EmptyObjectBack(v, less, x);
    } else {
      var s, parts, ordered, normal := Shown(v, less) + x, Parts(v, less), Ordered(v, less), NormalMembers(v, less);
      ObjectStarts(v, less, x);
      forall j | 0 <= j < |parts| ensures MemberReads(parts[j], ordered[j], normal[j]) {
        forall y | Delimited(y)
          ensures ReadMember(parts[j] + y) == if IsJson(ordered[j].value) then Some(Read(normal[j], y)) else None
        {
          MemberBack(v, less, j, y);
        }
      }
      MembersBack(parts, ordered, normal, 0, x);
      MembersAreJson(v, less);
      assert normal[0..] == normal;
      ObjectStep(s, s[1..], MembersJsonFrom(ordered, 0), normal, x);
    }
  }

  lemma MembersAreJson(v: Json, less: Less)
    requires v.Obj?
    ensures IsJson(v) <==> MembersJsonFrom(Ordered(v, less), 0)
  {
    SortMembers(v.members, KeyOf(), less);
    forall m | m in v.members ensures exists j :: 0 <= j < |Ordered(v, less)| && Ordered(v, less)[j] == m {
      assert m in Ordered(v, less);
    }
  }

  // ---------------------------------------------------------------- what the printers print

  /** The JSON value that a whole text is, if it is one. */
  function Parsed(text: Text): Option<Json> {
    match ReadValue(text)
    case None => None
    case Some(read) => if read.rest == [] then Some(read.value) else None
  }

  /** The keys of every object stand in order. */
  ghost predicate InOrder(v: Json, less: Less) {
    match v
    case Arr(items) => forall i :: 0 <= i < |items| ==> InOrder(items[i], less)
    case Obj(members) => StrictlySorted(members, KeyOf(), less) && forall m :: m in members ==> InOrder(m.value, less)
    case _ => true
  }

  ghost predicate IsNormal(v: Json, n: Json, less: Less) {
    WellFormed(n) && InOrder(n, less) && Meaning(n) == Meaning(v)
  }

  lemma {:induction false} NormalMeans(v: Json, less: Less)
    requires WellFormed(v) && StrictOrder(less) && Separates(less)
    ensures IsNormal(v, Normal(v, less), less)
    decreases v
  {
    if v.Arr? {
      forall i | 0 <= i < |v.items| ensures IsNormal(v.items[i], NormalItems(v, less)[i], less) {
        NormalMeans(v.items[i], less);
      }
      ArrayMeans(v, less);
    } else if v.Obj? {
      SortMembers(v.members, KeyOf(), less);
      forall m | m in v.members ensures IsNormal(m.value, Normal(m.value, less), less) {
        NormalMeans(m.value, less);
      }
      ObjectMeans(v, less);
    }
  }

  lemma NotBlank(v: Json, less: Less)
    requires v.Arr? && |v.items| == 1 && v.items != [Undefined]
    requires IsNormal(v.items[0], NormalItems(v, less)[0], less)
    ensures NormalItems(v, less) != [Undefined]
  {
    assert v.items == [v.items[0]];
    assert Meaning(v.items[0]) != Absent;
  }

  lemma ArrayMeans(v: Json, less: Less)
    requires v.Arr? && WellFormed(v)
    requires forall i :: 0 <= i < |v.items| ==> IsNormal(v.items[i], NormalItems(v, less)[i], less)
    ensures IsNormal(v, Normal(v, less), less)
  {
    if v.items != [Undefined] {
      var n := Normal(v, less);
      if |v.items| == 1 {
        NotBlank(v, less);
      }
      assert n.items == NormalItems(v, less) && |n.items| == |v.items| && n.items != [Undefined];
      assert Meaning(n).items == Meaning(v).items;
    }
  }

  /** The sorted members with their values read back: each stands for a member of the object. */
  lemma NormalOf(v: Json, less: Less)
    requires v.Obj? && forall m :: m in v.members ==> IsNormal(m.value, Normal(m.value, less), less)
    ensures |NormalMembers(v, less)| == |Ordered(v, less)|
    ensures forall i :: 0 <= i < |Ordered(v, less)| ==>
              && NormalMembers(v, less)[i].key == Ordered(v, less)[i].key
              && IsNormal(Ordered(v, less)[i].value, NormalMembers(v, less)[i].value, less)
  {
    SortMembers(v.members, KeyOf(), less);
    forall i | 0 <= i < |Ordered(v, less)|
      ensures NormalMembers(v, less)[i].key == Ordered(v, less)[i].key
      ensures IsNormal(Ordered(v, less)[i].value, NormalMembers(v, less)[i].value, less)
    {
      assert Ordered(v, less)[i] in v.members;
    }
  }

  /** Members with sorted keys and good values make a good object. */
  lemma SortedIsGood(normal: seq<Member>, sorted: seq<Member>, less: Less)
    requires StrictOrder(less) && |normal| == |sorted| && StrictlySorted(sorted, KeyOf(), less)
    requires forall i :: 0 <= i < |sorted| ==>
               normal[i].key == sorted[i].key && IsNormal(sorted[i].value, normal[i].value, less)
    ensures WellFormed(Obj(normal)) && InOrder(Obj(normal), less)
  {
    forall i, j | 0 <= i < j < |normal|
      ensures less(KeyOf()(normal[i]), KeyOf()(normal[j])) && KeyOf()(normal[i]) != KeyOf()(normal[j])
    {
      assert less(KeyOf()(sorted[i]), KeyOf()(sorted[j]));
    }
    forall m | m in normal ensures WellFormed(m.value) && InOrder(m.value, less) {
      var i :| 0 <= i < |normal| && normal[i] == m;
      assert IsNormal(sorted[i].value, normal[i].value, less);
    }
  }

  lemma ObjectMeans(v: Json, less: Less)
    requires v.Obj? && WellFormed(v) && StrictOrder(less) && Separates(less)
    requires forall m :: m in v.members ==> IsNormal(m.value, Normal(m.value, less), less)
    ensures IsNormal(v, Normal(v, less), less)
  {
    var sorted, normal := Ordered(v, less), NormalMembers(v, less);
    SortMembers(v.members, KeyOf(), less);
    SortSorts(v.members, KeyOf(), less);
    NormalOf(v, less);
    SortedIsGood(normal, sorted, less);
    SameFields(v, Obj(normal), sorted);
  }

  lemma SameFields(v: Json, n: Json, sorted: seq<Member>)
    requires v.Obj? && n.Obj? && WellFormed(v) && WellFormed(n) && |sorted| == |n.members|
    requires forall m :: m in sorted <==> m in v.members
    requires forall i :: 0 <= i < |sorted| ==>
               n.members[i].key == sorted[i].key && Meaning(n.members[i].value) == Meaning(sorted[i].value)
    ensures Meaning(n) == Meaning(v)
  {
    forall k | k in Meaning(v).fields
      ensures k in Meaning(n).fields && Meaning(n).fields[k] == Meaning(v).fields[k]
    {
      FieldAmong(v, n, sorted, k);
    }
    forall k | k in Meaning(n).fields ensures k in Meaning(v).fields {
      KeyAmong(v, n, sorted, k);
    }
    SameMap(Meaning(n).fields, Meaning(v).fields);
  }

  lemma SameMap<K, V>(f: map<K, V>, g: map<K, V>)
    requires forall k :: k in g ==> k in f && f[k] == g[k]
    requires forall k :: k in f ==> k in g
    ensures f == g
  {
  }

  lemma KeyAmong(v: Json, n: Json, sorted: seq<Member>, k: Text)
    requires v.Obj? && n.Obj? && WellFormed(v) && |sorted| == |n.members|
    requires forall m :: m in sorted ==> m in v.members
    requires forall i :: 0 <= i < |sorted| ==> n.members[i].key == sorted[i].key
    requires k in Meaning(n).fields
    ensures k in Meaning(v).fields
  {
    var m := FieldFrom(n, k);
    var i :| 0 <= i < |n.members| && n.members[i] == m;
    FieldOf(v, sorted[i]);
  }

  lemma FieldAmong(v: Json, n: Json, sorted: seq<Member>, k: Text)
    requires v.Obj? && n.Obj? && WellFormed(n) && |sorted| == |n.members|
    requires forall m :: m in v.members ==> m in sorted
    requires forall i :: 0 <= i < |sorted| ==>
               n.members[i].key == sorted[i].key && Meaning(n.members[i].value) == Meaning(sorted[i].value)
    requires k in Meaning(v).fields
    ensures k in Meaning(n).fields && Meaning(n).fields[k] == Meaning(v).fields[k]
  {
    var m := FieldFrom(v, k);
    var i :| 0 <= i < |sorted| && sorted[i] == m;
    FieldOf(n, n.members[i]);
  }

  /** The text is JSON, of a value that means the same, with the keys of every object in order. */
  ghost predicate Prints(text: Option<Text>, v: Json, less: Less) {
    text.Some? && Parsed(text.value).Some? && IsNormal(v, Parsed(text.value).value, less)
  }

  /** `stableJson` prints JSON, and JSON that means the value, exactly when nothing in the value is undefined. */
  lemma StableIsJsonExactly(v: Json, less: Less)
    requires WellFormed(v) && StrictOrder(less) && Separates(less)
    ensures IsJson(v) ==> Prints(StableJson(v, less), v, less)
    ensures !IsJson(v) ==> StableJson(v, less).None? || Parsed(StableJson(v, less).value).None?
  {
    ReadsBack(v, less, []);
    assert Shown(v, less) + [] == Shown(v, less);
    NormalMeans(v, less);
  }

  lemma {:induction false} PrunedIsJson(v: Json, keys: seq<Text>)
    requires WellFormed(v) && !v.Undefined?
    ensures IsJson(Pruned(v, keys))
  {
    if v.Arr? {
      forall i | 0 <= i < |v.items| ensures IsJson(Pruned(v, keys).items[i]) {
        if !v.items[i].Undefined? {
          PrunedIsJson(v.items[i], keys);
        }
      }
    } else if v.Obj? {
      forall p | p in PrunedMembers(v.members, keys) ensures IsJson(p.value) {
        var m := StayedFrom(v.members, keys, p);
        PrunedIsJson(m.value, keys);
      }
    }
  }

  /** How it goes wrong otherwise: an undefined member prints as a word. */
  lemma UndefinedMemberPrints(k: Text, less: Less)
    ensures StableJson(Obj([Member(k, Undefined)]), less) == Some(Ascii("{") + Quote(k) + Ascii(":undefined}"))
  {
    var members := [Member(k, Undefined)];
    assert Sort(members, KeyOf(), less) == members;
    assert Parts(Obj(members), less) == [Quote(k) + [COLON] + UNDEFINED];
    BracedMember(Quote(k));
  }

  lemma BracedMember(key: Text)
    ensures [OPEN_OBJECT] + (key + [COLON] + UNDEFINED) + [CLOSE_OBJECT] == Ascii("{") + key + Ascii(":undefined}")
  {
    assert Ascii("{") == [OPEN_OBJECT] && Ascii(":undefined}") == [COLON] + UNDEFINED + [CLOSE_OBJECT];
  }

  /** And an undefined item prints as nothing. */
  lemma UndefinedItemPrints(less: Less)
    ensures StableJson(Arr([Undefined, Undefined]), less) == Some(Ascii("[,]"))
  {
    assert Parts(Arr([Undefined, Undefined]), less) == [[], []];
    assert Join([[], []]) == [COMMA] && Ascii("[,]") == [OPEN_ARRAY] + [COMMA] + [CLOSE_ARRAY];
  }

  /** `canonicalJson` prints an undefined item as null. */
  lemma CanonicalUndefinedItem()
    ensures CanonicalJson(Arr([Undefined])) == Some(Ascii("[null]"))
  {
    var list := Arr([Undefined]);
    assert ListedItems(list, PropertyList(list)) == [NULL];
    NullListed();
  }

  lemma NullListed()
    ensures [OPEN_ARRAY] + NULL + [CLOSE_ARRAY] == Ascii("[null]")
  {
  }

  /** And it leaves an undefined member out. */
  lemma CanonicalUndefinedMember(k: Text)
    ensures CanonicalJson(Obj([Member(k, Undefined)])) == Some(Ascii("{}"))
  {
    var record, keys := Obj([Member(k, Undefined)]), PropertyList(Obj([Member(k, Undefined)]));
    NothingListed(record, keys, keys);
    assert [OPEN_OBJECT] + [] + [CLOSE_OBJECT] == Ascii("{}");
  }

  lemma {:induction false} NothingListed(v: Json, rest: seq<Text>, keys: seq<Text>)
    requires v.Obj? && forall m :: m in v.members ==> m.value.Undefined?
    ensures ListedMembers(v, rest, keys) == []
  {
    if rest != [] {
      NothingListed(v, rest[1..], keys);
      assert ListedMember(v, rest[0], keys) == [];
    }
  }

  /** `canonicalJson` always prints JSON: what is left of the value, with the keys in the default order. */
  lemma CanonicalIsJson(v: Json)
    requires WellFormed(v) && !v.Undefined?
    ensures Prints(CanonicalJson(v), Pruned(v, PropertyList(v)), ByUnits())
  {
    ByUnitsIsTotal();
    CanonicalIsPrunedStable(v);
    PrunedWellFormed(v, PropertyList(v));
    PrunedIsJson(v, PropertyList(v));
    StableIsJsonExactly(Pruned(v, PropertyList(v)), ByUnits());
  }

  /** Only what must be escaped is, with a letter where there is one and small hexadecimal digits where not. */
  lemma EscapesExactly(u: Unit)
    ensures Escape(u) == [u] <==>
            0x20 <= u && u != '"' as Unit && u != '\\' as Unit && !(0xD800 <= u < 0xE000)
    ensures |Escape(u)| == 2 <==> u in {0x08, 0x09, 0x0A, 0x0C, 0x0D, '"' as Unit, '\\' as Unit}
    ensures |Escape(u)| == 6 ==> forall i :: 2 <= i < 6 ==> Escape(u)[i] in Ascii("0123456789abcdef")
  {
    var digits := Ascii("0123456789abcdef");
    forall n: Unit | n < 16 ensures HexDigit(n) in digits {
      assert digits[n as int] == HexDigit(n);
    }
  }
}

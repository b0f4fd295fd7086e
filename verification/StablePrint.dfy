/**
 The worker's canonical printer for commitments: `stableJson` prints a value with every object's keys
 sorted. Two values print the same text exactly when they mean the same, provided no two keys tie.
 */
module StablePrint {
  import opened Common
  import opened JsonText
  import opened KeyOrder

  /** A value the printer is given. An object's members stand in the order `Object.entries` lists them. */
  datatype Json =
    | Undefined
    | Null
    | Bool(b: bool)
    | Finite(number: Number)
    | NonFinite
    | Str(s: Text)
    | Arr(items: seq<Json>)
    | Obj(members: seq<Member>)

  datatype Member = Member(key: Text, value: Json)

  function KeyOf(): Member -> Text { (m: Member) => m.key }

  /** As in every JavaScript object, no two members share a key. */
  ghost predicate WellFormed(v: Json) {
    match v
    case Arr(items) => forall i :: 0 <= i < |items| ==> WellFormed(items[i])
    case Obj(members) => DistinctBy(members, KeyOf()) && forall m :: m in members ==> WellFormed(m.value)
    case _ => true
  }

  // ---------------------------------------------------------------- printing

  /** `Array.prototype.join` with a comma. */
  function Join(parts: seq<Text>): Text {
    if parts == [] then []
    else if |parts| == 1 then parts[0]
    else parts[0] + [COMMA] + Join(parts[1..])
  }

  /** An absent text as a template literal shows it. */
  function Interpolated(text: Option<Text>): Text {
    match text
    case None => UNDEFINED
    case Some(t) => t
  }

  /** An absent text as `join` shows it. */
  function Joined(text: Option<Text>): Text {
    match text
    case None => []
    case Some(t) => t
  }

  /** `JSON.stringify` of anything but an array or an object. */
  function Scalar(v: Json): Option<Text>
    requires !v.Arr? && !v.Obj?
  {
    match v
    case Undefined => None
    case Bool(b) => Some(if b then TRUE else FALSE)
    case Finite(number) => Some(number)
    case Str(s) => Some(Quote(s))
    case _ => Some(NULL)
  }

  function StableJson(v: Json, less: Less): Option<Text>
    decreases v, 1
  {
    match v
    case Arr(_) => Some([OPEN_ARRAY] + Join(Parts(v, less)) + [CLOSE_ARRAY])
    case Obj(_) => Some([OPEN_OBJECT] + Join(Parts(v, less)) + [CLOSE_OBJECT])
    case _ => Scalar(v)
  }

  /** What `join` is given: the items of an array, or the members of an object in key order. */
  function Parts(v: Json, less: Less): (parts: seq<Text>)
    requires v.Arr? || v.Obj?
    decreases v, 0
  {
    match v
    case Arr(items) => seq(|items|, i requires 0 <= i < |items| => Joined(StableJson(items[i], less)))
    case Obj(members) =>
      SortMembers(members, KeyOf(), less);
      var sorted := Sort(members, KeyOf(), less);
      seq(|sorted|, i requires 0 <= i < |sorted| =>
        assert sorted[i] in members;
        Quote(sorted[i].key) + [COLON] + Interpolated(StableJson(sorted[i].value, less)))
  }

  // ---------------------------------------------------------------- meaning

  /** A JSON value with nothing said about the order of keys. */
  datatype Value =
    | Absent
    | NullValue
    | Truth(b: bool)
    | Numeral(number: Number)
    | Words(s: Text)
    | List(items: seq<Value>)
    | Record(fields: map<Text, Value>)

  function Find(members: seq<Member>, key: Text): (found: Option<Json>)
    ensures found.Some? ==> Member(key, found.value) in members
    ensures found.None? ==> forall m :: m in members ==> m.key != key
  {
    if members == [] then None
    else if members[0].key == key then Some(members[0].value)
    else Find(members[1..], key)
  }

  /** A number that is not finite counts as null, and an array of one undefined item as empty. */
  ghost function Meaning(v: Json): Value {
    match v
    case Undefined => Absent
    case Null => NullValue
    case Bool(b) => Truth(b)
    case Finite(number) => Numeral(number)
    case NonFinite => NullValue
    case Str(s) => Words(s)
    case Arr(items) =>
      List(if items == [Undefined] then [] else seq(|items|, i requires 0 <= i < |items| => Meaning(items[i])))
    case Obj(members) =>
      Record(map k | k in (set m | m in members :: m.key) :: Meaning(Find(members, k).value))
  }

  ghost predicate SameMeaning(v: Json, w: Json) {
    WellFormed(v) && WellFormed(w) && Meaning(v) == Meaning(w)
  }

  lemma DistinctMembers(members: seq<Member>, m: Member, n: Member)
    requires DistinctBy(members, KeyOf()) && m in members && n in members && m.key == n.key
    ensures m == n
  {
    var i :| 0 <= i < |members| && members[i] == m;
    var j :| 0 <= j < |members| && members[j] == n;
    assert KeyOf()(members[i]) == KeyOf()(members[j]);
  }

  /** A record has a field for each member, and no others. */
  lemma FieldOf(v: Json, m: Member)
    requires WellFormed(v) && v.Obj? && m in v.members
    ensures m.key in Meaning(v).fields && Meaning(v).fields[m.key] == Meaning(m.value)
  {
    DistinctMembers(v.members, m, Member(m.key, Find(v.members, m.key).value));
  }

  lemma FieldFrom(v: Json, k: Text) returns (m: Member)
    requires v.Obj? && k in Meaning(v).fields
    ensures m in v.members && m.key == k && Meaning(v).fields[k] == Meaning(m.value)
  {
    m := Member(k, Find(v.members, k).value);
  }

  // ---------------------------------------------------------------- reading back

  /** The first unit tells what kind of value was printed. */
  ghost function FirstUnit(v: Json): Unit {
    match v
    case Undefined => UNDEFINED[0]
    case Null | NonFinite => NULL[0]
    case Bool(b) => if b then TRUE[0] else FALSE[0]
    case Finite(number) => number[0]
    case Str(_) => QUOTE
    case Arr(_) => OPEN_ARRAY
    case Obj(_) => OPEN_OBJECT
  }

  ghost function Shown(v: Json, less: Less): Text {
    Interpolated(StableJson(v, less))
  }

  lemma ShownStarts(v: Json, less: Less)
    ensures Shown(v, less) != [] && Shown(v, less)[0] == FirstUnit(v)
  {
  }

  /** The items from the i-th on with the commas before them, and the closing bracket. */
  ghost function Tail(parts: seq<Text>, i: nat, close: Unit, x: Text): Text
    requires i <= |parts|
    decreases |parts| - i
  {
    if i == |parts| then [close] + x else [COMMA] + parts[i] + Tail(parts, i + 1, close, x)
  }

  lemma {:induction false} JoinIsTail(parts: seq<Text>, i: nat, close: Unit, x: Text)
    requires i < |parts|
    ensures Join(parts[i..]) + [close] + x == parts[i] + Tail(parts, i + 1, close, x)
    decreases |parts| - i
  {
    if i + 1 < |parts| {
      JoinIsTail(parts, i + 1, close, x);
      assert parts[i..][1..] == parts[i + 1..];
      var rest := Join(parts[i + 1..]);
      assert parts[i] + [COMMA] + rest + [close] + x == parts[i] + ([COMMA] + (rest + [close] + x));
      assert [COMMA] + (parts[i + 1] + Tail(parts, i + 2, close, x)) == Tail(parts, i + 1, close, x);
    } else {
      assert Join(parts[i..]) == parts[i];
      assert parts[i] + [close] + x == parts[i] + ([close] + x);
    }
  }

  /** The members of an object in the order they are printed. */
  ghost function Ordered(v: Json, less: Less): seq<Member>
    requires v.Obj?
  {
    Sort(v.members, KeyOf(), less)
  }

  /** The i-th part of both prints came from the same key and values that mean the same. */
  ghost predicate SamePart(v: Json, w: Json, less: Less, i: nat) {
    if v.Arr? && w.Arr? then i < |v.items| && i < |w.items| && SameMeaning(v.items[i], w.items[i])
    else v.Obj? && w.Obj? && i < |v.members| && i < |w.members| && SameMember(v, w, less, i)
  }

  ghost predicate SameMember(v: Json, w: Json, less: Less, i: nat)
    requires v.Obj? && w.Obj? && i < |v.members| && i < |w.members|
  {
    SortMembers(v.members, KeyOf(), less);
    SortMembers(w.members, KeyOf(), less);
    var a, b := Ordered(v, less)[i], Ordered(w, less)[i];
    a.key == b.key && SameMeaning(a.value, b.value)
  }

  ghost predicate BothLists(v: Json, w: Json) {
    (v.Arr? && w.Arr?) || (v.Obj? && w.Obj?)
  }

  /**
   Unique readability: from a printed value and whatever follows it, the value's meaning and what follows
   can be told, whichever comparator sorted the keys.
   */
  lemma {:induction false} Readable(v: Json, w: Json, less: Less, x: Text, y: Text)
    requires WellFormed(v) && WellFormed(w) && Delimited(x) && Delimited(y)
    requires Shown(v, less) + x == Shown(w, less) + y
    ensures Meaning(v) == Meaning(w) && x == y
    decreases v, 2, 0
  {
    ShownStarts(v, less);
    ShownStarts(w, less);
    assert FirstUnit(v) == (Shown(v, less) + x)[0] == FirstUnit(w);
    match v
    case Finite(m) =>
      assert w.Finite?;
      NumberReadable(m, w.number, x, y);
    case Str(s) =>
      assert w.Str?;
      QuoteReadable(s, w.s, x, y);
    case Arr(_) =>
      assert w.Arr?;
      ReadableList(v, w, less, x, y);
    case Obj(_) =>
      assert w.Obj?;
      ReadableList(v, w, less, x, y);
    case _ =>
      assert !w.Finite?;
      assert Shown(v, less) == Shown(w, less);
      assert x == (Shown(v, less) + x)[|Shown(v, less)|..] == y;
  }

  ghost function Open(v: Json): Unit { if v.Arr? then OPEN_ARRAY else OPEN_OBJECT }

  ghost function Close(v: Json): Unit { if v.Arr? then CLOSE_ARRAY else CLOSE_OBJECT }

  ghost predicate SameParts(v: Json, w: Json, less: Less, from: nat)
    requires BothLists(v, w)
  {
    && |Parts(v, less)| == |Parts(w, less)|
    && forall i :: from <= i < |Parts(v, less)| ==> SamePart(v, w, less, i)
  }

  lemma MemberPart(v: Json, less: Less, i: nat)
    requires v.Obj? && i < |Parts(v, less)|
    ensures |Parts(v, less)| == |Ordered(v, less)| == |v.members| && Ordered(v, less)[i] in v.members
    ensures Parts(v, less)[i] == Quote(Ordered(v, less)[i].key) + [COLON] + Shown(Ordered(v, less)[i].value, less)
  {
    SortMembers(v.members, KeyOf(), less);
  }

  lemma {:induction false} ReadablePart(v: Json, w: Json, less: Less, i: nat, x: Text, y: Text)
    requires WellFormed(v) && WellFormed(w) && BothLists(v, w) && Delimited(x) && Delimited(y) && x != [] && y != []
    requires i < |Parts(v, less)| && i < |Parts(w, less)|
    requires Parts(v, less)[i] + x == Parts(w, less)[i] + y
    ensures SamePart(v, w, less, i) && x == y
    decreases v, 0, 0
  {
    if v.Arr? {
      ReadableItem(v.items[i], w.items[i], less, x, y);
    } else {
      MemberPart(v, less, i);
      MemberPart(w, less, i);
      var a, b := Ordered(v, less)[i], Ordered(w, less)[i];
      MemberReadable(a, b, less, x, y);
      Readable(a.value, b.value, less, x, y);
    }
  }

  lemma {:induction false} ReadableItem(a: Json, b: Json, less: Less, x: Text, y: Text)
    requires WellFormed(a) && WellFormed(b) && Delimited(x) && Delimited(y) && x != [] && y != []
    requires (if a.Undefined? then [] else Shown(a, less)) + x == (if b.Undefined? then [] else Shown(b, less)) + y
    ensures Meaning(a) == Meaning(b) && x == y
    decreases a, 3, 0
  {
    if a.Undefined? || b.Undefined? {
      UndefinedReadable(a, b, less, x, y);
    } else {
      Readable(a, b, less, x, y);
    }
  }

  /** No printed value starts with a delimiter. */
  lemma UndefinedReadable(a: Json, b: Json, less: Less, x: Text, y: Text)
    requires Delimited(x) && Delimited(y) && x != [] && y != []
    requires (if a.Undefined? then [] else Shown(a, less)) + x == (if b.Undefined? then [] else Shown(b, less)) + y
    requires a.Undefined? || b.Undefined?
    ensures a == b && x == y
  {
    var whole := (if a.Undefined? then [] else Shown(a, less)) + x;
    ShownStarts(a, less);
    ShownStarts(b, less);
    assert whole[0] == (if a.Undefined? then x[0] else FirstUnit(a));
    assert whole[0] == (if b.Undefined? then y[0] else FirstUnit(b));
    assert a.Undefined? && b.Undefined?;
    assert x == whole == y;
  }

  lemma MemberReadable(a: Member, b: Member, less: Less, x: Text, y: Text)
    requires Quote(a.key) + [COLON] + Shown(a.value, less) + x == Quote(b.key) + [COLON] + Shown(b.value, less) + y
    ensures a.key == b.key && Shown(a.value, less) + x == Shown(b.value, less) + y
  {
    KeyReadable(a.key, b.key, Shown(a.value, less), Shown(b.value, less), x, y);
  }

  lemma KeyReadable(k: Text, l: Text, a: Text, b: Text, x: Text, y: Text)
    requires Quote(k) + [COLON] + a + x == Quote(l) + [COLON] + b + y
    ensures k == l && a + x == b + y
  {
    KeyThenRest(Quote(k), a, x);
    KeyThenRest(Quote(l), b, y);
    QuoteReadable(k, l, [COLON] + (a + x), [COLON] + (b + y));
    assert a + x == ([COLON] + (a + x))[1..] == ([COLON] + (b + y))[1..] == b + y;
  }

  lemma KeyThenRest(quoted: Text, a: Text, x: Text)
    ensures quoted + [COLON] + a + x == quoted + ([COLON] + (a + x))
  {
  }

  /** Two equal tails both go on, or both end. */
  lemma TailStep(p: seq<Text>, q: seq<Text>, i: nat, close: Unit, x: Text, y: Text) returns (more: bool)
    requires close != COMMA && i <= |p| && i <= |q| && Tail(p, i, close, x) == Tail(q, i, close, y)
    ensures !more ==> i == |p| == |q| && x == y
    ensures more ==> i < |p| && i < |q| && p[i] + Tail(p, i + 1, close, x) == q[i] + Tail(q, i + 1, close, y)
  {
    more := i < |p|;
    var whole := Tail(p, i, close, x);
    assert whole[0] == (if i < |p| then COMMA else close);
    assert whole[0] == (if i < |q| then COMMA else close);
    if more {
      assert p[i] + Tail(p, i + 1, close, x) == whole[1..] == q[i] + Tail(q, i + 1, close, y);
    } else {
      assert x == whole[1..] == y;
    }
  }

  lemma SamePartsFrom(v: Json, w: Json, less: Less, i: nat)
    requires BothLists(v, w)
    requires |Parts(v, less)| == |Parts(w, less)| == i || (SamePart(v, w, less, i) && SameParts(v, w, less, i + 1))
    ensures SameParts(v, w, less, i)
  {
  }

  lemma {:induction false} ReadableTail(v: Json, w: Json, less: Less, i: nat, x: Text, y: Text)
    requires WellFormed(v) && WellFormed(w) && BothLists(v, w)
    requires i <= |Parts(v, less)| && i <= |Parts(w, less)|
    requires Tail(Parts(v, less), i, Close(v), x) == Tail(Parts(w, less), i, Close(w), y)
    ensures SameParts(v, w, less, i) && x == y
    decreases v, 1, |Parts(v, less)| - i
  {
    var more := TailStep(Parts(v, less), Parts(w, less), i, Close(v), x, y);
    if more {
      ReadableStep(v, w, less, i, x, y);
      ReadableTail(v, w, less, i + 1, x, y);
    }
    SamePartsFrom(v, w, less, i);
  }

  lemma {:induction false} ReadableStep(v: Json, w: Json, less: Less, i: nat, x: Text, y: Text)
    requires WellFormed(v) && WellFormed(w) && BothLists(v, w)
    requires i < |Parts(v, less)| && i < |Parts(w, less)|
    requires Parts(v, less)[i] + Tail(Parts(v, less), i + 1, Close(v), x) ==
             Parts(w, less)[i] + Tail(Parts(w, less), i + 1, Close(w), y)
    ensures SamePart(v, w, less, i)
    ensures Tail(Parts(v, less), i + 1, Close(v), x) == Tail(Parts(w, less), i + 1, Close(w), y)
    decreases v, 0, 1
  {
    ReadablePart(v, w, less, i, Tail(Parts(v, less), i + 1, Close(v), x), Tail(Parts(w, less), i + 1, Close(w), y));
  }

  lemma ShownList(v: Json, less: Less, x: Text)
    requires v.Arr? || v.Obj?
    ensures (Shown(v, less) + x)[1..] == Join(Parts(v, less)) + [Close(v)] + x
  {
    var inner := Join(Parts(v, less)) + [Close(v)] + x;
    assert Shown(v, less) + x == [Open(v)] + inner;
  }

  lemma FirstPart(v: Json, less: Less, x: Text)
    requires (v.Arr? || v.Obj?) && Parts(v, less) != []
    ensures Join(Parts(v, less)) + [Close(v)] + x == Parts(v, less)[0] + Tail(Parts(v, less), 1, Close(v), x)
  {
    assert Parts(v, less)[0..] == Parts(v, less);
    JoinIsTail(Parts(v, less), 0, Close(v), x);
  }

  /** Only an array of one undefined item looks empty without being so. */
  lemma LooksEmpty(v: Json, less: Less, x: Text)
    requires WellFormed(v) && (v.Arr? || v.Obj?)
    requires (Join(Parts(v, less)) + [Close(v)] + x)[0] == Close(v)
    ensures v == Arr([Undefined]) || Parts(v, less) == []
    ensures Join(Parts(v, less)) == []
  {
    if Parts(v, less) != [] {
      FirstPart(v, less, x);
      if v.Arr? {
        ShownStarts(v.items[0], less);
        assert v.items[0] == Undefined;
        assert |v.items| == 1;
        assert v.items == [Undefined];
      } 
    }
  }

  lemma EmptyReadable(v: Json, w: Json, less: Less, x: Text, y: Text)
    requires WellFormed(v) && WellFormed(w) && BothLists(v, w)
    requires Join(Parts(v, less)) + [Close(v)] + x == Join(Parts(w, less)) + [Close(w)] + y
    requires Parts(v, less) == [] || Parts(w, less) == []
    ensures Meaning(v) == Meaning(w) && x == y
  {
    var whole := Join(Parts(v, less)) + [Close(v)] + x;
    assert whole[0] == Close(v);
    LooksEmpty(v, less, x);
    LooksEmpty(w, less, y);
    assert x == whole[1..] == y;
  }

  lemma {:induction false} ReadableParts(v: Json, w: Json, less: Less, x: Text, y: Text)
    requires WellFormed(v) && WellFormed(w) && BothLists(v, w) && Parts(v, less) != [] && Parts(w, less) != []
    requires Join(Parts(v, less)) + [Close(v)] + x == Join(Parts(w, less)) + [Close(w)] + y
    ensures SameParts(v, w, less, 0) && x == y
    decreases v, 1, |Parts(v, less)| + 1
  {
    BodyIsTail(v, less, x);
    BodyIsTail(w, less, y);
    ReadableTail(v, w, less, 0, x, y);
  }

  /** With one more comma before it, what stands between the brackets is a tail from the start. */
  lemma BodyIsTail(v: Json, less: Less, x: Text)
    requires (v.Arr? || v.Obj?) && Parts(v, less) != []
    ensures [COMMA] + (Join(Parts(v, less)) + [Close(v)] + x) == Tail(Parts(v, less), 0, Close(v), x)
  {
    FirstPart(v, less, x);
  }

  lemma {:induction false} ReadableList(v: Json, w: Json, less: Less, x: Text, y: Text)
    requires WellFormed(v) && WellFormed(w) && Delimited(x) && Delimited(y) && BothLists(v, w)
    requires Shown(v, less) + x == Shown(w, less) + y
    ensures Meaning(v) == Meaning(w) && x == y
    decreases v, 1, |Parts(v, less)| + 2
  {
    ShownList(v, less, x);
    ShownList(w, less, y);
    if Parts(v, less) == [] || Parts(w, less) == [] {
      EmptyReadable(v, w, less, x, y);
    } else {
      ReadableParts(v, w, less, x, y);
      PartsTellMeaning(v, w, less);
    }
  }

  lemma PartsTellMeaning(v: Json, w: Json, less: Less)
    requires WellFormed(v) && WellFormed(w) && BothLists(v, w) && SameParts(v, w, less, 0)
    ensures Meaning(v) == Meaning(w)
  {
    if v.Arr? {
      ItemsTellMeaning(v, w, less);
    } else {
      RecordsAgree(v, w, less);
      RecordsAgree(w, v, less);
      SameMaps(Meaning(v).fields, Meaning(w).fields);
    }
  }

  lemma SameMaps<K, V>(m: map<K, V>, n: map<K, V>)
    requires forall k :: k in m ==> k in n && m[k] == n[k]
    requires forall k :: k in n ==> k in m && n[k] == m[k]
    ensures m == n
  {
  }

  lemma ItemsTellMeaning(v: Json, w: Json, less: Less)
    requires WellFormed(v) && WellFormed(w) && v.Arr? && w.Arr? && SameParts(v, w, less, 0)
    ensures Meaning(v) == Meaning(w)
  {
    forall i | 0 <= i < |v.items| ensures SameMeaning(v.items[i], w.items[i]) {
      assert SamePart(v, w, less, i);
    }
    assert v.items == [Undefined] <==> w.items == [Undefined] by {
      assert forall a :: WellFormed(a) && Meaning(a) == Absent ==> a == Undefined;
    }
  }

  /** Every field of the one record is a field of the other. */
  lemma RecordsAgree(v: Json, w: Json, less: Less)
    requires WellFormed(v) && WellFormed(w) && v.Obj? && w.Obj?
    requires SameParts(v, w, less, 0) || SameParts(w, v, less, 0)
    ensures forall k :: k in Meaning(v).fields ==> k in Meaning(w).fields && Meaning(v).fields[k] == Meaning(w).fields[k]
  {
    forall k | k in Meaning(v).fields
      ensures k in Meaning(w).fields && Meaning(v).fields[k] == Meaning(w).fields[k]
    {
      var m := FieldFrom(v, k);
      FieldAgrees(v, w, less, m);
    }
  }

  lemma FieldAgrees(v: Json, w: Json, less: Less, m: Member)
    requires WellFormed(v) && WellFormed(w) && v.Obj? && w.Obj? && m in v.members
    requires SameParts(v, w, less, 0) || SameParts(w, v, less, 0)
    ensures m.key in Meaning(w).fields && Meaning(m.value) == Meaning(w).fields[m.key]
  {
    SortMembers(v.members, KeyOf(), less);
    var i :| 0 <= i < |Ordered(v, less)| && Ordered(v, less)[i] == m;
    assert |Parts(v, less)| == |Ordered(v, less)|;
    MemberPart(w, less, i);
    assert SamePart(v, w, less, i) || SamePart(w, v, less, i);
    FieldOf(w, Ordered(w, less)[i]);
  }

  // ---------------------------------------------------------------- one text per meaning

  /** Without ties, objects that mean the same list the same keys in the same order. */
  lemma SameKeyOrder(v: Json, w: Json, less: Less)
    requires StrictOrder(less) && Separates(less) && SameMeaning(v, w) && v.Obj? && w.Obj?
    ensures Keys(Ordered(v, less), KeyOf()) == Keys(Ordered(w, less), KeyOf())
  {
    SortSorts(v.members, KeyOf(), less);
    SortSorts(w.members, KeyOf(), less);
    forall k ensures k in Keys(Ordered(v, less), KeyOf()) <==> k in Keys(Ordered(w, less), KeyOf()) {
      OrderedKeys(v, less, k);
      OrderedKeys(w, less, k);
    }
    OneListing(Keys(Ordered(v, less), KeyOf()), Keys(Ordered(w, less), KeyOf()), less);
  }

  lemma OrderedKeys(v: Json, less: Less, k: Text)
    requires v.Obj? && WellFormed(v)
    ensures k in Keys(Ordered(v, less), KeyOf()) <==> k in Meaning(v).fields
  {
    SortMembers(v.members, KeyOf(), less);
    var ordered := Ordered(v, less);
    ListsKey(ordered, k);
    if m :| m in ordered && m.key == k {
      FieldOf(v, m);
    }
    if k in Meaning(v).fields {
      var m := FieldFrom(v, k);
      assert m in ordered;
    }
  }

  lemma ListsKey(members: seq<Member>, k: Text)
    ensures k in Keys(members, KeyOf()) <==> exists m :: m in members && m.key == k
  {
    if m :| m in members && m.key == k {
      var i :| 0 <= i < |members| && members[i] == m;
      assert Keys(members, KeyOf())[i] == k;
    }
  }

  /** What an array's meaning says of its items. */
  lemma ItemsOf(v: Json)
    requires v.Arr?
    ensures |Meaning(v).items| == if v.items == [Undefined] then 0 else |v.items|
    ensures v.items != [Undefined] ==> forall i :: 0 <= i < |v.items| ==> Meaning(v).items[i] == Meaning(v.items[i])
  {
  }

  /** Values that mean the same print the same, if no two keys tie. */
  lemma {:induction false} SameText(v: Json, w: Json, less: Less)
    requires StrictOrder(less) && Separates(less) && SameMeaning(v, w)
    ensures StableJson(v, less) == StableJson(w, less)
    decreases v, 1
  {
    if v.Arr? {
      ItemsOf(v);
      ItemsOf(w);
      if |v.items| == |w.items| {
        SameItems(v, w, less);
      }
    } else if v.Obj? {
      SameMembers(v, w, less);
    }
  }

  lemma {:induction false} SameItems(v: Json, w: Json, less: Less)
    requires StrictOrder(less) && Separates(less) && SameMeaning(v, w) && v.Arr? && |v.items| == |w.items|
    ensures Parts(v, less) == Parts(w, less)
    decreases v, 0
  {
    ItemsOf(v);
    ItemsOf(w);
    forall i | 0 <= i < |v.items| ensures Parts(v, less)[i] == Parts(w, less)[i] {
      if v.items == [Undefined] {
        assert w.items == [Undefined];
      } else {
        assert SameMeaning(v.items[i], w.items[i]);
      }
      SameText(v.items[i], w.items[i], less);
    }
  }

  lemma {:induction false} SameMembers(v: Json, w: Json, less: Less)
    requires StrictOrder(less) && Separates(less) && SameMeaning(v, w) && v.Obj?
    ensures Parts(v, less) == Parts(w, less)
    decreases v, 0
  {
    SameKeyOrder(v, w, less);
    forall i | 0 <= i < |Parts(v, less)| ensures i < |Parts(w, less)| && Parts(v, less)[i] == Parts(w, less)[i] {
      MemberPart(v, less, i);
      SameMemberAt(v, w, less, i);
      MemberPart(w, less, i);
      SameText(Ordered(v, less)[i].value, Ordered(w, less)[i].value, less);
    }
  }

  lemma SameMemberAt(v: Json, w: Json, less: Less, i: nat)
    requires SameMeaning(v, w) && v.Obj? && w.Obj? && i < |Ordered(v, less)|
    requires Keys(Ordered(v, less), KeyOf()) == Keys(Ordered(w, less), KeyOf())
    ensures i < |Ordered(w, less)| && Ordered(v, less)[i] in v.members
    ensures Ordered(v, less)[i].key == Ordered(w, less)[i].key
    ensures SameMeaning(Ordered(v, less)[i].value, Ordered(w, less)[i].value)
  {
    MemberPart(v, less, i);
    MemberPart(w, less, i);
    assert Keys(Ordered(v, less), KeyOf())[i] == Keys(Ordered(w, less), KeyOf())[i];
    FieldOf(v, Ordered(v, less)[i]);
    FieldOf(w, Ordered(w, less)[i]);
  }

  /** Two values print the same text exactly when they are equal up to the order of keys. */
  lemma StableExactly(v: Json, w: Json, less: Less)
    requires StrictOrder(less) && Separates(less) && WellFormed(v) && WellFormed(w)
    ensures StableJson(v, less) == StableJson(w, less) <==> Meaning(v) == Meaning(w)
  {
    if StableJson(v, less) == StableJson(w, less) {
      Readable(v, w, less, [], []);
    }
    if Meaning(v) == Meaning(w) {
      SameText(v, w, less);
    }
  }

  /** Two members, listed one way and the other. */
  function Pair(a: Text, b: Text): Json { Obj([Member(a, Null), Member(b, Null)]) }

  lemma TieShows(a: Text, b: Text, less: Less)
    requires a != b && !less(a, b) && !less(b, a)
    ensures SameMeaning(Pair(a, b), Pair(b, a)) && StableJson(Pair(a, b), less) != StableJson(Pair(b, a), less)
  {
    PairMeaning(a, b);
    PairMeaning(b, a);
    PairFirst(a, b, less);
    PairFirst(b, a, less);
    if StableJson(Pair(a, b), less) == StableJson(Pair(b, a), less) {
      SameFirstKey(Pair(a, b), Pair(b, a), less);
    }
  }

  lemma SameFirstKey(v: Json, w: Json, less: Less)
    requires WellFormed(v) && WellFormed(w) && v.Obj? && w.Obj? && Parts(v, less) != [] && Parts(w, less) != []
    requires StableJson(v, less) == StableJson(w, less)
    ensures Ordered(v, less) != [] && Ordered(w, less) != [] && Ordered(v, less)[0].key == Ordered(w, less)[0].key
  {
    ShownList(v, less, []);
    ShownList(w, less, []);
    ReadableParts(v, w, less, [], []);
    assert SamePart(v, w, less, 0);
  }

  lemma PairMeaning(a: Text, b: Text)
    requires a != b
    ensures WellFormed(Pair(a, b)) && Meaning(Pair(a, b)) == Record(map[a := NullValue, b := NullValue])
  {
  }

  lemma PairFirst(a: Text, b: Text, less: Less)
    requires !less(b, a)
    ensures |Parts(Pair(a, b), less)| == 2 && |Ordered(Pair(a, b), less)| == 2
    ensures Ordered(Pair(a, b), less)[0].key == a
  {
    assert Ordered(Pair(a, b), less) == [Member(a, Null), Member(b, Null)];
  }

  /**
   The printer gives one text per meaning exactly when its comparator lets no two keys tie: a tie leaves
   the keys in the order they were listed.
   */
  lemma CanonicalExactly(less: Less)
    requires StrictOrder(less)
    ensures (forall v, w :: SameMeaning(v, w) ==> StableJson(v, less) == StableJson(w, less)) <==> Separates(less)
  {
    if Separates(less) {
      forall v, w | SameMeaning(v, w) ensures StableJson(v, less) == StableJson(w, less) {
        SameText(v, w, less);
      }
    } else {
      var a, b :| a != b && !less(a, b) && !less(b, a);
      TieShows(a, b, less);
    }
  }

  // ---------------------------------------------------------------- nothing is lost in UTF-8

  lemma {:induction false} JoinIsPaired(parts: seq<Text>)
    requires forall i :: 0 <= i < |parts| ==> Paired(parts[i])
    ensures Paired(Join(parts))
  {
    if |parts| > 1 {
      JoinIsPaired(parts[1..]);
      PlainIsPaired([COMMA]);
      PairedAppend(parts[0], [COMMA]);
      PairedAppend(parts[0] + [COMMA], Join(parts[1..]));
    }
  }

  lemma BracketsArePaired(open: Unit, inner: Text, close: Unit)
    requires Paired(inner) && open < 0xD800 && close < 0xD800
    ensures Paired([open] + inner + [close])
  {
    PlainIsPaired([open]);
    PlainIsPaired([close]);
    PairedAppend([open], inner);
    PairedAppend([open] + inner, [close]);
  }

  lemma MemberIsPaired(key: Text, shown: Text)
    requires Paired(shown)
    ensures Paired(Quote(key) + [COLON] + shown)
  {
    QuoteIsPaired(key);
    PlainIsPaired([COLON]);
    PairedAppend(Quote(key), [COLON]);
    PairedAppend(Quote(key) + [COLON], shown);
  }

  /** Whatever strings a value holds, its text has no lone surrogate, so hashing its UTF-8 hashes all of it. */
  lemma {:induction false} TextIsPaired(v: Json, less: Less)
    ensures Paired(Shown(v, less))
    decreases v, 1
  {
    match v
    case Arr(_) =>
      PartsArePaired(v, less);
      JoinIsPaired(Parts(v, less));
      BracketsArePaired(OPEN_ARRAY, Join(Parts(v, less)), CLOSE_ARRAY);
    case Obj(_) =>
      PartsArePaired(v, less);
      JoinIsPaired(Parts(v, less));
      BracketsArePaired(OPEN_OBJECT, Join(Parts(v, less)), CLOSE_OBJECT);
    case Finite(number) => NumberIsPaired(number);
    case Str(s) => QuoteIsPaired(s);
    case _ => PlainIsPaired(Shown(v, less));
  }

  lemma {:induction false} PartsArePaired(v: Json, less: Less)
    requires v.Arr? || v.Obj?
    ensures forall i :: 0 <= i < |Parts(v, less)| ==> Paired(Parts(v, less)[i])
    decreases v, 0
  {
    forall i | 0 <= i < |Parts(v, less)| ensures Paired(Parts(v, less)[i]) {
      if v.Arr? {
        TextIsPaired(v.items[i], less);
      } else {
        MemberPart(v, less, i);
        TextIsPaired(Ordered(v, less)[i].value, less);
        MemberIsPaired(Ordered(v, less)[i].key, Shown(Ordered(v, less)[i].value, less));
      }
    }
  }
}

/**
 The worker's other printer, `canonicalJson`: JSON.stringify with the value's own top-level keys, sorted, as
 its property list (section 25.5.2 of ECMA-262). The list orders keys at every level, but it also drops every
 nested key that is not a top-level key.
 */
module CanonicalPrint {
  import opened Common
  import opened JsonText
  import opened KeyOrder
  import opened StablePrint

  // ---------------------------------------------------------------- the property list

  /** An array index as a property key. */
  function Decimal(n: nat): Text {
    var digit: Unit := 0x30 + (n % 10) as Unit;
    if n < 10 then [digit] else Decimal(n / 10) + [digit]
  }

  /** `Object.keys(value || {})`. */
  function TopKeys(v: Json): seq<Text> {
    match v
    case Obj(members) => Keys(members, KeyOf())
    case Arr(items) => seq(|items|, i requires 0 <= i < |items| => Decimal(i))
    case Str(s) => seq(|s|, i requires 0 <= i < |s| => Decimal(i))
    case _ => []
  }

  function Itself(): Text -> Text { (k: Text) => k }

  function PropertyList(v: Json): seq<Text> {
    Sort(TopKeys(v), Itself(), ByUnits())
  }

  // ---------------------------------------------------------------- printing

  /** `JSON.stringify` with a property list: an undefined item prints as null, an undefined member not at all. */
  function Listed(v: Json, keys: seq<Text>): Option<Text>
    decreases v, 1, 0
  {
    match v
    case Arr(_) => Some([OPEN_ARRAY] + Join(ListedItems(v, keys)) + [CLOSE_ARRAY])
    case Obj(_) => Some([OPEN_OBJECT] + Join(ListedMembers(v, keys, keys)) + [CLOSE_OBJECT])
    case _ => Scalar(v)
  }

  function ListedItems(v: Json, keys: seq<Text>): seq<Text>
    requires v.Arr?
    decreases v, 0, 0
  {
    seq(|v.items|, i requires 0 <= i < |v.items| =>
      match Listed(v.items[i], keys)
      case None => NULL
      case Some(text) => text)
  }

  /** One member, if the object has it and it prints at all. */
  function ListedMember(v: Json, k: Text, keys: seq<Text>): seq<Text>
    requires v.Obj?
    decreases v, 0, 0
  {
    match Find(v.members, k)
    case None => []
    case Some(child) =>
      assert Member(k, child) in v.members;
      match Listed(child, keys)
      case None => []
      case Some(text) => [Quote(k) + [COLON] + text]
  }

  /** The members named by `rest`, in that order. */
  function ListedMembers(v: Json, rest: seq<Text>, keys: seq<Text>): seq<Text>
    requires v.Obj?
    decreases v, 0, 1 + |rest|
  {
    if rest == [] then [] else ListedMember(v, rest[0], keys) + ListedMembers(v, rest[1..], keys)
  }

  function CanonicalJson(v: Json): Option<Text> {
    Listed(v, PropertyList(v))
  }

  // ---------------------------------------------------------------- what is left of a value

  /** The value without its nested undefined members and the keys that are not listed. */
  function Pruned(v: Json, keys: seq<Text>): Json {
    match v
    case Arr(items) =>
      Arr(seq(|items|, i requires 0 <= i < |items| =>
        if items[i].Undefined? then Null else Pruned(items[i], keys)))
    case Obj(members) => Obj(PrunedMembers(members, keys))
    case _ => v
  }

  function PrunedMembers(members: seq<Member>, keys: seq<Text>): seq<Member> {
    if members == [] then []
    else
      var m, rest := members[0], PrunedMembers(members[1..], keys);
      if m.key in keys && !m.value.Undefined? then [Member(m.key, Pruned(m.value, keys))] + rest else rest
  }

  predicate Stays(m: Member, keys: seq<Text>) {
    m.key in keys && !m.value.Undefined?
  }

  lemma {:induction false} MemberStays(members: seq<Member>, keys: seq<Text>, m: Member)
    requires m in members && Stays(m, keys)
    ensures Member(m.key, Pruned(m.value, keys)) in PrunedMembers(members, keys)
  {
    if m != members[0] {
      MemberStays(members[1..], keys, m);
    }
  }

  lemma {:induction false} StayedFrom(members: seq<Member>, keys: seq<Text>, p: Member) returns (m: Member)
    requires p in PrunedMembers(members, keys)
    ensures m in members && Stays(m, keys) && p == Member(m.key, Pruned(m.value, keys))
  {
    if Stays(members[0], keys) && p == Member(members[0].key, Pruned(members[0].value, keys)) {
      m := members[0];
    } else {
      m := StayedFrom(members[1..], keys, p);
    }
  }

  lemma {:induction false} PrunedDistinct(members: seq<Member>, keys: seq<Text>)
    requires DistinctBy(members, KeyOf())
    ensures DistinctBy(PrunedMembers(members, keys), KeyOf())
  {
    if members != [] {
      PrunedDistinct(members[1..], keys);
      var rest := PrunedMembers(members[1..], keys);
      forall i | 0 <= i < |rest| ensures rest[i].key != members[0].key {
        var m := StayedFrom(members[1..], keys, rest[i]);
        var j :| 0 <= j < |members[1..]| && members[1..][j] == m;
        assert KeyOf()(members[0]) != KeyOf()(members[j + 1]);
      }
    }
  }

  lemma {:induction false} PrunedWellFormed(v: Json, keys: seq<Text>)
    requires WellFormed(v)
    ensures WellFormed(Pruned(v, keys))
  {
    if v.Arr? {
      forall i | 0 <= i < |v.items| ensures WellFormed(Pruned(v, keys).items[i]) {
        PrunedWellFormed(v.items[i], keys);
      }
    } else if v.Obj? {
      PrunedDistinct(v.members, keys);
      forall p | p in PrunedMembers(v.members, keys) ensures WellFormed(p.value) {
        var m := StayedFrom(v.members, keys, p);
        PrunedWellFormed(m.value, keys);
      }
    }
  }

  // ---------------------------------------------------------------- the property list is a sorted set

  lemma {:induction false} DecimalDigits(n: nat)
    ensures Decimal(n) != [] && Decimal(n)[|Decimal(n)| - 1] == 0x30 + (n % 10) as Unit
    ensures |Decimal(n)| == 1 <==> n < 10
  {
    if n >= 10 {
      DecimalDigits(n / 10);
    }
  }

  lemma {:induction false} DecimalInjective(m: nat, n: nat)
    requires Decimal(m) == Decimal(n)
    ensures m == n
  {
    DecimalDigits(m);
    DecimalDigits(n);
    assert m % 10 == n % 10;
    if m >= 10 {
      var last := |Decimal(m)| - 1;
      assert Decimal(m / 10) == Decimal(m)[..last] == Decimal(n)[..last] == Decimal(n / 10);
      DecimalInjective(m / 10, n / 10);
    }
  }

  lemma TopKeysDistinct(v: Json)
    requires WellFormed(v)
    ensures DistinctBy(TopKeys(v), Itself())
  {
    forall i, j | 0 <= i < j < |TopKeys(v)| ensures Itself()(TopKeys(v)[i]) != Itself()(TopKeys(v)[j]) {
      if v.Obj? {
        assert KeyOf()(v.members[i]) != KeyOf()(v.members[j]);
      } else if Decimal(i) == Decimal(j) {
        DecimalInjective(i, j);
      }
    }
  }

  lemma PropertyListAscends(v: Json)
    requires WellFormed(v)
    ensures Ascending(PropertyList(v), ByUnits())
  {
    ByUnitsIsTotal();
    TopKeysDistinct(v);
    SortSorts(TopKeys(v), Itself(), ByUnits());
    var keys := PropertyList(v);
    forall i, j | 0 <= i < j < |keys| ensures ByUnits()(keys[i], keys[j]) {
      assert ByUnits()(Itself()(keys[i]), Itself()(keys[j]));
    }
  }

  // ---------------------------------------------------------------- printing with a list is pruning first

  predicate Kept(v: Json, key: Text)
    requires v.Obj?
  {
    Find(v.members, key).Some? && !Find(v.members, key).value.Undefined?
  }

  function KeptKeys(v: Json, rest: seq<Text>): seq<Text>
    requires v.Obj?
  {
    if rest == [] then []
    else (if Kept(v, rest[0]) then [rest[0]] else []) + KeptKeys(v, rest[1..])
  }

  lemma {:induction false} KeptExactly(v: Json, rest: seq<Text>, k: Text)
    requires v.Obj?
    ensures k in KeptKeys(v, rest) <==> k in rest && Kept(v, k)
  {
    if rest != [] {
      KeptExactly(v, rest[1..], k);
      assert rest == [rest[0]] + rest[1..];
    }
  }

  lemma {:induction false} KeptAscends(v: Json, rest: seq<Text>, less: Less)
    requires v.Obj? && Ascending(rest, less)
    ensures Ascending(KeptKeys(v, rest), less)
  {
    if rest != [] {
      KeptAscends(v, rest[1..], less);
      forall k | k in KeptKeys(v, rest[1..]) ensures less(rest[0], k) {
        KeptExactly(v, rest[1..], k);
      }
    }
  }

  ghost function ListedText(v: Json, k: Text, keys: seq<Text>): Text
    requires v.Obj? && Find(v.members, k).Some?
  {
    Quote(k) + [COLON] + Interpolated(Listed(Find(v.members, k).value, keys))
  }

  /** The parts printed are the texts of the kept keys, one for one. */
  ghost predicate ListsKept(v: Json, kept: seq<Text>, parts: seq<Text>, keys: seq<Text>)
    requires v.Obj?
  {
    |parts| == |kept| && forall i :: 0 <= i < |kept| ==> Kept(v, kept[i]) && parts[i] == ListedText(v, kept[i], keys)
  }

  lemma ListsOneMore(v: Json, k: Text, kept: seq<Text>, parts: seq<Text>, keys: seq<Text>)
    requires v.Obj? && Kept(v, k) && ListsKept(v, kept, parts, keys)
    ensures ListsKept(v, [k] + kept, [ListedText(v, k, keys)] + parts, keys)
  {
  }

  lemma {:induction false} ListedMembersAre(v: Json, rest: seq<Text>, keys: seq<Text>)
    requires v.Obj?
    ensures ListsKept(v, KeptKeys(v, rest), ListedMembers(v, rest, keys), keys)
  {
    if rest != [] {
      ListedMembersAre(v, rest[1..], keys);
      var kept, parts := KeptKeys(v, rest[1..]), ListedMembers(v, rest[1..], keys);
      if Kept(v, rest[0]) {
        ListsOneMore(v, rest[0], kept, parts, keys);
        assert ListedMembers(v, rest, keys) == [ListedText(v, rest[0], keys)] + parts;
        assert KeptKeys(v, rest) == [rest[0]] + kept;
      }
    }
  }

  /** The pruned object prints exactly the kept keys, in the order of the list. */
  lemma PrunedKeys(v: Json, keys: seq<Text>)
    requires v.Obj? && WellFormed(v) && Ascending(keys, ByUnits())
    ensures Keys(Ordered(Pruned(v, keys), ByUnits()), KeyOf()) == KeptKeys(v, keys)
  {
    ByUnitsIsTotal();
    PrunedDistinct(v.members, keys);
    SortSorts(PrunedMembers(v.members, keys), KeyOf(), ByUnits());
    KeptAscends(v, keys, ByUnits());
    var ordered := Ordered(Pruned(v, keys), ByUnits());
    var listed := Keys(ordered, KeyOf());
    forall i, j | 0 <= i < j < |listed| ensures ByUnits()(listed[i], listed[j]) {
      assert ByUnits()(KeyOf()(ordered[i]), KeyOf()(ordered[j]));
    }
    forall k ensures k in listed <==> k in KeptKeys(v, keys) {
      PrunedKey(v, keys, k);
    }
    OneListing(listed, KeptKeys(v, keys), ByUnits());
  }

  lemma PrunedKey(v: Json, keys: seq<Text>, k: Text)
    requires v.Obj? && WellFormed(v)
    ensures k in Keys(Ordered(Pruned(v, keys), ByUnits()), KeyOf()) <==> k in KeptKeys(v, keys)
  {
    var ordered := Ordered(Pruned(v, keys), ByUnits());
    SortMembers(PrunedMembers(v.members, keys), KeyOf(), ByUnits());
    ListsKey(ordered, k);
    KeptExactly(v, keys, k);
    if p :| p in ordered && p.key == k {
      var m := StayedFrom(v.members, keys, p);
      PrunedFrom(v, keys, p);
    }
    if k in keys && Kept(v, k) {
      MemberStays(v.members, keys, Member(k, Find(v.members, k).value));
      assert Member(k, Pruned(Find(v.members, k).value, keys)) in ordered;
    }
  }

  lemma PrunedFrom(v: Json, keys: seq<Text>, p: Member)
    requires v.Obj? && WellFormed(v) && p in PrunedMembers(v.members, keys)
    ensures Kept(v, p.key) && p.value == Pruned(Find(v.members, p.key).value, keys)
  {
    var m := StayedFrom(v.members, keys, p);
    DistinctMembers(v.members, m, Member(p.key, Find(v.members, p.key).value));
  }

  /** Printing with a list is pruning by it and then printing stably, in the default key order. */
  lemma {:induction false} ListedIsStable(v: Json, keys: seq<Text>)
    requires WellFormed(v) && Ascending(keys, ByUnits())
    ensures Listed(v, keys) == StableJson(Pruned(v, keys), ByUnits())
    decreases v, 1
  {
    if v.Arr? {
      forall i | 0 <= i < |v.items| ensures ListedItems(v, keys)[i] == Parts(Pruned(v, keys), ByUnits())[i] {
        ListedIsStable(v.items[i], keys);
      }
      assert ListedItems(v, keys) == Parts(Pruned(v, keys), ByUnits());
    } else if v.Obj? {
      ListedMembersAreStable(v, keys);
    }
  }

  lemma {:induction false} ListedMembersAreStable(v: Json, keys: seq<Text>)
    requires v.Obj? && WellFormed(v) && Ascending(keys, ByUnits())
    ensures ListedMembers(v, keys, keys) == Parts(Pruned(v, keys), ByUnits())
    decreases v, 0
  {
    var pruned := Pruned(v, keys);
    PrunedKeys(v, keys);
    ListedMembersAre(v, keys, keys);
    forall i | 0 <= i < |KeptKeys(v, keys)|
      ensures i < |Parts(pruned, ByUnits())| && ListedMembers(v, keys, keys)[i] == Parts(pruned, ByUnits())[i]
    {
      MemberPart(pruned, ByUnits(), i);
      var k := Ordered(pruned, ByUnits())[i].key;
      PrunedFrom(v, keys, Ordered(pruned, ByUnits())[i]);
      assert k == Keys(Ordered(pruned, ByUnits()), KeyOf())[i] == KeptKeys(v, keys)[i];
      assert Member(k, Find(v.members, k).value) in v.members;
      ListedIsStable(Find(v.members, k).value, keys);
    }
  }

  /** `canonicalJson` is the stable print of what is left under the value's own top-level keys. */
  lemma CanonicalIsPrunedStable(v: Json)
    requires WellFormed(v)
    ensures CanonicalJson(v) == StableJson(Pruned(v, PropertyList(v)), ByUnits())
  {
    PropertyListAscends(v);
    ListedIsStable(v, PropertyList(v));
  }

  // ---------------------------------------------------------------- when the two printers agree

  /** Nothing nested is undefined, and every nested key is listed. */
  ghost predicate Intact(v: Json, keys: seq<Text>) {
    match v
    case Arr(items) => forall i :: 0 <= i < |items| ==> !items[i].Undefined? && Intact(items[i], keys)
    case Obj(members) => forall m :: m in members ==> Stays(m, keys) && Intact(m.value, keys)
    case _ => true
  }

  lemma {:induction false} IntactStays(v: Json, keys: seq<Text>)
    requires Intact(v, keys)
    ensures Pruned(v, keys) == v
    decreases v
  {
    if v.Arr? {
      forall i | 0 <= i < |v.items| ensures Pruned(v, keys).items[i] == v.items[i] {
        IntactStays(v.items[i], keys);
      }
      assert Pruned(v, keys).items == v.items;
    } else if v.Obj? {
      IntactMembersStay(v.members, keys);
    }
  }

  lemma {:induction false} IntactMembersStay(members: seq<Member>, keys: seq<Text>)
    requires forall m :: m in members ==> Stays(m, keys) && Intact(m.value, keys)
    ensures PrunedMembers(members, keys) == members
    decreases members
  {
    if members != [] {
      assert members[0] in members;
      IntactStays(members[0].value, keys);
      IntactMembersStay(members[1..], keys);
    }
  }

  /** Pruning keeps the meaning only of a value it leaves alone. */
  lemma {:induction false} MeaningTellsIntact(v: Json, keys: seq<Text>)
    requires WellFormed(v) && Meaning(Pruned(v, keys)) == Meaning(v)
    ensures Intact(v, keys)
  {
    if v.Arr? {
      assert Pruned(v, keys).items != [Undefined] by {
        if |v.items| == 1 {
          assert Pruned(v, keys).items[0] != Undefined;
        }
      }
      assert v.items != [Undefined];
      forall i | 0 <= i < |v.items| ensures !v.items[i].Undefined? && Intact(v.items[i], keys) {
        assert Meaning(Pruned(v, keys)).items[i] == Meaning(v).items[i];
        MeaningTellsIntact(v.items[i], keys);
      }
    } else if v.Obj? {
      PrunedWellFormed(v, keys);
      forall m | m in v.members ensures Stays(m, keys) && Intact(m.value, keys) {
        FieldOf(v, m);
        var p := FieldFrom(Pruned(v, keys), m.key);
        var n := StayedFrom(v.members, keys, p);
        DistinctMembers(v.members, m, n);
        MeaningTellsIntact(m.value, keys);
      }
    }
  }

  /** Two values have the same canonical text exactly when the same is left of them. */
  lemma CanonicalCollidesExactly(v: Json, w: Json)
    requires WellFormed(v) && WellFormed(w)
    ensures CanonicalJson(v) == CanonicalJson(w) <==>
            Meaning(Pruned(v, PropertyList(v))) == Meaning(Pruned(w, PropertyList(w)))
  {
    ByUnitsIsTotal();
    CanonicalIsPrunedStable(v);
    CanonicalIsPrunedStable(w);
    PrunedWellFormed(v, PropertyList(v));
    PrunedWellFormed(w, PropertyList(w));
    StableExactly(Pruned(v, PropertyList(v)), Pruned(w, PropertyList(w)), ByUnits());
  }

  /** The two printers agree, in the default key order, exactly on the values that nothing is pruned from. */
  lemma PrintersAgreeExactly(v: Json)
    requires WellFormed(v)
    ensures CanonicalJson(v) == StableJson(v, ByUnits()) <==> Intact(v, PropertyList(v))
  {
    ByUnitsIsTotal();
    CanonicalIsPrunedStable(v);
    PrunedWellFormed(v, PropertyList(v));
    StableExactly(Pruned(v, PropertyList(v)), v, ByUnits());
    if Intact(v, PropertyList(v)) {
      IntactStays(v, PropertyList(v));
    } else if CanonicalJson(v) == StableJson(v, ByUnits()) {
      MeaningTellsIntact(v, PropertyList(v));
    }
  }

  // ---------------------------------------------------------------- top-level fields are never forgotten

  /** What a decimal numeral without leading zeros denotes. */
  ghost function Denotes(numeral: Text): int {
    if numeral == [] then 0
    else Denotes(numeral[..|numeral| - 1]) * 10 + (numeral[|numeral| - 1] as int - '0' as int)
  }

  ghost predicate IsNumeral(numeral: Text) {
    && numeral != [] && (forall u :: u in numeral ==> '0' as int <= u as int <= '9' as int)
    && (numeral[0] as int == '0' as int ==> |numeral| == 1)
  }

  lemma {:induction false} DecimalDenotes(n: nat)
    ensures IsNumeral(Decimal(n)) && Denotes(Decimal(n)) == n
    ensures n > 0 ==> Decimal(n)[0] as int != '0' as int
  {
    if n >= 10 {
      DecimalDenotes(n / 10);
      var last := Decimal(n)[|Decimal(n)| - 1];
      assert Decimal(n) == Decimal(n / 10) + [last];
    }
  }

  lemma ListsIndex(keys: seq<Text>, n: nat, k: Text)
    requires |keys| == n && forall i: nat :: i < n ==> keys[i] == Decimal(i)
    ensures k in keys <==> exists i: nat :: i < n && k == Decimal(i)
  {
    if k in keys {
      var i: nat :| i < n && keys[i] == k;
      assert k == Decimal(i);
    }
    if i: nat :| i < n && k == Decimal(i) {
      assert keys[i] in keys;
    }
  }

  /** The property list of an object is its keys, and of an array or a string its indices. */
  lemma PropertyListExactly(v: Json, k: Text)
    ensures v.Obj? ==> (k in PropertyList(v) <==> exists m :: m in v.members && m.key == k)
    ensures v.Arr? || v.Str? ==>
              (k in PropertyList(v) <==> exists i: nat :: i < (if v.Arr? then |v.items| else |v.s|) && k == Decimal(i))
    ensures !v.Obj? && !v.Arr? && !v.Str? ==> PropertyList(v) == []
  {
    SortMembers(TopKeys(v), Itself(), ByUnits());
    if v.Obj? {
      ListsKey(v.members, k);
    } else if v.Arr? || v.Str? {
      ListsIndex(TopKeys(v), if v.Arr? then |v.items| else |v.s|, k);
    }
  }

  /** `n` has the same key, and the same is left of its value. */
  ghost predicate Matches(v: Json, m: Member, w: Json, n: Member) {
    && n.key == m.key && !n.value.Undefined?
    && Meaning(Pruned(m.value, PropertyList(v))) == Meaning(Pruned(n.value, PropertyList(w)))
  }

  /**
   No top-level field is forgotten: if two objects have one canonical text, each defined member of the one is
   matched by a member of the other.
   */
  lemma TopFieldKept(v: Json, w: Json, m: Member) returns (n: Member)
    requires WellFormed(v) && WellFormed(w) && v.Obj? && w.Obj? && CanonicalJson(v) == CanonicalJson(w)
    requires m in v.members && !m.value.Undefined?
    ensures n in w.members && Matches(v, m, w, n)
  {
    var pv, pw := Pruned(v, PropertyList(v)), Pruned(w, PropertyList(w));
    CanonicalCollidesExactly(v, w);
    PrunedWellFormed(v, PropertyList(v));
    PropertyListExactly(v, m.key);
    MemberStays(v.members, PropertyList(v), m);
    FieldOf(pv, Member(m.key, Pruned(m.value, PropertyList(v))));
    var p := FieldFrom(pw, m.key);
    n := StayedFrom(w.members, PropertyList(w), p);
  }

  predicate IsScalar(v: Json) { !v.Arr? && !v.Obj? && !v.Undefined? }

  /** So two objects that differ in a top-level scalar never have one canonical text. */
  lemma TopScalarsTell(v: Json, w: Json, m: Member) returns (n: Member)
    requires WellFormed(v) && WellFormed(w) && v.Obj? && w.Obj? && CanonicalJson(v) == CanonicalJson(w)
    requires m in v.members && IsScalar(m.value)
    ensures n in w.members && n.key == m.key && IsScalar(n.value) && Meaning(n.value) == Meaning(m.value)
  {
    n := TopFieldKept(v, w, m);
  }

  /** One object inside another. */
  function Nested(outer: Text, inner: Text, x: Json): Json {
    Obj([Member(outer, Obj([Member(inner, x)]))])
  }

  /** A nested field that no top-level key names can change without changing the canonical text. */
  lemma NestedFieldForgotten(outer: Text, inner: Text, x: Json, y: Json)
    requires outer != inner && WellFormed(x) && WellFormed(y)
    ensures CanonicalJson(Nested(outer, inner, x)) == CanonicalJson(Nested(outer, inner, y))
  {
    NestedPruned(outer, inner, x);
    NestedPruned(outer, inner, y);
    CanonicalCollidesExactly(Nested(outer, inner, x), Nested(outer, inner, y));
  }

  lemma NestedPruned(outer: Text, inner: Text, x: Json)
    requires outer != inner && WellFormed(x)
    ensures WellFormed(Nested(outer, inner, x))
    ensures Pruned(Nested(outer, inner, x), PropertyList(Nested(outer, inner, x))) == Obj([Member(outer, Obj([]))])
  {
    var v := Nested(outer, inner, x);
    assert TopKeys(v) == [outer];
    assert PropertyList(v) == [outer];
    PrunedOne(inner, x, [outer]);
    PrunedOne(outer, Obj([Member(inner, x)]), [outer]);
  }

  lemma PrunedOne(key: Text, value: Json, keys: seq<Text>)
    ensures Pruned(Obj([Member(key, value)]), keys) ==
            Obj(if key in keys && !value.Undefined? then [Member(key, Pruned(value, keys))] else [])
  {
    var none: seq<Member> := [];
    assert [Member(key, value)][1..] == none;
    assert PrunedMembers(none, keys) == [];
  }
}

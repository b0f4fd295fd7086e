/**
 The worker's check for keys that would carry secrets or orders in plain text, over a whole request body.
 */
module LeakKeys {
  import opened Common
  import opened JsonText
  import opened KeyOrder
  import opened StablePrint

  /** `containsPlaintextLeakKey`, for a set of listed keys. */
  predicate ContainsLeakKey(v: Json, listed: set<Text>) {
    match v
    case Arr(items) => exists i :: 0 <= i < |items| && ContainsLeakKey(items[i], listed)
    case Obj(members) => exists m :: m in members && (m.key in listed || ContainsLeakKey(m.value, listed))
    case _ => false
  }

  datatype Hop = Item(index: nat) | Field(key: Text)

  /** What stands at the end of a path into a value. */
  function At(v: Json, path: seq<Hop>): Option<Json> {
    if path == [] then Some(v)
    else
      match (v, path[0])
      case (Arr(items), Item(i)) => if i < |items| then At(items[i], path[1..]) else None
      case (Obj(members), Field(k)) =>
        (match Find(members, k)
         case Some(child) => At(child, path[1..])
         case None => None)
      case _ => None
  }

  /** The path exists in the value and its last hop takes a listed key. */
  ghost predicate LeakPath(v: Json, path: seq<Hop>, listed: set<Text>) {
    && At(v, path).Some? && path != []
    && path[|path| - 1].Field? && path[|path| - 1].key in listed
  }

  lemma {:induction false} LeakHasPath(v: Json, listed: set<Text>) returns (path: seq<Hop>)
    requires WellFormed(v) && ContainsLeakKey(v, listed)
    ensures LeakPath(v, path, listed)
  {
    if v.Arr? {
      var i :| 0 <= i < |v.items| && ContainsLeakKey(v.items[i], listed);
      var rest := LeakHasPath(v.items[i], listed);
      path := [Item(i)] + rest;
      assert path[1..] == rest;
    } else {
      var m :| m in v.members && (m.key in listed || ContainsLeakKey(m.value, listed));
      DistinctMembers(v.members, m, Member(m.key, Find(v.members, m.key).value));
      if m.key in listed {
        path := [Field(m.key)];
      } else {
        var rest := LeakHasPath(m.value, listed);
        path := [Field(m.key)] + rest;
        assert path[1..] == rest;
      }
    }
  }

  lemma {:induction false} PathLeaks(v: Json, path: seq<Hop>, listed: set<Text>)
    requires LeakPath(v, path, listed)
    ensures ContainsLeakKey(v, listed)
    decreases |path|
  {
    match path[0]
    case Item(i) =>
      PathLeaks(v.items[i], path[1..], listed);
    case Field(k) =>
      assert Member(k, Find(v.members, k).value) in v.members;
      if |path| > 1 {
        PathLeaks(Find(v.members, k).value, path[1..], listed);
      }
  }

  /** The check says yes exactly when some path of items and keys reaches a listed key. */
  lemma LeaksExactly(v: Json, listed: set<Text>)
    requires WellFormed(v)
    ensures ContainsLeakKey(v, listed) <==> exists path :: LeakPath(v, path, listed)
  {
    if ContainsLeakKey(v, listed) {
      var path := LeakHasPath(v, listed);
    }
    if path :| LeakPath(v, path, listed) {
      PathLeaks(v, path, listed);
    }
  }

  // ---------------------------------------------------------------- the verdict depends on the meaning only

  ghost predicate Leaks(value: Value, listed: set<Text>) {
    match value
    case List(items) => exists i :: 0 <= i < |items| && Leaks(items[i], listed)
    case Record(fields) => exists k :: k in fields && (k in listed || Leaks(fields[k], listed))
    case _ => false
  }

  lemma {:induction false} LeaksByMeaning(v: Json, listed: set<Text>)
    requires WellFormed(v)
    ensures ContainsLeakKey(v, listed) <==> Leaks(Meaning(v), listed)
  {
    if v.Arr? {
      forall i | 0 <= i < |v.items| ensures ContainsLeakKey(v.items[i], listed) <==> Leaks(Meaning(v.items[i]), listed) {
        LeaksByMeaning(v.items[i], listed);
      }
      if v.items != [Undefined] {
        var values := Meaning(v).items;
        assert forall i :: 0 <= i < |values| ==> values[i] == Meaning(v.items[i]);
      }
    } else if v.Obj? {
      forall m | m in v.members ensures AgreesOn(m.value, listed) {
        LeaksByMeaning(m.value, listed);
      }
      MembersByMeaning(v, listed);
    }
  }

  ghost predicate AgreesOn(v: Json, listed: set<Text>) {
    ContainsLeakKey(v, listed) <==> Leaks(Meaning(v), listed)
  }

  lemma MembersByMeaning(v: Json, listed: set<Text>)
    requires WellFormed(v) && v.Obj? && forall m :: m in v.members ==> AgreesOn(m.value, listed)
    ensures AgreesOn(v, listed)
  {
    if m :| m in v.members && (m.key in listed || ContainsLeakKey(m.value, listed)) {
      MemberLeaks(v, m, listed);
    }
    var fields := Meaning(v).fields;
  }

  lemma MemberLeaks(v: Json, m: Member, listed: set<Text>)
    requires WellFormed(v) && v.Obj? && m in v.members && AgreesOn(m.value, listed)
    requires m.key in listed || ContainsLeakKey(m.value, listed)
    ensures Leaks(Meaning(v), listed)
  {
    FieldOf(v, m);
  }

  /** Values with the same stable text get the same verdict, whatever comparator printed them. */
  lemma SameTextSameVerdict(v: Json, w: Json, less: Less, listed: set<Text>)
    requires WellFormed(v) && WellFormed(w) && StableJson(v, less) == StableJson(w, less)
    ensures ContainsLeakKey(v, listed) <==> ContainsLeakKey(w, listed)
  {
    Readable(v, w, less, [], []);
    LeaksByMeaning(v, listed);
    LeaksByMeaning(w, listed);
  }
}

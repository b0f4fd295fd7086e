/** Orders on object keys, and a stable sort by key. */
module KeyOrder {
  import opened JsonText

  /** Whether a comparator puts the first key before the second. */
  type Less = (Text, Text) -> bool

  ghost predicate StrictOrder(less: Less) {
    && (forall a :: !less(a, a))
    && (forall a, b, c :: less(a, b) && less(b, c) ==> less(a, c))
  }

  /** No two keys tie. */
  ghost predicate Separates(less: Less) {
    forall a, b :: a != b ==> less(a, b) || less(b, a)
  }

  // ---------------------------------------------------------------- sorting

  function Insert<T>(sorted: seq<T>, x: T, key: T -> Text, less: Less): (r: seq<T>)
    ensures multiset(r) == multiset(sorted) + multiset{x}
  {
    var n := |sorted| - 1;
    if sorted == [] || !less(key(x), key(sorted[n])) then sorted + [x]
    else
      assert sorted == sorted[..n] + [sorted[n]];
      Insert(sorted[..n], x, key, less) + [sorted[n]]
  }

  /** `Array.prototype.sort`, which is stable. */
  function Sort<T>(xs: seq<T>, key: T -> Text, less: Less): (r: seq<T>)
    ensures multiset(r) == multiset(xs)
  {
    if xs == [] then []
    else
      assert xs == xs[..|xs| - 1] + [xs[|xs| - 1]];
      Insert(Sort(xs[..|xs| - 1], key, less), xs[|xs| - 1], key, less)
  }

  lemma SortMembers<T>(xs: seq<T>, key: T -> Text, less: Less)
    ensures |Sort(xs, key, less)| == |xs|
    ensures forall x :: x in Sort(xs, key, less) <==> x in xs
  {
    var sorted := Sort(xs, key, less);
    assert |multiset(sorted)| == |multiset(xs)|;
    forall x ensures x in sorted <==> x in xs {
      assert x in multiset(sorted) <==> x in multiset(xs);
    }
  }

  ghost predicate DistinctBy<T>(xs: seq<T>, key: T -> Text) {
    forall i, j :: 0 <= i < j < |xs| ==> key(xs[i]) != key(xs[j])
  }

  ghost predicate StrictlySorted<T>(xs: seq<T>, key: T -> Text, less: Less) {
    forall i, j :: 0 <= i < j < |xs| ==> less(key(xs[i]), key(xs[j]))
  }

  /** Whatever follows a sorted list's last key follows all its keys. */
  lemma AfterLast<T>(sorted: seq<T>, x: T, key: T -> Text, less: Less)
    requires StrictOrder(less) && StrictlySorted(sorted, key, less) && sorted != []
    requires less(key(sorted[|sorted| - 1]), key(x))
    ensures forall y :: y in sorted ==> less(key(y), key(x))
  {
    forall y | y in sorted ensures less(key(y), key(x)) {
      var i :| 0 <= i < |sorted| && sorted[i] == y;
      assert i < |sorted| - 1 ==> less(key(sorted[i]), key(sorted[|sorted| - 1]));
    }
  }

  lemma {:induction false} InsertSorts<T>(sorted: seq<T>, x: T, key: T -> Text, less: Less)
    requires StrictOrder(less) && Separates(less) && StrictlySorted(sorted, key, less)
    requires forall y :: y in sorted ==> key(y) != key(x)
    ensures StrictlySorted(Insert(sorted, x, key, less), key, less)
  {
    if sorted != [] {
      var n := |sorted| - 1;
      assert sorted[n] in sorted;
      if less(key(x), key(sorted[n])) {
        InsertSorts(sorted[..n], x, key, less);
        InsertedBefore(sorted, x, key, less);
      } else {
        AfterLast(sorted, x, key, less);
      }
    }
  }

  lemma InsertedBefore<T>(sorted: seq<T>, x: T, key: T -> Text, less: Less)
    requires StrictlySorted(sorted, key, less) && sorted != []
    requires less(key(x), key(sorted[|sorted| - 1]))
    ensures forall y :: y in Insert(sorted[..|sorted| - 1], x, key, less) ==> less(key(y), key(sorted[|sorted| - 1]))
  {
    var n := |sorted| - 1;
    var rest := Insert(sorted[..n], x, key, less);
    forall y | y in rest ensures less(key(y), key(sorted[n])) {
      assert y in multiset(rest);
      if y != x {
        assert y in multiset(sorted[..n]);
        var i :| 0 <= i < n && sorted[i] == y;
      }
    }
  }

  lemma {:induction false} SortSorts<T>(xs: seq<T>, key: T -> Text, less: Less)
    requires StrictOrder(less) && Separates(less) && DistinctBy(xs, key)
    ensures StrictlySorted(Sort(xs, key, less), key, less)
  {
    if xs != [] {
      var n := |xs| - 1;
      SortSorts(xs[..n], key, less);
      var rest := Sort(xs[..n], key, less);
      forall y | y in rest ensures key(y) != key(xs[n]) {
        assert y in multiset(rest) && y in multiset(xs[..n]);
      }
      InsertSorts(rest, xs[n], key, less);
    }
  }

  function Keys<T>(xs: seq<T>, key: T -> Text): (keys: seq<Text>)
    ensures |keys| == |xs|
  {
    seq(|xs|, i requires 0 <= i < |xs| => key(xs[i]))
  }

  ghost predicate Ascending(keys: seq<Text>, less: Less) {
    forall i, j :: 0 <= i < j < |keys| ==> less(keys[i], keys[j])
  }

  lemma HasKey(keys: seq<Text>)
    requires keys != []
    ensures exists k :: k in keys
  {
    assert keys[0] in keys;
  }

  /** A set of keys has only one listing in ascending order. */
  lemma {:induction false} OneListing(a: seq<Text>, b: seq<Text>, less: Less)
    requires StrictOrder(less) && Ascending(a, less) && Ascending(b, less)
    requires forall k :: k in a <==> k in b
    ensures a == b
  {
    if a == [] {
      if b != [] {
        HasKey(b);
      }
    } else {
      var m, n := |a| - 1, |b| - 1;
      assert a[m] in b && b[n] in a;
      assert a[m] == b[n];
      forall k ensures k in a[..m] <==> k in b[..n] {
        assert k in a <==> k in a[..m] || k == a[m];
        assert k in b <==> k in b[..n] || k == b[n];
      }
      OneListing(a[..m], b[..n], less);
    }
  }

  // ---------------------------------------------------------------- the default order

  /** How JavaScript compares strings: unit by unit, a prefix first. */
  predicate UnitLess(a: Text, b: Text) {
    b != [] && (a == [] || a[0] < b[0] || (a[0] == b[0] && UnitLess(a[1..], b[1..])))
  }

  function ByUnits(): Less { (a: Text, b: Text) => UnitLess(a, b) }

  /** The first `i` units agree, and there the first string ends or has the smaller unit. */
  ghost predicate LessFrom(a: Text, b: Text, i: nat) {
    && i <= |a| && i < |b| && a[..i] == b[..i]
    && (i < |a| ==> a[i] < b[i])
  }

  lemma {:induction false} UnitLessExactly(a: Text, b: Text)
    ensures UnitLess(a, b) <==> exists i: nat :: LessFrom(a, b, i)
  {
    if b != [] && (a == [] || a[0] < b[0]) {
      assert LessFrom(a, b, 0);
    } else if a != [] && b != [] {
      UnitLessExactly(a[1..], b[1..]);
      if i: nat :| LessFrom(a[1..], b[1..], i) && a[0] == b[0] {
        assert a[..i + 1] == [a[0]] + a[1..][..i] && b[..i + 1] == [b[0]] + b[1..][..i];
        assert LessFrom(a, b, i + 1);
      }
      if i: nat :| LessFrom(a, b, i) {
        if i > 0 {
          assert a[..i][0] == b[..i][0] && a[1..][..i - 1] == a[..i][1..] && b[1..][..i - 1] == b[..i][1..];
          assert LessFrom(a[1..], b[1..], i - 1);
        }
      }
    }
  }

  lemma {:induction false} UnitLessTransitive(a: Text, b: Text, c: Text)
    requires UnitLess(a, b) && UnitLess(b, c)
    ensures UnitLess(a, c)
  {
    if a != [] && a[0] == b[0] == c[0] {
      UnitLessTransitive(a[1..], b[1..], c[1..]);
    }
  }

  lemma {:induction false} UnitLessTotal(a: Text, b: Text)
    ensures a == b ==> !UnitLess(a, b)
    ensures a != b ==> UnitLess(a, b) || UnitLess(b, a)
  {
    if a != [] && b != [] && a[0] == b[0] {
      UnitLessTotal(a[1..], b[1..]);
      assert a == [a[0]] + a[1..] && b == [b[0]] + b[1..];
    }
  }

  lemma ByUnitsIsTotal()
    ensures StrictOrder(ByUnits()) && Separates(ByUnits())
  {
    forall a ensures !ByUnits()(a, a) {
      UnitLessTotal(a, a);
    }
    forall a, b | a != b ensures ByUnits()(a, b) || ByUnits()(b, a) {
      UnitLessTotal(a, b);
    }
    forall a, b, c | ByUnits()(a, b) && ByUnits()(b, c) ensures ByUnits()(a, c) {
      UnitLessTransitive(a, b, c);
    }
  }
}

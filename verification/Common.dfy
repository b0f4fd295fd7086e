/** Shared vocabulary: optional values, results, and weighted sums over sequences. */
module Common {

  datatype Option<+T> = None | Some(value: T)

  datatype Result<+R, +E> = Success(value: R) | Failure(error: E)

  /** `Instant::elapsed` and `Instant::duration_since` never go below zero. */
  function Elapsed(since: int, now: int): int {
    if now < since then 0 else now - since
  }

  function Concat<T>(parts: seq<seq<T>>): seq<T> {
    if parts == [] then [] else parts[0] + Concat(parts[1..])
  }

  lemma Regroup<T>(a: seq<T>, b: seq<T>, c: seq<T>)
    ensures (a + b) + c == a + (b + c)
  {
  }

  /** The total weight of a sequence. */
  ghost function Sum<T>(xs: seq<T>, weight: T -> int): int {
    if xs == [] then 0 else Sum(xs[..|xs| - 1], weight) + weight(xs[|xs| - 1])
  }

  lemma SumAppend<T>(xs: seq<T>, x: T, weight: T -> int)
    ensures Sum(xs + [x], weight) == Sum(xs, weight) + weight(x)
  {
    assert (xs + [x])[..|xs|] == xs;
  }

  lemma {:induction false} SumUpdate<T>(xs: seq<T>, i: nat, x: T, weight: T -> int)
    requires i < |xs|
    ensures Sum(xs[i := x], weight) == Sum(xs, weight) - weight(xs[i]) + weight(x)
  {
    var n := |xs| - 1;
    if i == n {
      assert xs[i := x][..n] == xs[..n];
    } else {
      assert xs[i := x][..n] == xs[..n][i := x];
      SumUpdate(xs[..n], i, x, weight);
    }
  }

  lemma {:induction false} SumMonotone<T>(xs: seq<T>, lower: T -> int, upper: T -> int)
    requires forall x :: x in xs ==> lower(x) <= upper(x)
    ensures Sum(xs, lower) <= Sum(xs, upper)
  {
    if xs != [] {
      SumMonotone(xs[..|xs| - 1], lower, upper);
    }
  }

  lemma {:induction false} SumSplit<T>(xs: seq<T>, whole: T -> int, left: T -> int, right: T -> int)
    requires forall x :: x in xs ==> whole(x) == left(x) + right(x)
    ensures Sum(xs, whole) == Sum(xs, left) + Sum(xs, right)
  {
    if xs != [] {
      SumSplit(xs[..|xs| - 1], whole, left, right);
    }
  }

  /** `weight` counts members: each weighs zero or one. */
  ghost predicate Counts<T(!new)>(weight: T -> int) {
    forall x :: 0 <= weight(x) <= 1
  }

  lemma {:induction false} CountFinds<T(!new)>(xs: seq<T>, weight: T -> int) returns (i: nat)
    requires Counts(weight) && Sum(xs, weight) >= 1
    ensures i < |xs| && weight(xs[i]) == 1
  {
    var n := |xs| - 1;
    if weight(xs[n]) == 1 {
      i := n;
    } else {
      i := CountFinds(xs[..n], weight);
    }
  }

  lemma {:induction false} CountOne<T(!new)>(xs: seq<T>, i: nat, weight: T -> int)
    requires Counts(weight) && i < |xs| && weight(xs[i]) == 1
    ensures Sum(xs, weight) >= 1
  {
    var n := |xs| - 1;
    if i < n {
      CountOne(xs[..n], i, weight);
    } else {
      CountNonNegative(xs[..n], weight);
    }
  }

  lemma {:induction false} CountNonNegative<T(!new)>(xs: seq<T>, weight: T -> int)
    requires Counts(weight)
    ensures Sum(xs, weight) >= 0
  {
    if xs != [] {
      CountNonNegative(xs[..|xs| - 1], weight);
    }
  }

  lemma {:induction false} CountTwo<T(!new)>(xs: seq<T>, i: nat, j: nat, weight: T -> int)
    requires Counts(weight) && i < j < |xs| && weight(xs[i]) == weight(xs[j]) == 1
    ensures Sum(xs, weight) >= 2
  {
    var n := |xs| - 1;
    if j < n {
      CountTwo(xs[..n], i, j, weight);
    } else {
      CountOne(xs[..n], i, weight);
    }
  }

  /** A count that is more than one has two witnesses. */
  lemma {:induction false} CountAtMostOne<T(!new)>(xs: seq<T>, weight: T -> int)
    requires Counts(weight)
    requires forall i, j :: 0 <= i < j < |xs| ==> weight(xs[i]) == 0 || weight(xs[j]) == 0
    ensures Sum(xs, weight) <= 1
  {
    if xs != [] {
      var n := |xs| - 1;
      CountAtMostOne(xs[..n], weight);
      if Sum(xs[..n], weight) >= 1 {
        var i := CountFinds(xs[..n], weight);
        assert weight(xs[i]) == 1;
      }
    }
  }
}

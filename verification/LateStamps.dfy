/**
 The gateway's limiter reads its clock before it takes a key's bucket, so a call can reach the bucket after one
 with a later stamp: exactly when that does harm, and how much the limiter lets through when it does.
 */
module LateStamps {
  import opened Common
  import opened Limiters

  function IpRule(): Rule { Rule(Always(MINUTE), 1) }

  /** The decisions along the run are the ones that counting everything would make. */
  ghost predicate IpAgrees(calls: seq<Call>) {
    Decisions(IpStep(), map[], calls).1 == Verdicts(calls, IpRule())
  }

  // ---------------------------------------------------------------- how late a stamp can be

  /** Among the calls of one key, listed as they reach its bucket, no stamp is more than `late` behind an earlier one. */
  ghost predicate Lagging(calls: seq<Call>, late: nat) {
    forall i, j :: 0 <= i < j < |calls| && calls[i].key == calls[j].key ==> calls[i].at - late <= calls[j].at
  }

  /** A call of `key` stamped `t` can still come. */
  ghost predicate CanCome(calls: seq<Call>, key: Key, late: nat, t: Time) {
    forall c :: c in calls && c.key == key ==> c.at - late <= t
  }

  /** The latest stamp of `key` in the run and a call of it at `at`. */
  function Latest(calls: seq<Call>, key: Key, at: Time): Time {
    if calls == [] then at
    else
      var n := |calls| - 1;
      var latest := Latest(calls[..n], key, at);
      if calls[n].key == key then Max(latest, calls[n].at) else latest
  }

  lemma LaggingAppend(calls: seq<Call>, c: Call, late: nat)
    ensures Lagging(calls + [c], late) <==> Lagging(calls, late) && CanCome(calls, c.key, late, c.at)
  {
    var run := calls + [c];
    if Lagging(run, late) {
      forall i, j | 0 <= i < j < |calls| && calls[i].key == calls[j].key ensures calls[i].at - late <= calls[j].at {
        assert run[i] == calls[i] && run[j] == calls[j];
      }
      forall d | d in calls && d.key == c.key ensures d.at - late <= c.at {
        var i :| 0 <= i < |calls| && calls[i] == d;
        assert run[i] == d && run[|calls|] == c;
      }
    }
  }

  lemma {:induction false} LatestExactly(calls: seq<Call>, key: Key, at: Time, late: nat, t: Time)
    ensures CanCome(calls, key, late, t) && at - late <= t <==> Latest(calls, key, at) - late <= t
  {
    if calls != [] {
      var n := |calls| - 1;
      LatestExactly(calls[..n], key, at, late, t);
      assert calls == calls[..n] + [calls[n]];
    }
  }

  // ---------------------------------------------------------------- harmless prunes

  /** The earliest stamp that a call of this key can have after `c`. */
  function Floor(calls: seq<Call>, c: Call, late: nat): Time {
    Latest(calls, c.key, c.at) - late
  }

  /** The prune of call `c` drops nothing that the earliest later call would count. */
  ghost predicate PruneSpares(calls: seq<Call>, c: Call, late: nat) {
    forall x :: x in Get(AfterIp(calls), c.key) && MINUTE <= Elapsed(x, c.at) ==>
      MINUTE <= Elapsed(x, Floor(calls, c, late))
  }

  ghost predicate SafeIp(calls: seq<Call>, late: nat) {
    calls == []
    || (SafeIp(calls[..|calls| - 1], late) && PruneSpares(calls[..|calls| - 1], calls[|calls| - 1], late))
  }

  /** Whenever a call can still come, the buckets and the whole history show it the same live entries. */
  ghost predicate Shows(hits: Buckets<Time>, history: seq<Hit<Time>>, calls: seq<Call>, late: nat) {
    forall key, t :: CanCome(calls, key, late, t) ==> ShowsAt(hits, history, key, t)
  }

  ghost predicate ShowsAt(hits: Buckets<Time>, history: seq<Hit<Time>>, key: Key, t: Time) {
    SameLive(Get(hits, key), Entries(history, key), Stamp(), t, MINUTE)
  }

  /** A call that finds its bucket showing all decides as the specification does. */
  lemma ShownDecides(hits: Buckets<Time>, history: seq<Hit<Time>>, c: Call)
    requires ShowsAt(hits, history, c.key, c.at)
    ensures IpStep()(hits, c).1 == Allowed(history, c, IpRule())
  {
    CountIsLength(history, c.key, c.at, MINUTE);
  }

  function After(history: seq<Hit<Time>>, c: Call, ok: bool): seq<Hit<Time>> {
    if ok then history + [Hit(c.key, c.at)] else history
  }

  /** What a call leaves in its own bucket, as anyone at `t` sees it. */
  lemma BucketAfter(hits: Buckets<Time>, c: Call, t: Time)
    ensures
      var (hits', ok) := IpStep()(hits, c);
      Retain(Get(hits', c.key), Stamp(), t, MINUTE)
      == Retain(Retain(Get(hits, c.key), Stamp(), c.at, MINUTE), Stamp(), t, MINUTE)
         + (if ok && Elapsed(c.at, t) < MINUTE then [c.at] else [])
  {
    var live := Retain(Get(hits, c.key), Stamp(), c.at, MINUTE);
    assert (live + [c.at])[..|live|] == live;
  }

  lemma HistoryAfter(history: seq<Hit<Time>>, c: Call, ok: bool, key: Key, t: Time)
    ensures
      Retain(Entries(After(history, c, ok), key), Stamp(), t, MINUTE)
      == Retain(Entries(history, key), Stamp(), t, MINUTE)
         + (if ok && c.key == key && Elapsed(c.at, t) < MINUTE then [c.at] else [])
  {
    if ok {
      assert (history + [Hit(c.key, c.at)])[..|history|] == history;
    }
  }

  lemma OtherBuckets(hits: Buckets<Time>, c: Call, key: Key)
    requires key != c.key
    ensures Get(IpStep()(hits, c).0, key) == Get(hits, key)
  {
  }

  lemma CallKeepsShowing(hits: Buckets<Time>, history: seq<Hit<Time>>, calls: seq<Call>, c: Call, late: nat)
    requires Shows(hits, history, calls, late) && hits == AfterIp(calls) && PruneSpares(calls, c, late)
    ensures
      var (hits', ok) := IpStep()(hits, c);
      Shows(hits', After(history, c, ok), calls + [c], late)
  {
    var (hits', ok) := IpStep()(hits, c);
    forall key, t | CanCome(calls + [c], key, late, t) ensures ShowsAt(hits', After(history, c, ok), key, t) {
      assert ShowsAt(hits, history, key, t);
      HistoryAfter(history, c, ok, key, t);
      if key == c.key {
        LatestExactly(calls, key, c.at, late, t);
        BucketAfter(hits, c, t);
        PruneUnseen(Get(hits, key), Stamp(), c.at, MINUTE, t, MINUTE);
      } else {
        OtherBuckets(hits, c, key);
      }
    }
  }

  lemma {:induction false} SafeRunShows(calls: seq<Call>, late: nat)
    requires Lagging(calls, late) && SafeIp(calls, late)
    ensures IpAgrees(calls) && Shows(AfterIp(calls), Accepted(calls, IpRule()), calls, late)
  {
    if calls != [] {
      var earlier, c := calls[..|calls| - 1], calls[|calls| - 1];
      assert calls == earlier + [c];
      LaggingAppend(earlier, c, late);
      SafeRunShows(earlier, late);
      NextIsRight(earlier, c, late);
      CallKeepsShowing(AfterIp(earlier), Accepted(earlier, IpRule()), earlier, c, late);
    }
  }

  lemma SafeRunAgrees(calls: seq<Call>, late: nat)
    requires Lagging(calls, late) && SafeIp(calls, late)
    ensures IpAgrees(calls)
  {
    SafeRunShows(calls, late);
  }

  lemma NextIsRight(calls: seq<Call>, c: Call, late: nat)
    requires IpAgrees(calls) && Shows(AfterIp(calls), Accepted(calls, IpRule()), calls, late)
    requires CanCome(calls, c.key, late, c.at)
    ensures IpAgrees(calls + [c])
    ensures IpStep()(AfterIp(calls), c).1 == Allowed(Accepted(calls, IpRule()), c, IpRule())
  {
    assert ShowsAt(AfterIp(calls), Accepted(calls, IpRule()), c.key, c.at);
    ShownDecides(AfterIp(calls), Accepted(calls, IpRule()), c);
  }

  // ---------------------------------------------------------------- harmful prunes

  /** What there is to count of `key` at `now`. */
  function TrueCount(calls: seq<Call>, key: Key, now: Time): nat {
    CountWithin(Accepted(calls, IpRule()), key, now, MINUTE)
  }

  /**
   Right after the first prune that drops what a later call would count, a call stamped as early as can be is
   accepted although the key's limit, its true count, is used up.
   */
  lemma LateHarmShows(calls: seq<Call>, c: Call, late: nat, x: Time) returns (next: Call)
    requires Lagging(calls + [c], late) && SafeIp(calls, late)
    requires x in Get(AfterIp(calls), c.key) && MINUTE <= Elapsed(x, c.at) && Elapsed(x, Floor(calls, c, late)) < MINUTE
    ensures
      var floor := Floor(calls, c, late);
      next == Call(c.key, TrueCount(calls + [c], c.key, floor), floor)
    ensures Lagging(calls + [c] + [next], late) && !IpAgrees(calls + [c] + [next])
  {
    var floor := Floor(calls, c, late);
    next := Call(c.key, TrueCount(calls + [c], c.key, floor), floor);
    FloorCanCome(calls, c, late);
    LaggingAppend(calls + [c], next, late);
    PrunedStateForgets(calls, c, late, x);
    WronglyAccepted(calls + [c], next);
  }

  lemma FloorCanCome(calls: seq<Call>, c: Call, late: nat)
    ensures CanCome(calls, c.key, late, Floor(calls, c, late)) && CanCome(calls + [c], c.key, late, Floor(calls, c, late))
  {
    LatestExactly(calls, c.key, c.at, late, Floor(calls, c, late));
  }

  lemma PrunedStateForgets(calls: seq<Call>, c: Call, late: nat, x: Time)
    requires Lagging(calls + [c], late) && SafeIp(calls, late)
    requires x in Get(AfterIp(calls), c.key) && MINUTE <= Elapsed(x, c.at) && Elapsed(x, Floor(calls, c, late)) < MINUTE
    ensures |Retain(Get(AfterIp(calls + [c]), c.key), Stamp(), Floor(calls, c, late), MINUTE)|
          < TrueCount(calls + [c], c.key, Floor(calls, c, late))
  {
    var floor, history, hits := Floor(calls, c, late), Accepted(calls, IpRule()), AfterIp(calls);
    var ok := IpStep()(hits, c).1;
    LaggingAppend(calls, c, late);
    SafeRunShows(calls, late);
    NextIsRight(calls, c, late);
    FloorCanCome(calls, c, late);
    assert ShowsAt(hits, history, c.key, floor);
    BucketAfter(hits, c, floor);
    HistoryAfter(history, c, ok, c.key, floor);
    PruneForgets(Get(hits, c.key), Stamp(), c.at, MINUTE, floor, MINUTE, x);
    CountIsLength(After(history, c, ok), c.key, floor, MINUTE);
  }

  /** A call at its key's true count is refused by the specification; a limiter that counts fewer lets it through. */
  lemma WronglyAccepted(run: seq<Call>, c: Call)
    requires c.limit == TrueCount(run, c.key, c.at)
    requires |Retain(Get(AfterIp(run), c.key), Stamp(), c.at, MINUTE)| < c.limit
    ensures !IpAgrees(run + [c])
  {
    EndsDiffer(Decisions(IpStep(), map[], run).1, Verdicts(run, IpRule()), true, false);
  }

  /** Some call right after a prefix of an unsafe run is decided wrongly. */
  lemma {:induction false} UnsafeIpGoesWrong(calls: seq<Call>, late: nat) returns (n: nat, next: Call)
    requires Lagging(calls, late) && !SafeIp(calls, late)
    ensures n <= |calls| && Lagging(calls[..n] + [next], late) && !IpAgrees(calls[..n] + [next])
  {
    var earlier, c := calls[..|calls| - 1], calls[|calls| - 1];
    assert calls == earlier + [c];
    if SafeIp(earlier, late) {
      next := LastGoesWrong(earlier, c, late);
      n := |calls|;
      assert calls[..n] == calls;
    } else {
      LaggingAppend(earlier, c, late);
      n, next := UnsafeIpGoesWrong(earlier, late);
      assert calls[..n] == earlier[..n];
    }
  }

  lemma LastGoesWrong(calls: seq<Call>, c: Call, late: nat) returns (next: Call)
    requires Lagging(calls + [c], late) && SafeIp(calls, late) && !PruneSpares(calls, c, late)
    ensures Lagging(calls + [c] + [next], late) && !IpAgrees(calls + [c] + [next])
  {
    var x := PruneHarms(calls, c, late);
    next := LateHarmShows(calls, c, late, x);
  }

  lemma PruneHarms(calls: seq<Call>, c: Call, late: nat) returns (x: Time)
    requires !PruneSpares(calls, c, late)
    ensures x in Get(AfterIp(calls), c.key) && MINUTE <= Elapsed(x, c.at) && Elapsed(x, Floor(calls, c, late)) < MINUTE
  {
    x :| x in Get(AfterIp(calls), c.key) && MINUTE <= Elapsed(x, c.at) && Elapsed(x, Floor(calls, c, late)) < MINUTE;
  }

  lemma {:induction false} SafeIpPrefix(calls: seq<Call>, late: nat, n: nat)
    requires n <= |calls| && SafeIp(calls, late)
    ensures SafeIp(calls[..n], late)
  {
    if n < |calls| {
      var m := |calls| - 1;
      SafeIpPrefix(calls[..m], late, n);
      assert calls[..m][..n] == calls[..n];
    } else {
      assert calls[..n] == calls;
    }
  }

  /**
   Exactly when the gateway's limiter can be trusted, with stamps at most `late` behind: whatever call can come
   next, after any part of a run, is decided as by counting everything if and only if no prune of the run drops
   an entry that a call stamped `late` before the latest would still count.
   */
  lemma IpRefinesExactly(calls: seq<Call>, late: nat)
    requires Lagging(calls, late)
    ensures SafeIp(calls, late) <==>
            forall n, c :: 0 <= n <= |calls| && Lagging(calls[..n] + [c], late) ==> IpAgrees(calls[..n] + [c])
  {
    if SafeIp(calls, late) {
      forall n, c | 0 <= n <= |calls| && Lagging(calls[..n] + [c], late) ensures IpAgrees(calls[..n] + [c]) {
        SafeIpPrefix(calls, late, n);
        LaggingAppend(calls[..n], c, late);
        SafeRunShows(calls[..n], late);
        NextIsRight(calls[..n], c, late);
      }
    } else {
      var n, next := UnsafeIpGoesWrong(calls, late);
    }
  }

  // ---------------------------------------------------------------- stamps in order

  /** When each key's stamps come in order no prune does harm. */
  lemma {:induction false} OrderedIsSafe(calls: seq<Call>)
    requires Lagging(calls, 0)
    ensures SafeIp(calls, 0)
  {
    if calls != [] {
      var earlier, c := calls[..|calls| - 1], calls[|calls| - 1];
      assert calls == earlier + [c];
      LaggingAppend(earlier, c, 0);
      OrderedIsSafe(earlier);
      LatestExactly(earlier, c.key, c.at, 0, Latest(earlier, c.key, c.at));
    }
  }

  /** So then the limiter decides as if it remembered every acceptance. */
  lemma IpRefines(calls: seq<Call>)
    requires Lagging(calls, 0)
    ensures IpAgrees(calls)
  {
    OrderedIsSafe(calls);
    SafeRunAgrees(calls, 0);
  }

  // ---------------------------------------------------------------- how much is let through

  function LetThrough(calls: seq<Call>): seq<Hit<Time>> {
    Passed(calls, Decisions(IpStep(), map[], calls).1)
  }

  /** In a safe run no minute, wherever it starts, sees more than a key's limit let through. */
  lemma IpLetsThrough(calls: seq<Call>, late: nat, key: Key, limit: nat, from: Time)
    requires Lagging(calls, late) && SafeIp(calls, late) && LimitedBy(calls, IpRule(), key, limit)
    ensures CountBetween(LetThrough(calls), key, from, from + 60_000_000_000) <= limit
  {
    SafeRunAgrees(calls, late);
    RightRunIsBounded(calls, Decisions(IpStep(), map[], calls).1, key, limit, from);
  }

  lemma RightRunIsBounded(calls: seq<Call>, decided: seq<bool>, key: Key, limit: nat, from: Time)
    requires decided == Verdicts(calls, IpRule()) && LimitedBy(calls, IpRule(), key, limit)
    ensures CountBetween(Passed(calls, decided), key, from, from + MINUTE) <= limit
  {
    PassedIsBounded(calls, decided, IpRule(), key, limit, from);
  }

  // ---------------------------------------------------------------- how much is let through late

  /** The entries of a bucket at times in [from, to). */
  function CountIn(xs: seq<Time>, from: Time, to: Time): nat {
    if xs == [] then 0 else CountIn(xs[..|xs| - 1], from, to) + if from <= xs[|xs| - 1] < to then 1 else 0
  }

  lemma {:induction false} CountInWithin(xs: seq<Time>, from: Time, to: Time)
    ensures CountIn(xs, from, to) <= |xs|
  {
    if xs != [] {
      CountInWithin(xs[..|xs| - 1], from, to);
    }
  }

  lemma CountInAppend(xs: seq<Time>, x: Time, from: Time, to: Time)
    ensures CountIn(xs + [x], from, to) == CountIn(xs, from, to) + if from <= x < to then 1 else 0
  {
    assert (xs + [x])[..|xs|] == xs;
  }

  /** Until a minute after the interval starts no prune drops an entry in it. */
  lemma {:induction false} PruneKeepsInterval(xs: seq<Time>, now: Time, from: Time, to: Time)
    requires now < from + MINUTE
    ensures CountIn(Retain(xs, Stamp(), now, MINUTE), from, to) == CountIn(xs, from, to)
  {
    if xs != [] {
      var n := |xs| - 1;
      PruneKeepsInterval(xs[..n], now, from, to);
      CountInAppend(Retain(xs[..n], Stamp(), now, MINUTE), xs[n], from, to);
    }
  }

  lemma OneMoreLetThrough(calls: seq<Call>, c: Call)
    ensures LetThrough(calls + [c]) == LetThrough(calls)
              + if IpStep()(AfterIp(calls), c).1 then [Hit(c.key, c.at)] else []
  {
    DecidesEach(calls);
    assert (calls + [c])[..|calls|] == calls;
    var decided, ok := Decisions(IpStep(), map[], calls).1, IpStep()(AfterIp(calls), c).1;
    assert (decided + [ok])[..|calls|] == decided;
  }

  lemma {:induction false} DecidesEach(calls: seq<Call>)
    ensures |Decisions(IpStep(), map[], calls).1| == |calls|
  {
    if calls != [] {
      DecidesEach(calls[..|calls| - 1]);
    }
  }

  lemma OneMoreCounts(calls: seq<Call>, c: Call, key: Key, from: Time, to: Time)
    ensures CountBetween(LetThrough(calls + [c]), key, from, to) == CountBetween(LetThrough(calls), key, from, to)
              + if IpStep()(AfterIp(calls), c).1 && c.key == key && from <= c.at < to then 1 else 0
  {
    OneMoreLetThrough(calls, c);
    CountOneMore(LetThrough(calls), Hit(c.key, c.at), IpStep()(AfterIp(calls), c).1, key, from, to);
  }

  lemma CountOneMore(history: seq<Hit<Time>>, hit: Hit<Time>, ok: bool, key: Key, from: Time, to: Time)
    ensures CountBetween(history + (if ok then [hit] else []), key, from, to) ==
            CountBetween(history, key, from, to) + if ok && hit.key == key && from <= hit.entry < to then 1 else 0
  {
    if !ok {
      assert history + [] == history;
    }
  }

  /** Every stamp of `key` so far is before `t`. */
  ghost predicate AllBefore(calls: seq<Call>, key: Key, t: Time) {
    forall c :: c in calls && c.key == key ==> c.at < t
  }

  ghost predicate HoldsInterval(calls: seq<Call>, key: Key, from: Time, to: Time) {
    CountBetween(LetThrough(calls), key, from, to) == CountIn(Get(AfterIp(calls), key), from, to)
  }

  /** Until then the bucket holds all that was let through in the interval. */
  lemma {:induction false} BucketHoldsInterval(calls: seq<Call>, key: Key, from: Time, to: Time)
    requires AllBefore(calls, key, from + MINUTE)
    ensures HoldsInterval(calls, key, from, to)
  {
    if calls != [] {
      var earlier, c := calls[..|calls| - 1], calls[|calls| - 1];
      assert calls == earlier + [c] && c in calls;
      BucketHoldsInterval(earlier, key, from, to);
      HoldsOneMore(earlier, c, key, from, to);
    }
  }

  lemma HoldsOneMore(calls: seq<Call>, c: Call, key: Key, from: Time, to: Time)
    requires HoldsInterval(calls, key, from, to) && (c.key == key ==> c.at < from + MINUTE)
    ensures HoldsInterval(calls + [c], key, from, to)
  {
    OneMoreCounts(calls, c, key, from, to);
    if c.key == key {
      CallKeepsInterval(AfterIp(calls), c, from, to);
    } else {
      OtherBuckets(AfterIp(calls), c, key);
    }
  }

  lemma CallKeepsInterval(hits: Buckets<Time>, c: Call, from: Time, to: Time)
    requires c.at < from + MINUTE
    ensures
      var (hits', ok) := IpStep()(hits, c);
      CountIn(Get(hits', c.key), from, to)
      == CountIn(Get(hits, c.key), from, to) + if ok && from <= c.at < to then 1 else 0
  {
    var live := Retain(Get(hits, c.key), Stamp(), c.at, MINUTE);
    PruneKeepsInterval(Get(hits, c.key), c.at, from, to);
    CountInAppend(live, c.at, from, to);
  }

  /** However late stamps come, by up to `late`, no stretch of a minute less `late` sees more than the limit let through. */
  lemma {:induction false} LateLetsThrough(calls: seq<Call>, late: nat, key: Key, limit: nat, from: Time)
    requires Lagging(calls, late) && LimitedBy(calls, IpRule(), key, limit)
    ensures CountBetween(LetThrough(calls), key, from, from + MINUTE - late) <= limit
  {
    if calls != [] {
      var earlier, c := calls[..|calls| - 1], calls[|calls| - 1];
      assert calls == earlier + [c] && c in calls;
      LaggingAppend(earlier, c, late);
      LateLetsThrough(earlier, late, key, limit, from);
      OneMoreWithin(earlier, c, late, key, limit, from);
    }
  }

  lemma OneMoreWithin(calls: seq<Call>, c: Call, late: nat, key: Key, limit: nat, from: Time)
    requires CanCome(calls, c.key, late, c.at) && (c.key == key ==> Limit(c, IpRule()) <= limit)
    requires CountBetween(LetThrough(calls), key, from, from + MINUTE - late) <= limit
    ensures CountBetween(LetThrough(calls + [c]), key, from, from + MINUTE - late) <= limit
  {
    var to := from + MINUTE - late;
    OneMoreCounts(calls, c, key, from, to);
    if IpStep()(AfterIp(calls), c).1 && c.key == key && from <= c.at < to {
      assert AllBefore(calls, key, from + MINUTE);
      BucketHoldsInterval(calls, key, from, to);
      RoomInInterval(AfterIp(calls), c, from, to);
    }
  }

  lemma RoomInInterval(hits: Buckets<Time>, c: Call, from: Time, to: Time)
    requires IpStep()(hits, c).1 && c.at < from + MINUTE
    ensures CountIn(Get(hits, c.key), from, to) < Limit(c, IpRule())
  {
    var live := Retain(Get(hits, c.key), Stamp(), c.at, MINUTE);
    PruneKeepsInterval(Get(hits, c.key), c.at, from, to);
    CountInWithin(live, from, to);
  }

  // ---------------------------------------------------------------- a limit of one

  /** The bucket holds at most one entry, and nothing of the key let through so far is later than it. */
  ghost predicate HoldsNewest(calls: seq<Call>, key: Key) {
    var xs := Get(AfterIp(calls), key);
    |xs| <= 1 && forall h :: h in LetThrough(calls) && h.key == key ==> xs != [] && h.entry <= xs[0]
  }

  lemma {:induction false} CountNone(history: seq<Hit<Time>>, key: Key, from: Time, to: Time)
    requires forall h :: h in history && h.key == key ==> h.entry < from
    ensures CountBetween(history, key, from, to) == 0
  {
    if history != [] {
      var n := |history| - 1;
      assert history == history[..n] + [history[n]];
      CountNone(history[..n], key, from, to);
    }
  }

  /** Under a limit of one a call passes only a minute after the newest that passed, so lag does no harm. */
  lemma {:induction false} LimitOneKeepsMinute(calls: seq<Call>, key: Key, from: Time)
    requires LimitedBy(calls, IpRule(), key, 1)
    ensures HoldsNewest(calls, key) && CountBetween(LetThrough(calls), key, from, from + MINUTE) <= 1
  {
    if calls != [] {
      var earlier, c := calls[..|calls| - 1], calls[|calls| - 1];
      assert calls == earlier + [c] && c in calls;
      LimitOneKeepsMinute(earlier, key, from);
      OneMoreHoldsNewest(earlier, c, key);
      OneMoreInMinute(earlier, c, key, from);
    }
  }

  lemma OneMoreHoldsNewest(calls: seq<Call>, c: Call, key: Key)
    requires HoldsNewest(calls, key) && (c.key == key ==> Limit(c, IpRule()) == 1)
    ensures HoldsNewest(calls + [c], key)
  {
    OneMoreLetThrough(calls, c);
    if c.key == key {
      OneAtATime(AfterIp(calls), c);
    } else {
      OtherBuckets(AfterIp(calls), c, key);
    }
  }

  lemma OneMoreInMinute(calls: seq<Call>, c: Call, key: Key, from: Time)
    requires HoldsNewest(calls, key) && (c.key == key ==> Limit(c, IpRule()) == 1)
    requires CountBetween(LetThrough(calls), key, from, from + MINUTE) <= 1
    ensures CountBetween(LetThrough(calls + [c]), key, from, from + MINUTE) <= 1
  {
    OneMoreCounts(calls, c, key, from, from + MINUTE);
    if c.key == key && IpStep()(AfterIp(calls), c).1 && from <= c.at < from + MINUTE {
      OneAtATime(AfterIp(calls), c);
      CountNone(LetThrough(calls), key, from, from + MINUTE);
    }
  }

  lemma OneAtATime(hits: Buckets<Time>, c: Call)
    requires |Get(hits, c.key)| <= 1 && Limit(c, IpRule()) == 1
    ensures
      var (hits', ok) := IpStep()(hits, c);
      var xs := Get(hits, c.key);
      && Get(hits', c.key) == (if ok then [c.at] else xs)
      && (ok && xs != [] ==> MINUTE <= c.at - xs[0])
  {
    var xs := Get(hits, c.key);
    if xs != [] {
      assert xs == [xs[0]] && xs[..0] == [];
    }
  }

  // ---------------------------------------------------------------- and no more than that

  /** `n` calls at zero. */
  function Burst(key: Key, limit: nat, n: nat): seq<Call> {
    if n == 0 then [] else Burst(key, limit, n - 1) + [Call(key, limit, 0)]
  }

  lemma {:induction false} BurstPasses(key: Key, limit: nat, n: nat, to: Time)
    requires n <= limit && 0 < to
    ensures |Get(AfterIp(Burst(key, limit, n)), key)| == n && OnlyZeros(Get(AfterIp(Burst(key, limit, n)), key))
    ensures CountBetween(LetThrough(Burst(key, limit, n)), key, 0, to) == n
  {
    if n > 0 {
      var earlier := Burst(key, limit, n - 1);
      BurstPasses(key, limit, n - 1, to);
      ZeroPasses(earlier, Call(key, limit, 0), to);
    }
  }

  lemma ZeroPasses(calls: seq<Call>, c: Call, to: Time)
    requires c.at == 0 && 0 < to
    requires var xs := Get(AfterIp(calls), c.key); |xs| < c.limit && OnlyZeros(xs)
    ensures
      var xs := Get(AfterIp(calls + [c]), c.key);
      |xs| == |Get(AfterIp(calls), c.key)| + 1 && OnlyZeros(xs)
    ensures CountBetween(LetThrough(calls + [c]), c.key, 0, to) == CountBetween(LetThrough(calls), c.key, 0, to) + 1
  {
    var xs := Get(AfterIp(calls), c.key);
    RetainAll(xs, 0, MINUTE);
    Passes(calls, c, xs, 0, to);
  }

  ghost predicate OnlyZeros(xs: seq<Time>) {
    forall x :: x in xs ==> x == 0
  }

  /** A call that finds room in what is left of its bucket. */
  lemma Passes(calls: seq<Call>, c: Call, live: seq<Time>, from: Time, to: Time)
    requires live == Retain(Get(AfterIp(calls), c.key), Stamp(), c.at, MINUTE) && |live| < c.limit
    ensures Get(AfterIp(calls + [c]), c.key) == live + [c.at]
    ensures CountBetween(LetThrough(calls + [c]), c.key, from, to)
         == CountBetween(LetThrough(calls), c.key, from, to) + if from <= c.at < to then 1 else 0
  {
    OneMoreCounts(calls, c, c.key, from, to);
  }

  /** As many calls at zero as the limit allows, and one a minute later. */
  function MinuteCalls(key: Key, limit: nat): seq<Call> {
    Burst(key, limit, limit) + [Call(key, limit, MINUTE)]
  }

  /** In just over a minute they are one too many. */
  lemma MinutePasses(key: Key, limit: nat, to: Time)
    requires limit >= 1 && 0 < to
    ensures Get(AfterIp(MinuteCalls(key, limit)), key) == [MINUTE]
    ensures CountBetween(LetThrough(MinuteCalls(key, limit)), key, 0, to) == limit + if MINUTE < to then 1 else 0
  {
    BurstPasses(key, limit, limit, to);
    RetainGone(Get(AfterIp(Burst(key, limit, limit)), key), MINUTE, MINUTE);
    Passes(Burst(key, limit, limit), Call(key, limit, MINUTE), [], 0, to);
  }

  lemma MinuteLags(key: Key, limit: nat, late: nat)
    requires limit >= 1
    ensures Lagging(MinuteCalls(key, limit), late) && LimitedBy(MinuteCalls(key, limit), IpRule(), key, limit)
    ensures forall c :: c in MinuteCalls(key, limit) ==> c.at <= MINUTE
  {
    BurstLags(key, limit, limit, late);
    LaggingAppend(Burst(key, limit, limit), Call(key, limit, MINUTE), late);
  }

  lemma {:induction false} BurstLags(key: Key, limit: nat, n: nat, late: nat)
    ensures Lagging(Burst(key, limit, n), late)
    ensures forall c :: c in Burst(key, limit, n) ==> c == Call(key, limit, 0)
  {
    if n > 0 {
      BurstLags(key, limit, n - 1, late);
      LaggingAppend(Burst(key, limit, n - 1), Call(key, limit, 0), late);
    }
  }

  /** The same, and one stamped `late` before the minute is up. */
  function LateCalls(key: Key, limit: nat, late: nat): seq<Call> {
    MinuteCalls(key, limit) + [Call(key, limit, MINUTE - late)]
  }

  /** With any lag up to a minute, and any limit of two or more, the last of these calls is one too many. */
  lemma LateStampSlips(key: Key, limit: nat, late: nat, to: Time)
    requires limit >= 2 && late <= MINUTE && MINUTE - late < to
    ensures Lagging(LateCalls(key, limit, late), late) && LimitedBy(LateCalls(key, limit, late), IpRule(), key, limit)
    ensures CountBetween(LetThrough(LateCalls(key, limit, late)), key, 0, to) > limit
  {
    var last := Call(key, limit, MINUTE - late);
    MinuteLags(key, limit, late);
    LaggingAppend(MinuteCalls(key, limit), last, late);
    MinutePasses(key, limit, to);
    RetainAll([MINUTE], last.at, MINUTE);
    Passes(MinuteCalls(key, limit), last, [MINUTE], 0, to);
  }

  /** Every run whose stamps are at most `late` behind keeps to the limit in every interval of this length. */
  ghost predicate KeepsLimit(late: nat, limit: nat, length: nat) {
    forall calls, key, from :: Lagging(calls, late) && LimitedBy(calls, IpRule(), key, limit) ==>
      AtMost(calls, key, from, length, limit)
  }

  ghost predicate AtMost(calls: seq<Call>, key: Key, from: Time, length: nat, limit: nat) {
    CountBetween(LetThrough(calls), key, from, from + length) <= limit
  }

  lemma {:induction false} CountWider(history: seq<Hit<Time>>, key: Key, from: Time, to: Time, wider: Time)
    requires to <= wider
    ensures CountBetween(history, key, from, to) <= CountBetween(history, key, from, wider)
  {
    if history != [] {
      CountWider(history[..|history| - 1], key, from, to, wider);
    }
  }

  /** How long a stretch a limit is kept for. */
  function LongestKept(late: nat, limit: nat): int {
    if limit == 1 then 60_000_000_000 else 60_000_000_000 - late
  }

  /** A minute less the lag is the longest stretch for which a limit can be promised; a limit of one keeps the minute. */
  lemma LateBoundExactly(late: nat, limit: nat, length: nat)
    requires limit >= 1 && length > 0
    ensures KeepsLimit(late, limit, length) <==> length <= LongestKept(late, limit)
  {
    if length <= LongestKept(late, limit) {
      forall calls, key, from | Lagging(calls, late) && LimitedBy(calls, IpRule(), key, limit)
        ensures AtMost(calls, key, from, length, limit)
      {
        KeptThatLong(calls, late, key, limit, from);
        CountWider(LetThrough(calls), key, from, from + length, from + LongestKept(late, limit));
      }
    } else {
      var calls := NotKeptLonger("", late, limit, length);
      assert !AtMost(calls, "", 0, length, limit);
    }
  }

  lemma KeptThatLong(calls: seq<Call>, late: nat, key: Key, limit: nat, from: Time)
    requires limit >= 1 && Lagging(calls, late) && LimitedBy(calls, IpRule(), key, limit)
    ensures CountBetween(LetThrough(calls), key, from, from + LongestKept(late, limit)) <= limit
  {
    if limit == 1 {
      LimitOneKeepsMinute(calls, key, from);
    } else {
      LateLetsThrough(calls, late, key, limit, from);
    }
  }

  lemma NotKeptLonger(key: Key, late: nat, limit: nat, length: nat) returns (calls: seq<Call>)
    requires limit >= 1 && length > 0 && length > LongestKept(late, limit)
    ensures Lagging(calls, late) && LimitedBy(calls, IpRule(), key, limit) && !AtMost(calls, key, 0, length, limit)
  {
    if limit == 1 {
      calls := MinuteCalls(key, limit);
      MinuteLags(key, limit, late);
      MinutePasses(key, limit, length);
    } else {
      var lag := if late < MINUTE then late else MINUTE;
      calls := LateCalls(key, limit, lag);
      LateStampSlips(key, limit, lag, length);
    }
  }
}

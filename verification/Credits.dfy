/** Unusual credits: a pruned list of the last hour's credits per user, against the whole history of credits. */
module Credits {
  import opened Common
  import opened Limiters

  const HOUR := 3600 * SECOND

  /** More than this much credited to one user in an hour is unusual. */
  const CREDIT_ALARM := 100_000_000

  datatype Credit = Credit(at: Time, amount: int)

  function CreditedAt(): Credit -> Time { (c: Credit) => c.at }

  function Total(xs: seq<Credit>): int {
    if xs == [] then 0 else Total(xs[..|xs| - 1]) + xs[|xs| - 1].amount
  }

  /** All the user was ever credited that is younger than an hour. */
  function CreditedWithin(history: seq<Hit<Credit>>, user: Key, now: Time): int {
    if history == [] then 0
    else
      var last := history[|history| - 1];
      CreditedWithin(history[..|history| - 1], user, now)
        + if last.key == user && Elapsed(last.entry.at, now) < 3_600_000_000_000 then last.entry.amount else 0
  }

  function CreditCheck(recent: Buckets<Credit>, user: Key, credit: Credit): (Buckets<Credit>, bool) {
    var entries := Retain(Get(recent, user), CreditedAt(), credit.at, HOUR) + [credit];
    (recent[user := entries], Total(entries) > CREDIT_ALARM)
  }

  class AnomalyDetector {
    var recentCredits: Buckets<Credit>

    constructor ()
      ensures recentCredits == map[]
    {
      recentCredits := map[];
    }

    method CheckCredit(user: Key, amount: int, now: Time) returns (anomalous: bool)
      modifies this
      ensures (recentCredits, anomalous) == CreditCheck(old(recentCredits), user, Credit(now, amount))
    {
      if user !in recentCredits {
        recentCredits := recentCredits[user := []];
      }
      var entries := Retain(recentCredits[user], CreditedAt(), now, HOUR) + [Credit(now, amount)];
      recentCredits := recentCredits[user := entries];
      assert recentCredits == old(recentCredits)[user := entries];
      var total, i := 0, 0;
      while i < |entries|
        invariant 0 <= i <= |entries| && total == Total(entries[..i])
      {
        assert entries[..i + 1][..i] == entries[..i];
        total, i := total + entries[i].amount, i + 1;
      }
      assert entries[..i] == entries;
      anomalous := total > CREDIT_ALARM;
    }
  }

  /** The detector's buckets and answers after every credit of a history has been reported to it in turn. */
  function Reported(history: seq<Hit<Credit>>): (Buckets<Credit>, seq<bool>) {
    if history == [] then (map[], [])
    else
      var last, (recent, answers) := history[|history| - 1], Reported(history[..|history| - 1]);
      var (recent', anomalous) := CreditCheck(recent, last.key, last.entry);
      (recent', answers + [anomalous])
  }

  lemma {:induction false} TotalIsCredited(history: seq<Hit<Credit>>, user: Key, now: Time)
    ensures Total(Retain(Entries(history, user), CreditedAt(), now, HOUR)) == CreditedWithin(history, user, now)
  {
    if history != [] {
      TotalIsCredited(history[..|history| - 1], user, now);
    }
  }

  /** One report: the answer counts the whole history, and the buckets stay in step with it. */
  lemma CreditStep(
    recent: Buckets<Credit>, history: seq<Hit<Credit>>, before: Time, user: Key, credit: Credit)
    requires Matches(recent, history, CreditedAt(), before, Always(HOUR)) && before <= credit.at
    ensures
      var (recent', anomalous) := CreditCheck(recent, user, credit);
      && anomalous == (CreditedWithin(history, user, credit.at) + credit.amount > CREDIT_ALARM)
      && Matches(recent', history + [Hit(user, credit)], CreditedAt(), credit.at, Always(HOUR))
  {
    var live := Retain(Get(recent, user), CreditedAt(), credit.at, HOUR);
    assert SameLive(Get(recent, user), Entries(history, user), CreditedAt(), credit.at, Always(HOUR)(user));
    TotalIsCredited(history, user, credit.at);
    PruneMatches(recent, history, CreditedAt(), before, credit.at, Always(HOUR), user);
    PushMatches(recent[user := live], history, CreditedAt(), credit.at, Always(HOUR), user, credit);
    assert recent[user := live][user := live + [credit]] == recent[user := live + [credit]];
  }

  ghost predicate InTimeOrder(history: seq<Hit<Credit>>) {
    forall i, j :: 0 <= i < j < |history| ==> history[i].entry.at <= history[j].entry.at
  }

  function LastAt(history: seq<Hit<Credit>>, start: Time): Time {
    if history == [] then start else history[|history| - 1].entry.at
  }

  /** What each answer along the way should have been, looking at everything reported so far. */
  function Unusual(history: seq<Hit<Credit>>): seq<bool> {
    if history == [] then []
    else
      var last, before := history[|history| - 1], history[..|history| - 1];
      Unusual(before) + [CreditedWithin(before, last.key, last.entry.at) + last.entry.amount > 100_000_000]
  }

  lemma OneMoreReport(earlier: seq<Hit<Credit>>, last: Hit<Credit>)
    ensures
      var (recent, anomalous) := CreditCheck(Reported(earlier).0, last.key, last.entry);
      && Reported(earlier + [last]) == (recent, Reported(earlier).1 + [anomalous])
      && Unusual(earlier + [last]) == Unusual(earlier)
           + [CreditedWithin(earlier, last.key, last.entry.at) + last.entry.amount > CREDIT_ALARM]
  {
    assert (earlier + [last])[..|earlier|] == earlier;
  }

  /**
   In time order, each credit is called unusual exactly when it and everything else credited to that user
   in the hour before add up to more than the alarm, although old entries have been pruned.
   */
  lemma {:induction false} CreditRefines(history: seq<Hit<Credit>>, start: Time)
    requires InTimeOrder(history) && (history != [] ==> start <= history[0].entry.at)
    ensures Reported(history).1 == Unusual(history)
    ensures Matches(Reported(history).0, history, CreditedAt(), LastAt(history, start), Always(HOUR))
  {
    if history != [] {
      var n := |history| - 1;
      var earlier, last := history[..n], history[n];
      CreditRefines(earlier, start);
      CreditStep(Reported(earlier).0, earlier, LastAt(earlier, start), last.key, last.entry);
      OneMoreReport(earlier, last);
      assert earlier + [last] == history && last == Hit(last.key, last.entry);
    }
  }
}

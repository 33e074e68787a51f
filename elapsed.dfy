/** Elapsed time in whole units, as the dashboard's formatRelativeTime and
    the chat list's formatTimeAgo both compute it: under a minute, whole
    minutes under an hour, whole hours under a day, whole days under a week,
    and otherwise a calendar date. */
module Elapsed {
  const MsPerMinute: int := 60000
  const MsPerHour: int := 3600000
  const MsPerDay: int := 86400000

  datatype Elapsed = JustNow | MinutesAgo(n: nat) | HoursAgo(n: nat) | DaysAgo(n: nat) | OnDate

  /** The bucket for `elapsed` milliseconds between a timestamp and now.
      `Math.floor` by a positive divisor is Dafny's `/`, negative amounts
      included. */
  function Bucket(elapsed: int): (r: Elapsed)
    ensures r == JustNow <==> elapsed < MsPerMinute
    ensures r.MinutesAgo? ==> 1 <= r.n < 60 && r.n * MsPerMinute <= elapsed < (r.n + 1) * MsPerMinute
    ensures r.HoursAgo? ==> 1 <= r.n < 24 && r.n * MsPerHour <= elapsed < (r.n + 1) * MsPerHour
    ensures r.DaysAgo? ==> 1 <= r.n < 7 && r.n * MsPerDay <= elapsed < (r.n + 1) * MsPerDay
    ensures r == OnDate <==> elapsed >= 7 * MsPerDay
  {
    var mins := elapsed / MsPerMinute;
    var hours := elapsed / MsPerHour;
    var days := elapsed / MsPerDay;
    if mins < 1 then JustNow
    else if mins < 60 then MinutesAgo(mins)
    else if hours < 24 then HoursAgo(hours)
    else if days < 7 then DaysAgo(days)
    else OnDate
  }

  /** Which bucket applies, by the amount of time alone. */
  lemma BucketKinds(elapsed: int)
    ensures MsPerMinute <= elapsed < 60 * MsPerMinute ==> Bucket(elapsed) == MinutesAgo(elapsed / MsPerMinute)
    ensures 60 * MsPerMinute <= elapsed < 24 * MsPerHour ==> Bucket(elapsed) == HoursAgo(elapsed / MsPerHour)
    ensures 24 * MsPerHour <= elapsed < 7 * MsPerDay ==> Bucket(elapsed) == DaysAgo(elapsed / MsPerDay)
  {
  }

  /** The bucket's size in minutes, a week for a calendar date. */
  function Minutes(r: Elapsed): int {
    match r
    case JustNow => 0
    case MinutesAgo(n) => n
    case HoursAgo(n) => 60 * n
    case DaysAgo(n) => 1440 * n
    case OnDate => 10080
  }

  /** An older timestamp is never described as more recent. */
  lemma BucketMonotone(e1: int, e2: int)
    requires e1 <= e2
    ensures Minutes(Bucket(e1)) <= Minutes(Bucket(e2))
  {
    var r1, r2 := Bucket(e1), Bucket(e2);
    if r1.MinutesAgo? && r2.HoursAgo? {
      assert e1 < (r1.n + 1) * MsPerMinute;
      assert r2.n * MsPerHour <= e2;
    }
  }
}

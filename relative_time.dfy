/** `formatRelativeTime`: how long ago a moment was, in the largest whole
    unit below a week. The current time is a parameter, and the timestamp
    is already in milliseconds. The Hebrew phrase of each bucket is
    represented by its constructor. */
module RelativeTime {
  const SecondMs: int := 1000
  const MinuteMs: int := 60 * SecondMs
  const HourMs: int := 60 * MinuteMs
  const DayMs: int := 24 * HourMs
  const WeekMs: int := 7 * DayMs

  /** "a moment ago", "n minutes ago", "n hours ago", "n days ago", or the
      locale-formatted date. */
  datatype Ago = JustNow | MinutesAgo(n: int) | HoursAgo(n: int) | DaysAgo(n: int) | DateOf(time: int)

  /** `Math.floor(a / b)` for a positive divisor: Dafny's division on `int`
      already rounds towards minus infinity when `b > 0`. */
  function FloorDiv(a: int, b: int): (q: int)
    requires b > 0
    ensures q * b <= a < q * b + b
  {
    a / b
  }

  /** The cascade of floor divisions: seconds, then minutes, hours and
      days, each compared against its threshold in turn. */
  function FormatRelativeTime(now: int, time: int): (r: Ago)
    ensures r == JustNow <==> now - time < MinuteMs
    ensures r.MinutesAgo? ==> MinuteMs <= now - time < HourMs && 1 <= r.n <= 59
                              && r.n * MinuteMs <= now - time < (r.n + 1) * MinuteMs
    ensures r.HoursAgo? ==> HourMs <= now - time < DayMs && 1 <= r.n <= 23
                            && r.n * HourMs <= now - time < (r.n + 1) * HourMs
    ensures r.DaysAgo? ==> DayMs <= now - time < WeekMs && 1 <= r.n <= 6
                           && r.n * DayMs <= now - time < (r.n + 1) * DayMs
    ensures r.DateOf? <==> now - time >= WeekMs
    ensures r.DateOf? ==> r.time == time
  {
    var diffMs := now - time;
    var diffSeconds := FloorDiv(diffMs, 1000);
    var diffMinutes := FloorDiv(diffSeconds, 60);
    var diffHours := FloorDiv(diffMinutes, 60);
    var diffDays := FloorDiv(diffHours, 24);
    NestedFloor(diffMs, 1000, 60);
    NestedFloor(diffMs, 60000, 60);
    NestedFloor(diffMs, 3600000, 24);
    if diffSeconds < 60 then JustNow
    else if diffMinutes < 60 then MinutesAgo(diffMinutes)
    else if diffHours < 24 then HoursAgo(diffHours)
    else if diffDays < 7 then DaysAgo(diffDays)
    else DateOf(time)
  }

  /** Flooring twice is flooring once by the product. */
  lemma NestedFloor(a: int, b: int, c: int)
    requires b > 0 && c > 0
    ensures (a / b) / c == a / (b * c)
  {
    var q := a / b;
    var p := q / c;
    assert p * c <= q < p * c + c;
    assert q * b <= a < q * b + b;
    MulMono(p * c, q, b);
    MulMono(q + 1, p * c + c, b);
    assert p * (b * c) <= a < (p + 1) * (b * c);
    FloorUnique(a, b * c, p);
  }

  lemma MulMono(x: int, y: int, b: int)
    requires x <= y && b > 0
    ensures x * b <= y * b
  {
  }

  lemma FloorUnique(a: int, m: int, p: int)
    requires m > 0 && p * m <= a < (p + 1) * m
    ensures a / m == p
  {
    var q := a / m;
    if q < p {
      MulMono(q + 1, p, m);
    } else if q > p {
      MulMono(p + 1, q, m);
    }
  }

  /** The coarseness of a bucket. */
  function Rank(r: Ago): nat
  {
    match r
    case JustNow => 0
    case MinutesAgo(_) => 1
    case HoursAgo(_) => 2
    case DaysAgo(_) => 3
    case DateOf(_) => 4
  }

  /** A larger difference never selects a finer unit, and within one unit
      never a smaller count. */
  lemma BucketsMonotone(now: int, t1: int, t2: int)
    requires now - t1 <= now - t2
    ensures Rank(FormatRelativeTime(now, t1)) <= Rank(FormatRelativeTime(now, t2))
    ensures var r1, r2 := FormatRelativeTime(now, t1), FormatRelativeTime(now, t2);
      Rank(r1) == Rank(r2) && (r1.MinutesAgo? || r1.HoursAgo? || r1.DaysAgo?) ==> r1.n <= r2.n
  {
    var r1, r2 := FormatRelativeTime(now, t1), FormatRelativeTime(now, t2);
    if r1.MinutesAgo? && r2.MinutesAgo? && r1.n > r2.n {
      MulMono(r2.n + 1, r1.n, MinuteMs);
    }
    if r1.HoursAgo? && r2.HoursAgo? && r1.n > r2.n {
      MulMono(r2.n + 1, r1.n, HourMs);
    }
    if r1.DaysAgo? && r2.DaysAgo? && r1.n > r2.n {
      MulMono(r2.n + 1, r1.n, DayMs);
    }
  }

  /** A moment in the future reads as "a moment ago". */
  lemma FutureIsJustNow(now: int, time: int)
    requires time > now
    ensures FormatRelativeTime(now, time) == JustNow
  {
  }
}

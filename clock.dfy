/**
 * The integer clock and calendar of the time tracker.
 *
 * Instants are whole milliseconds since the Unix epoch (the application reads
 * them as floating-point seconds from the system clock); calendar dates are
 * day numbers, day 0 being 1970-01-01 in local time.
 */
module Clock {
  const MsPerSecond: int := 1000
  const MsPerDay: int := 86_400_000

  /**
   * Whole seconds in a span of `ms` milliseconds, as Python's `int()` gives
   * them for a float: the fraction is dropped toward zero, so a negative span
   * (the clock was set back) rounds up, not down.
   */
  function TruncSeconds(ms: int): (r: int)
    ensures ms >= 0 ==> 0 <= r && r * MsPerSecond <= ms < r * MsPerSecond + MsPerSecond
    ensures ms < 0 ==> r <= 0 && r * MsPerSecond - MsPerSecond < ms <= r * MsPerSecond
  {
    if ms >= 0 then ms / MsPerSecond else -((-ms) / MsPerSecond)
  }

  /** The local calendar day of instant `t`, for a fixed offset from UTC. */
  function LocalDay(t: int, utcOffset: int): (d: int)
    ensures d * MsPerDay <= t + utcOffset < d * MsPerDay + MsPerDay
  {
    (t + utcOffset) / MsPerDay
  }

  /**
   * Python's `date.weekday()`: 0 for Monday up to 6 for Sunday.
   * 1970-01-05 (day 4) was a Monday, so the weekday is the distance, modulo 7,
   * from day 4.
   */
  function Weekday(day: int): (w: int)
    ensures 0 <= w < 7
    ensures (day - w - 4) % 7 == 0
  {
    (day + 3) % 7
  }

  /** Consecutive days have consecutive weekdays, Sunday wrapping to Monday. */
  lemma WeekdayNext(day: int)
    ensures Weekday(day + 1) == (Weekday(day) + 1) % 7
  {
  }

  /** `today - timedelta(days=today.weekday())`: the Monday that begins the week of `today`. */
  function WeekStart(today: int): (monday: int)
    ensures Weekday(monday) == 0
    ensures monday <= today <= monday + 6
  {
    WeekdayShift(today, Weekday(today));
    today - Weekday(today)
  }

  /** Going back `k` days, for `k` no larger than the weekday, lowers the weekday by `k`. */
  lemma WeekdayShift(day: int, k: int)
    requires 0 <= k <= Weekday(day)
    ensures Weekday(day - k) == Weekday(day) - k
  {
    var q := (day + 3) / 7;
    assert day + 3 == 7 * q + Weekday(day);
    assert day - k + 3 == 7 * q + (Weekday(day) - k);
  }

  /** The week start is the only Monday in the seven days that end with `today`. */
  lemma {:induction false} WeekStartUnique(today: int, monday: int)
    requires Weekday(monday) == 0
    requires monday <= today <= monday + 6
    ensures monday == WeekStart(today)
  {
    var w := WeekStart(today);
    var q1 := (monday + 3) / 7;
    var q2 := (w + 3) / 7;
    assert monday + 3 == 7 * q1;
    assert w + 3 == 7 * q2;
    assert -6 <= monday - w <= 6;
    assert 7 * (q1 - q2) == monday - w;
    assert q1 == q2;
  }
}

/**
 * The daily and weekly rollups of `show_totals`: `SUM(duration)` over the
 * entries whose start date matches, `or 0` turning an empty sum into zero.
 */
module Totals {
  import opened Clock
  import opened Store

  /** The two `WHERE` conditions on `date(start_time)`. */
  datatype DayFilter = OnDay(day: int) | FromDay(first: int)

  predicate Matches(f: DayFilter, day: int)
  {
    match f
    case OnDay(d) => day == d
    case FromDay(first) => day >= first
  }

  /** The local start date of an entry, as SQLite's `date(start_time)` reads it. */
  function StartDay(e: Entry, utcOffset: int): int
  {
    LocalDay(e.start, utcOffset)
  }

  /** `SUM(duration) FROM entries WHERE <f>`, zero when nothing matches. */
  function SumWhere(es: seq<Entry>, utcOffset: int, f: DayFilter): int
  {
    if es == [] then 0
    else
      var last := es[|es| - 1];
      SumWhere(es[..|es| - 1], utcOffset, f)
        + (if Matches(f, StartDay(last, utcOffset)) then last.duration else 0)
  }

  ghost predicate NonNegativeDurations(es: seq<Entry>)
  {
    forall i :: 0 <= i < |es| ==> es[i].duration >= 0
  }

  /** `date(start_time) = today`. */
  function DailyTotal(es: seq<Entry>, today: int, utcOffset: int): int
  {
    SumWhere(es, utcOffset, OnDay(today))
  }

  /** `date(start_time) >= week_start`, with no upper bound. */
  function WeeklyTotal(es: seq<Entry>, today: int, utcOffset: int): int
  {
    SumWhere(es, utcOffset, FromDay(WeekStart(today)))
  }

  /** Appending an entry adds its duration to exactly the sums whose filter it matches. */
  lemma SumWhereAppend(es: seq<Entry>, e: Entry, utcOffset: int, f: DayFilter)
    ensures SumWhere(es + [e], utcOffset, f)
         == SumWhere(es, utcOffset, f) + (if Matches(f, StartDay(e, utcOffset)) then e.duration else 0)
  {
    assert (es + [e])[..|es|] == es;
  }

  /** With no matching entry the sum is zero (the `or 0` of the source). */
  lemma {:induction false} SumWhereNoMatch(es: seq<Entry>, utcOffset: int, f: DayFilter)
    requires forall i :: 0 <= i < |es| ==> !Matches(f, StartDay(es[i], utcOffset))
    ensures SumWhere(es, utcOffset, f) == 0
  {
    if es != [] {
      SumWhereNoMatch(es[..|es| - 1], utcOffset, f);
    }
  }

  /** A sum of non-negative durations is non-negative. */
  lemma {:induction false} SumWhereNonNegative(es: seq<Entry>, utcOffset: int, f: DayFilter)
    requires NonNegativeDurations(es)
    ensures SumWhere(es, utcOffset, f) >= 0
  {
    if es != [] {
      SumWhereNonNegative(es[..|es| - 1], utcOffset, f);
    }
  }

  /** A filter that admits more days gives a larger sum, when durations are non-negative. */
  lemma {:induction false} SumWhereMonotone(es: seq<Entry>, utcOffset: int, f: DayFilter, g: DayFilter)
    requires NonNegativeDurations(es)
    requires forall i :: 0 <= i < |es| ==>
               Matches(f, StartDay(es[i], utcOffset)) ==> Matches(g, StartDay(es[i], utcOffset))
    ensures SumWhere(es, utcOffset, f) <= SumWhere(es, utcOffset, g)
  {
    if es != [] {
      SumWhereMonotone(es[..|es| - 1], utcOffset, f, g);
    }
  }

  /** Today lies in this week, so today's total never exceeds the week's. */
  lemma DailyAtMostWeekly(es: seq<Entry>, today: int, utcOffset: int)
    requires NonNegativeDurations(es)
    ensures 0 <= DailyTotal(es, today, utcOffset) <= WeeklyTotal(es, today, utcOffset)
  {
    SumWhereNonNegative(es, utcOffset, OnDay(today));
    SumWhereMonotone(es, utcOffset, OnDay(today), FromDay(WeekStart(today)));
  }

  /** An entry that started before this week's Monday leaves the weekly total as it was. */
  lemma EarlierWeekExcluded(es: seq<Entry>, e: Entry, today: int, utcOffset: int)
    requires StartDay(e, utcOffset) < WeekStart(today)
    ensures WeeklyTotal(es + [e], today, utcOffset) == WeeklyTotal(es, today, utcOffset)
    ensures DailyTotal(es + [e], today, utcOffset) == DailyTotal(es, today, utcOffset)
  {
    SumWhereAppend(es, e, utcOffset, FromDay(WeekStart(today)));
    SumWhereAppend(es, e, utcOffset, OnDay(today));
  }
}

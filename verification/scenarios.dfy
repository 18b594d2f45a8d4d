/** Concrete runs of the anchors and of the report, worked out on the
    calendar model. */
module Scenarios {
  import opened Errors
  import opened Calendar
  import opened Timestamps
  import opened RelativeDelta
  import opened Anchors
  import opened Deltas

  /** Two days at or after `lo` that both fall on weekday `w` with no such
      day before them are the same day. */
  lemma FirstWeekdayIsUnique(lo: int, x: int, y: int, w: int)
    requires lo <= x && lo <= y
    requires WeekdayOfOrdinal(x) == w && WeekdayOfOrdinal(y) == w
    requires NoWeekdayBetween(lo, x, w) && NoWeekdayBetween(lo, y, w)
    ensures x == y
  {
  }

  /** Equal dates and equal times of day make equal timestamps. */
  lemma SameDayAndTime(a: DateTime, b: DateTime)
    requires Valid(a) && Valid(b) && SameTimeOfDay(a, b)
    requires ToOrdinal(a.date) == ToOrdinal(b.date)
    ensures a == b
  {
    OrdinalInjective(a.date, b.date);
  }

  /** Tuesday 2021-06-15 10:00 is followed by Monday 2021-06-21 10:00. */
  lemma NextMondayFromTuesday()
    ensures NextMonday(DateTime(Date(2021, 6, 15), 10, 0, 0, 0))
         == Ok(DateTime(Date(2021, 6, 21), 10, 0, 0, 0))
  {
    var now := DateTime(Date(2021, 6, 15), 10, 0, 0, 0);
    var want := DateTime(Date(2021, 6, 21), 10, 0, 0, 0);
    assert ToOrdinal(now.date) == 737956;
    assert ToOrdinal(want.date) == 737962;
    assert DateBefore(now.date, LastMonday);
    var r := NextMonday(now);
    MondaySixDaysOn(now, r.value, want);
  }

  /** From a Tuesday, the next Monday is six days on. */
  lemma MondaySixDaysOn(now: DateTime, got: DateTime, want: DateTime)
    requires Valid(now) && Valid(got) && Valid(want)
    requires SameTimeOfDay(got, now) && SameTimeOfDay(want, now)
    requires WeekdayOfOrdinal(ToOrdinal(now.date)) == 1
    requires ToOrdinal(want.date) == ToOrdinal(now.date) + 6
    requires WeekdayOfOrdinal(ToOrdinal(got.date)) == Monday
    requires ToOrdinal(now.date) + 1 <= ToOrdinal(got.date)
    requires NoWeekdayBetween(ToOrdinal(now.date) + 1, ToOrdinal(got.date), Monday)
    ensures got == want
  {
    MondayAfterTuesday(ToOrdinal(now.date), ToOrdinal(got.date));
    SameDayAndTime(got, want);
  }

  /** Day numbers only: the first Monday after a Tuesday is six days on. */
  lemma MondayAfterTuesday(n: int, g: int)
    requires WeekdayOfOrdinal(n) == 1 && WeekdayOfOrdinal(g) == Monday
    requires n + 1 <= g && NoWeekdayBetween(n + 1, g, Monday)
    ensures g == n + 6
  {
    var q := (n + 6) / 7;
    assert n + 6 == 7 * q + 1;
    WeekdayShift(q, 1, 6);
    assert WeekdayOfOrdinal(n + 6) == Monday;
    if g < n + 6 {
      WeekdayShift(q, 1, g - n);
    }
  }

  /** Wednesday 2021-06-16 09:30 ends its week on Friday 2021-06-18 09:30. */
  lemma EndOfWeekFromWednesday()
    ensures EndOfWeek(DateTime(Date(2021, 6, 16), 9, 30, 0, 0))
         == DateTime(Date(2021, 6, 18), 9, 30, 0, 0)
  {
    var now := DateTime(Date(2021, 6, 16), 9, 30, 0, 0);
    var want := DateTime(Date(2021, 6, 18), 9, 30, 0, 0);
    var n := ToOrdinal(now.date);
    assert n == 737957;
    assert ToOrdinal(want.date) == n + 2;
    var got := EndOfWeek(now);
    WeekdayJump(n, Friday);
    assert DaysToWeekday(WeekdayOfOrdinal(n), Friday) == 2;
    FirstWeekdayIsUnique(n, ToOrdinal(got.date), n + 2, Friday);
    SameDayAndTime(got, want);
  }

  /** In March the script already aims at the end of June. */
  lemma EndOfQuarterInMarch()
    ensures EndOfQuarter(DateTime(Date(2021, 3, 10), 8, 0, 0, 0))
         == DateTime(Date(2021, 6, 30), 8, 0, 0, 0)
  {
  }

  /** In August the requested 31st is clamped to September 30. */
  lemma EndOfQuarterInAugust()
    ensures EndOfQuarter(DateTime(Date(2021, 8, 20), 8, 0, 0, 0))
         == DateTime(Date(2021, 9, 30), 8, 0, 0, 0)
  {
  }

  /** A target one week ahead at the same time of day is reported as 7 days,
      1 week, 168 hours, 10080 minutes and 40 work hours. */
  lemma OneWeekAhead(now: DateTime, future: DateTime)
    requires Valid(now) && Valid(future) && SameTimeOfDay(now, future)
    requires ToOrdinal(future.date) == ToOrdinal(now.date) + 7
    ensures InterestingDeltas(future, now)[0].value == 7.0
    ensures InterestingDeltas(future, now)[1].value == 1.0
    ensures InterestingDeltas(future, now)[2].value == 168.0
    ensures InterestingDeltas(future, now)[4].value == 10080.0
    ensures InterestingDeltas(future, now)[6].value == 40.0
  {
    WholeDaysApart(now, future);
    ReportOfOneWeek(InterestingDeltas(future, now), TotalSeconds(now, future));
  }

  lemma ReportOfOneWeek(ms: seq<Metric>, s: real)
    requires s == 604800.0 && ms == Lines(Convert(s))
    ensures ms[0].value == 7.0 && ms[1].value == 1.0 && ms[2].value == 168.0 && ms[4].value == 10080.0 && ms[6].value == 40.0
  {
    OneWeek();
  }
}

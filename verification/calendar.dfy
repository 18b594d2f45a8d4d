/** The proleptic Gregorian calendar the script's dates live in: years 1 to
    9999, day numbers ("ordinals") counted from 0001-01-01 = 1, and Python's
    weekday numbering (Monday = 0 ... Sunday = 6). */
module Calendar {
  import opened Errors

  const MinYear: int := 1
  const MaxYear: int := 9999

  const Monday: int := 0
  const Friday: int := 4

  predicate IsLeap(y: int) {
    y % 4 == 0 && (y % 100 != 0 || y % 400 == 0)
  }

  function DaysInYear(y: int): int {
    if IsLeap(y) then 366 else 365
  }

  function DaysInMonth(y: int, m: int): (n: int)
    requires 1 <= m <= 12
    ensures 28 <= n <= 31
    ensures n == 31 <==> m in {1, 3, 5, 7, 8, 10, 12}
    ensures n == 30 <==> m in {4, 6, 9, 11}
    ensures n == 29 <==> m == 2 && IsLeap(y)
  {
    if m == 2 then (if IsLeap(y) then 29 else 28)
    else if m == 4 || m == 6 || m == 9 || m == 11 then 30
    else 31
  }

  datatype Date = Date(year: int, month: int, day: int)

  predicate ValidDate(d: Date) {
    && MinYear <= d.year <= MaxYear
    && 1 <= d.month <= 12
    && 1 <= d.day <= DaysInMonth(d.year, d.month)
  }

  /** Days in the whole years before year `y` (closed form, years >= 1). */
  function DaysBeforeYear(y: int): int
    requires y >= 1
  {
    var p := y - 1;
    p * 365 + p / 4 - p / 100 + p / 400
  }

  /** Cumulative lengths of the months of a common year, before month m. */
  const CommonDaysBefore: seq<int> := [0, 31, 59, 90, 120, 151, 181, 212, 243, 273, 304, 334]

  /** Days in the months of year `y` before month `m`. */
  function DaysBeforeMonth(y: int, m: int): int
    requires 1 <= m <= 12
  {
    CommonDaysBefore[m - 1] + (if m > 2 && IsLeap(y) then 1 else 0)
  }

  const MaxOrdinal: int := 3652059

  /** Day number of a date: 0001-01-01 is 1. */
  function ToOrdinal(d: Date): (n: int)
    requires ValidDate(d)
    ensures 1 <= n <= MaxOrdinal
  {
    DayOfYearBounds(d);
    YearBounds(d.year);
    DaysBeforeYear(d.year) + DaysBeforeMonth(d.year, d.month) + d.day
  }

  /** The ordinal of the last representable date, 9999-12-31. */
  lemma MaxOrdinalIsLastDay()
    ensures MaxOrdinal == DaysBeforeYear(MaxYear + 1)
    ensures ToOrdinal(Date(MaxYear, 12, 31)) == MaxOrdinal
  {
  }

  // ---------------------------------------------------------------------
  // Facts about the closed forms.

  /** One more year adds that year's length. */
  lemma YearStep(y: int)
    requires y >= 1
    ensures DaysBeforeYear(y + 1) == DaysBeforeYear(y) + DaysInYear(y)
  {
    var p := y - 1;
    assert y / 4 - p / 4 == (if y % 4 == 0 then 1 else 0);
    assert y / 100 - p / 100 == (if y % 100 == 0 then 1 else 0);
    assert y / 400 - p / 400 == (if y % 400 == 0 then 1 else 0);
  }

  /** Days before a later year are at least those before an earlier one plus
      a common year per year in between. */
  lemma {:induction false} YearsMonotone(a: int, b: int)
    requires 1 <= a <= b
    ensures DaysBeforeYear(b) >= DaysBeforeYear(a) + 365 * (b - a)
    decreases b - a
  {
    if a < b {
      YearStep(a);
      YearsMonotone(a + 1, b);
    }
  }

  lemma YearBounds(y: int)
    requires MinYear <= y <= MaxYear
    ensures 0 <= DaysBeforeYear(y)
    ensures DaysBeforeYear(y) + DaysInYear(y) <= MaxOrdinal
  {
    YearStep(y);
    YearsMonotone(y + 1, MaxYear + 1);
  }

  /** One more month adds that month's length; the twelve months fill the year. */
  lemma MonthStep(y: int, m: int)
    requires 1 <= m <= 12
    ensures m < 12 ==> DaysBeforeMonth(y, m + 1) == DaysBeforeMonth(y, m) + DaysInMonth(y, m)
    ensures m == 12 ==> DaysBeforeMonth(y, m) + DaysInMonth(y, m) == DaysInYear(y)
  {
  }

  lemma DayOfYearBounds(d: Date)
    requires ValidDate(d)
    ensures 1 <= DaysBeforeMonth(d.year, d.month) + d.day <= DaysInYear(d.year)
  {
    MonthsMonotone(d.year, d.month, 12);
    MonthStep(d.year, 12);
  }

  lemma {:induction false} MonthsMonotone(y: int, a: int, b: int)
    requires 1 <= a <= b <= 12
    ensures DaysBeforeMonth(y, b) >= DaysBeforeMonth(y, a) + DaysInMonth(y, a) * (if a < b then 1 else 0)
    decreases b - a
  {
    if a < b {
      MonthStep(y, a);
      if a + 1 < b {
        MonthsMonotone(y, a + 1, b);
      }
    }
  }

  // ---------------------------------------------------------------------
  // From a day number back to year, month and day.

  /** Days in the years from `a` up to, not including, `b`, year by year. */
  function YearsSpan(a: int, b: int): (n: int)
    requires 1 <= a <= b
    ensures n >= 365 * (b - a)
    decreases b - a
  {
    if a == b then 0 else DaysInYear(a) + YearsSpan(a + 1, b)
  }

  /** Splits day `k` (1-based) counted from the start of year `y` into a
      year and a day of that year, walking forward one year at a time. */
  function YearAndDay(k: int, y: int): (r: (int, int))
    requires 1 <= k && y >= 1
    ensures y <= r.0 && 1 <= r.1 <= DaysInYear(r.0)
    ensures YearsSpan(y, r.0) + r.1 == k
    decreases k
  {
    if k <= DaysInYear(y) then (y, k)
    else YearAndDay(k - DaysInYear(y), y + 1)
  }

  /** Splits day `k` (1-based) of year `y`, counted from the start of month
      `m`, into a month and a day of that month. */
  function MonthAndDay(y: int, k: int, m: int): (r: (int, int))
    requires 1 <= m <= 12 && 1 <= k
    requires DaysBeforeMonth(y, m) + k <= DaysInYear(y)
    ensures m <= r.0 <= 12 && 1 <= r.1 <= DaysInMonth(y, r.0)
    ensures DaysBeforeMonth(y, r.0) + r.1 == DaysBeforeMonth(y, m) + k
    decreases 12 - m
  {
    MonthStep(y, m);
    if k <= DaysInMonth(y, m) then (m, k)
    else MonthAndDay(y, k - DaysInMonth(y, m), m + 1)
  }

  /** The date with a given day number. */
  function FromOrdinal(n: int): (d: Date)
    requires 1 <= n <= MaxOrdinal
    ensures ValidDate(d)
    ensures ToOrdinal(d) == n
  {
    var yk := YearAndDay(n, MinYear);
    YearsSpanIsClosedForm(MinYear, yk.0);
    if yk.0 > MaxYear then
      YearsMonotone(MaxYear + 1, yk.0);
      assert false;
      Date(MinYear, 1, 1)
    else
      var md := MonthAndDay(yk.0, yk.1, 1);
      Date(yk.0, md.0, md.1)
  }

  /** The year-by-year sum agrees with the closed form. */
  lemma {:induction false} YearsSpanIsClosedForm(a: int, b: int)
    requires 1 <= a <= b
    ensures YearsSpan(a, b) == DaysBeforeYear(b) - DaysBeforeYear(a)
    decreases b - a
  {
    if a < b {
      YearStep(a);
      YearsSpanIsClosedForm(a + 1, b);
    }
  }

  /** The year walk started at `y0` finds day `k` of year `y`. */
  lemma {:induction false} YearAndDayFinds(y0: int, y: int, k: int)
    requires 1 <= y0 <= y
    requires 1 <= k <= DaysInYear(y)
    ensures YearAndDay(YearsSpan(y0, y) + k, y0) == (y, k)
    decreases y - y0
  {
    if y0 < y {
      YearAndDayFinds(y0 + 1, y, k);
    }
  }

  lemma {:induction false} MonthAndDayFinds(y: int, m0: int, m: int, k: int)
    requires 1 <= m0 <= m <= 12
    requires 1 <= k <= DaysInMonth(y, m)
    ensures DaysBeforeMonth(y, m) - DaysBeforeMonth(y, m0) + k >= 1
    ensures DaysBeforeMonth(y, m) + k <= DaysInYear(y)
    ensures MonthAndDay(y, DaysBeforeMonth(y, m) - DaysBeforeMonth(y, m0) + k, m0) == (m, k)
    decreases m - m0
  {
    MonthsMonotone(y, m, 12);
    MonthStep(y, 12);
    MonthsMonotone(y, m0, m);
    if m0 < m {
      MonthStep(y, m0);
      MonthAndDayFinds(y, m0 + 1, m, k);
    }
  }

  /** Every valid date is recovered from its day number. */
  lemma OrdinalRoundTrip(d: Date)
    requires ValidDate(d)
    ensures FromOrdinal(ToOrdinal(d)) == d
  {
    var k := DaysBeforeMonth(d.year, d.month) + d.day;
    YearOfOrdinal(d);
    MonthOfDayOfYear(d);
    assert YearAndDay(ToOrdinal(d), MinYear) == (d.year, k);
  }

  /** The year walk recovers the year and the day of the year. */
  lemma YearOfOrdinal(d: Date)
    requires ValidDate(d)
    ensures YearAndDay(ToOrdinal(d), MinYear) == (d.year, DaysBeforeMonth(d.year, d.month) + d.day)
  {
    DayOfYearBounds(d);
    YearWalkFinds(d.year, DaysBeforeMonth(d.year, d.month) + d.day);
  }

  /** The year walk from year 1 finds day `k` of year `y`. */
  lemma YearWalkFinds(y: int, k: int)
    requires y >= MinYear && 1 <= k <= DaysInYear(y)
    ensures YearAndDay(DaysBeforeYear(y) + k, MinYear) == (y, k)
  {
    YearAndDayFinds(MinYear, y, k);
    YearsSpanIsClosedForm(MinYear, y);
  }

  /** The month walk recovers the month and the day of the month. */
  lemma MonthOfDayOfYear(d: Date)
    requires ValidDate(d)
    ensures 1 <= DaysBeforeMonth(d.year, d.month) + d.day <= DaysInYear(d.year)
    ensures MonthAndDay(d.year, DaysBeforeMonth(d.year, d.month) + d.day, 1) == (d.month, d.day)
  {
    DayOfYearBounds(d);
    MonthAndDayFinds(d.year, 1, d.month, d.day);
  }

  /** Day numbers are injective on valid dates. */
  lemma OrdinalInjective(a: Date, b: Date)
    requires ValidDate(a) && ValidDate(b)
    ensures ToOrdinal(a) == ToOrdinal(b) <==> a == b
  {
    if ToOrdinal(a) == ToOrdinal(b) {
      OrdinalRoundTrip(a);
      OrdinalRoundTrip(b);
    }
  }

  // ---------------------------------------------------------------------
  // Calendar order and weekdays.

  /** Python's date comparison: lexicographic on (year, month, day). */
  predicate DateBefore(a: Date, b: Date) {
    || a.year < b.year
    || (a.year == b.year && a.month < b.month)
    || (a.year == b.year && a.month == b.month && a.day < b.day)
  }

  /** Day numbers order dates exactly as the calendar does. */
  lemma OrdinalOrder(a: Date, b: Date)
    requires ValidDate(a) && ValidDate(b)
    ensures DateBefore(a, b) <==> ToOrdinal(a) < ToOrdinal(b)
  {
    if a.year != b.year {
      if a.year < b.year { EarlierYear(a, b); } else { EarlierYear(b, a); }
    } else if a.month != b.month {
      if a.month < b.month { EarlierMonth(a, b); } else { EarlierMonth(b, a); }
    }
  }

  lemma EarlierYear(a: Date, b: Date)
    requires ValidDate(a) && ValidDate(b) && a.year < b.year
    ensures ToOrdinal(a) < ToOrdinal(b)
  {
    DayOfYearBounds(a);
    YearStep(a.year);
    YearsMonotone(a.year + 1, b.year);
  }

  lemma EarlierMonth(a: Date, b: Date)
    requires ValidDate(a) && ValidDate(b) && a.year == b.year && a.month < b.month
    ensures ToOrdinal(a) < ToOrdinal(b)
  {
    MonthsMonotone(a.year, a.month, b.month);
  }

  function WeekdayOfOrdinal(n: int): (w: int)
    ensures 0 <= w < 7
  {
    (n + 6) % 7
  }

  /** The weekday advances by one per day, Sunday (6) wrapping to Monday (0). */
  lemma WeekdayAdvances(n: int)
    ensures WeekdayOfOrdinal(n + 1) == (WeekdayOfOrdinal(n) + 1) % 7
  {
  }

  /** Python's date.weekday(). */
  function Weekday(d: Date): (w: int)
    requires ValidDate(d)
    ensures 0 <= w < 7
  {
    WeekdayOfOrdinal(ToOrdinal(d))
  }

  /** 0001-01-01 is a Monday and 9999-12-31 is a Friday. */
  lemma WeekdayOfCalendarEnds()
    ensures Weekday(Date(MinYear, 1, 1)) == Monday
    ensures Weekday(Date(MaxYear, 12, 31)) == Friday
  {
    MaxOrdinalIsLastDay();
  }

  /** Adding a whole number of days; Python raises OverflowError when the
      result leaves the years 1 to 9999. */
  function AddDays(d: Date, n: int): (r: Result<Date>)
    requires ValidDate(d)
    ensures r.Ok? <==> 1 <= ToOrdinal(d) + n <= MaxOrdinal
    ensures r.Ok? ==> ValidDate(r.value) && ToOrdinal(r.value) == ToOrdinal(d) + n
    ensures r.Err? ==> r.error == Overflow
  {
    var o := ToOrdinal(d) + n;
    if 1 <= o <= MaxOrdinal then Ok(FromOrdinal(o)) else Err(Overflow)
  }
}

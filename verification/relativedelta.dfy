/** The part of dateutil's relativedelta addition the anchors rely on: an
    absolute month and day (the day clamped to the month's length), then a
    relative number of days, then a move forward to a weekday. Year, years,
    months, leap days and the time-of-day fields are never set by the script
    and are not modelled. */
module RelativeDelta {
  import opened Errors
  import opened Calendar
  import opened Timestamps

  /** `weekday` is an nth = +1 weekday: the given day on or after the date. */
  datatype RelDelta = RelDelta(month: Option<int>, day: Option<int>, days: int, weekday: Option<int>)

  predicate WellFormed(rd: RelDelta) {
    && (rd.month.Some? ==> 1 <= rd.month.value <= 12)
    && (rd.day.Some? ==> rd.day.value >= 1)
    && (rd.weekday.Some? ==> 0 <= rd.weekday.value < 7)
  }

  function Min(a: int, b: int): int {
    if a <= b then a else b
  }

  /** The absolute step: month replaced when given, then the day (given or
      kept) clamped to the length of that month. */
  function ReplaceFields(d: Date, rd: RelDelta): (r: Date)
    requires ValidDate(d) && WellFormed(rd)
    ensures ValidDate(r)
    ensures r.year == d.year
    ensures r.month == rd.month.ValueOr(d.month)
    ensures r.day <= rd.day.ValueOr(d.day)
    ensures r.day < rd.day.ValueOr(d.day) ==> r.day == DaysInMonth(r.year, r.month)
    ensures rd.month.None? && rd.day.None? ==> r == d
  {
    var month := rd.month.ValueOr(d.month);
    Date(d.year, month, Min(DaysInMonth(d.year, month), rd.day.ValueOr(d.day)))
  }

  /** Days forward from a day with weekday `from` to the first day, on or
      after it, with weekday `to`. */
  function DaysToWeekday(from: int, to: int): int {
    (7 - from + to) % 7
  }

  /** No day with a number in [lo, hi) falls on weekday `w`. */
  predicate NoWeekdayBetween(lo: int, hi: int, w: int) {
    forall n :: lo <= n < hi ==> WeekdayOfOrdinal(n) != w
  }

  /** The jump lands on the wanted weekday and passes no earlier one. */
  lemma WeekdayJump(n: int, w: int)
    requires 0 <= w < 7
    ensures 0 <= DaysToWeekday(WeekdayOfOrdinal(n), w) < 7
    ensures WeekdayOfOrdinal(n + DaysToWeekday(WeekdayOfOrdinal(n), w)) == w
    ensures NoWeekdayBetween(n, n + DaysToWeekday(WeekdayOfOrdinal(n), w), w)
  {
    var r := WeekdayOfOrdinal(n);
    var q := (n + 6) / 7;
    assert n + 6 == 7 * q + r;
    var j := DaysToWeekday(r, w);
    assert j == if w >= r then w - r else 7 - r + w;
    forall m | n <= m < n + j
      ensures WeekdayOfOrdinal(m) != w
    {
      WeekdayShift(q, r, m - n);
    }
    WeekdayShift(q, r, j);
  }

  /** Weekdays advance by one per day, wrapping after Sunday. */
  lemma WeekdayShift(q: int, r: int, i: int)
    requires 0 <= r < 7 && 0 <= i < 7
    ensures (7 * q + r + i) % 7 == (if r + i < 7 then r + i else r + i - 7)
  {
    if r + i < 7 {
      assert 7 * q + r + i == 7 * q + (r + i);
    } else {
      assert 7 * q + r + i == 7 * (q + 1) + (r + i - 7);
    }
  }

  /** The weekday step: forward to the first day on or after `d` that falls
      on weekday `w`. */
  function MoveToWeekday(d: Date, w: int): (r: Result<Date>)
    requires ValidDate(d) && 0 <= w < 7
    ensures r.Err? ==> r.error == Overflow
    ensures r.Ok? <==> ToOrdinal(d) + DaysToWeekday(Weekday(d), w) <= MaxOrdinal
    ensures r.Ok? ==>
              && ValidDate(r.value)
              && Weekday(r.value) == w
              && ToOrdinal(d) <= ToOrdinal(r.value) < ToOrdinal(d) + 7
              && NoWeekdayBetween(ToOrdinal(d), ToOrdinal(r.value), w)
  {
    var n := ToOrdinal(d);
    var j := DaysToWeekday(Weekday(d), w);
    WeekdayJump(n, w);
    var landed := AddDays(d, j);
    assert landed.Ok? ==> ToOrdinal(landed.value) == n + j;
    landed
  }

  /** The day number the absolute and relative steps reach. */
  function Base(t: DateTime, rd: RelDelta): int
    requires Valid(t) && WellFormed(rd)
  {
    ToOrdinal(ReplaceFields(t.date, rd)) + rd.days
  }

  /** The day number all three steps reach. */
  function Landing(t: DateTime, rd: RelDelta): int
    requires Valid(t) && WellFormed(rd)
  {
    var b := Base(t, rd);
    if rd.weekday.None? then b else b + DaysToWeekday(WeekdayOfOrdinal(b), rd.weekday.value)
  }

  /** The landing day is on the requested weekday, within a week of the base,
      with no earlier day of that weekday in between. */
  lemma LandingIsNextWeekday(t: DateTime, rd: RelDelta)
    requires Valid(t) && WellFormed(rd)
    ensures rd.weekday.None? ==> Landing(t, rd) == Base(t, rd)
    ensures rd.weekday.Some? ==>
              && WeekdayOfOrdinal(Landing(t, rd)) == rd.weekday.value
              && Base(t, rd) <= Landing(t, rd) < Base(t, rd) + 7
              && NoWeekdayBetween(Base(t, rd), Landing(t, rd), rd.weekday.value)
  {
    if rd.weekday.Some? {
      WeekdayJump(Base(t, rd), rd.weekday.value);
    }
  }

  /** `t + rd`: fails with an overflow exactly when the base or the landing
      day falls outside the years 1 to 9999, and otherwise lands on the
      landing day at the time of day of `t`. */
  function Apply(t: DateTime, rd: RelDelta): (r: Result<DateTime>)
    requires Valid(t) && WellFormed(rd)
    ensures r.Ok? <==> 1 <= Base(t, rd) <= MaxOrdinal && Landing(t, rd) <= MaxOrdinal
    ensures r.Err? ==> r.error == Overflow
    ensures r.Ok? ==> Valid(r.value) && SameTimeOfDay(r.value, t) && ToOrdinal(r.value.date) == Landing(t, rd)
  {
    var b := Base(t, rd);
    var shifted := AddDays(ReplaceFields(t.date, rd), rd.days);
    assert shifted.Ok? <==> 1 <= b <= MaxOrdinal;
    if shifted.Err? then Err(shifted.error)
    else
      assert ToOrdinal(shifted.value) == b;
      if rd.weekday.None? then Ok(t.(date := shifted.value))
      else
        var landed := MoveToWeekday(shifted.value, rd.weekday.value);
        assert landed.Ok? <==> Landing(t, rd) <= MaxOrdinal;
        if landed.Err? then Err(landed.error)
        else Ok(t.(date := landed.value))
  }

  /** Without absolute fields the base is the reference day moved by `days`. */
  lemma BaseWithoutAbsolute(t: DateTime, rd: RelDelta)
    requires Valid(t) && WellFormed(rd)
    requires rd.month.None? && rd.day.None?
    ensures Base(t, rd) == ToOrdinal(t.date) + rd.days
  {
  }

  /** With only absolute fields the result is the replaced, clamped date and
      never an overflow. */
  lemma ApplyAbsoluteOnly(t: DateTime, rd: RelDelta)
    requires Valid(t) && WellFormed(rd)
    requires rd.days == 0 && rd.weekday.None?
    ensures Apply(t, rd) == Ok(t.(date := ReplaceFields(t.date, rd)))
  {
    var r := Apply(t, rd);
    OrdinalInjective(r.value.date, ReplaceFields(t.date, rd));
  }
}

/** The date anchors of `0001_till.py`: each maps a reference timestamp
    ("now", passed in rather than read from the clock) to a target. */
module Anchors {
  import opened Errors
  import opened Calendar
  import opened Timestamps
  import opened RelativeDelta

  // ---------------------------------------------------------------------
  // end_of_day

  /** `now.replace(hour=17, minute=0, second=0)`: microseconds are kept. */
  function EndOfDay(now: DateTime): (r: DateTime)
    requires Valid(now)
    ensures Valid(r)
    ensures r.date == now.date
    ensures r.hour == 17 && r.minute == 0 && r.second == 0
    ensures r.microsecond == now.microsecond
  {
    now.(hour := 17, minute := 0, second := 0)
  }

  /** There is no roll-over: the anchor is earlier than the reference exactly
      when the reference is already past 17:00:00 on the seconds clock. */
  lemma EndOfDayEarlierIffPastFive(now: DateTime)
    requires Valid(now)
    ensures Before(EndOfDay(now), now) <==> (now.hour, now.minute, now.second) != (17, 0, 0) && now.hour >= 17
    ensures EndOfDay(EndOfDay(now)) == EndOfDay(now)
  {
  }

  // ---------------------------------------------------------------------
  // end_of_week

  const FridayRule: RelDelta := RelDelta(None, None, 0, Some(Friday))

  /** The last representable day is a Friday, so a Friday on or after any
      representable day is representable. */
  lemma FridayInRange(n: int)
    requires 1 <= n <= MaxOrdinal
    ensures n + DaysToWeekday(WeekdayOfOrdinal(n), Friday) <= MaxOrdinal
  {
    WeekdayJump(n, Friday);
    assert WeekdayOfOrdinal(MaxOrdinal) == Friday;
  }

  /** `now + relativedelta(weekday=FRIDAY)`: the first Friday on or after
      the reference date, at the reference's time of day. */
  function EndOfWeek(now: DateTime): (r: DateTime)
    requires Valid(now)
    ensures Valid(r) && SameTimeOfDay(r, now)
    ensures Weekday(r.date) == Friday
    ensures ToOrdinal(now.date) <= ToOrdinal(r.date) <= ToOrdinal(now.date) + 6
    ensures NoWeekdayBetween(ToOrdinal(now.date), ToOrdinal(r.date), Friday)
    ensures !Before(r, now)
    ensures Weekday(now.date) == Friday ==> r == now
  {
    FridayRuleInRange(now);
    var r := Apply(now, FridayRule).value;
    FridayRuleLands(now, r);
    r
  }

  /** Adding `relativedelta(weekday=FRIDAY)` never overflows. */
  lemma FridayRuleInRange(now: DateTime)
    requires Valid(now)
    ensures Apply(now, FridayRule).Ok?
  {
    FridayInRange(ToOrdinal(now.date));
    BaseWithoutAbsolute(now, FridayRule);
  }

  /** Where that addition lands. */
  lemma FridayRuleLands(now: DateTime, landed: DateTime)
    requires Valid(now) && Apply(now, FridayRule) == Ok(landed)
    ensures Valid(landed) && SameTimeOfDay(landed, now)
    ensures Weekday(landed.date) == Friday
    ensures ToOrdinal(now.date) <= ToOrdinal(landed.date) <= ToOrdinal(now.date) + 6
    ensures NoWeekdayBetween(ToOrdinal(now.date), ToOrdinal(landed.date), Friday)
    ensures !Before(landed, now)
    ensures Weekday(now.date) == Friday ==> landed == now
  {
    BaseWithoutAbsolute(now, FridayRule);
    LandingIsNextWeekday(now, FridayRule);
    BeforeIsTimeLine(landed, now);
    OrdinalInjective(landed.date, now.date);
  }

  // ---------------------------------------------------------------------
  // next_monday

  const MondayRule: RelDelta := RelDelta(None, None, 1, Some(Monday))

  /** The last representable Monday, 9999-12-27. */
  const LastMonday: Date := Date(MaxYear, 12, 27)

  lemma LastMondayFacts()
    ensures ValidDate(LastMonday)
    ensures ToOrdinal(LastMonday) == MaxOrdinal - 4
    ensures Weekday(LastMonday) == Monday
  {
  }

  /** A Monday on or after day `b` is representable exactly when `b` is not
      after the last representable Monday. */
  lemma MondayInRange(b: int)
    requires 1 <= b <= MaxOrdinal + 1
    ensures b + DaysToWeekday(WeekdayOfOrdinal(b), Monday) <= MaxOrdinal <==> b <= MaxOrdinal - 4
  {
    WeekdayJump(b, Monday);
    if b <= MaxOrdinal - 4 {
      assert WeekdayOfOrdinal(MaxOrdinal - 4) == Monday;
    }
  }

  /** `now + relativedelta(days=1, weekday=MONDAY)`: the first Monday strictly
      after the reference date, at the reference's time of day. Python raises
      OverflowError when that Monday would fall after 9999-12-31. */
  function NextMonday(now: DateTime): (r: Result<DateTime>)
    requires Valid(now)
    ensures r.Ok? <==> DateBefore(now.date, LastMonday)
    ensures r.Err? ==> r.error == Overflow
    ensures r.Ok? ==>
              && Valid(r.value) && SameTimeOfDay(r.value, now)
              && Weekday(r.value.date) == Monday
              && ToOrdinal(now.date) + 1 <= ToOrdinal(r.value.date) <= ToOrdinal(now.date) + 7
              && NoWeekdayBetween(ToOrdinal(now.date) + 1, ToOrdinal(r.value.date), Monday)
              && Before(now, r.value)
    ensures r.Ok? && Weekday(now.date) == Monday ==> ToOrdinal(r.value.date) == ToOrdinal(now.date) + 7
  {
    var res := Apply(now, MondayRule);
    MondayRuleInRange(now);
    if res.Ok? then
      MondayRuleLands(now, res.value);
      res
    else
      res
  }

  /** The rule overflows exactly from the last representable Monday on. */
  lemma MondayRuleInRange(now: DateTime)
    requires Valid(now)
    ensures Apply(now, MondayRule).Ok? <==> DateBefore(now.date, LastMonday)
  {
    var n := ToOrdinal(now.date);
    LastMondayFacts();
    OrdinalOrder(now.date, LastMonday);
    assert DateBefore(now.date, LastMonday) <==> n + 1 <= MaxOrdinal - 4;
    BaseWithoutAbsolute(now, MondayRule);
    var b := Base(now, MondayRule);
    assert b == n + 1;
    MondayInRange(b);
    assert Landing(now, MondayRule) == b + DaysToWeekday(WeekdayOfOrdinal(b), Monday);
  }

  /** Where the rule lands when it does not overflow. */
  lemma MondayRuleLands(now: DateTime, landed: DateTime)
    requires Valid(now) && Apply(now, MondayRule) == Ok(landed)
    ensures Valid(landed) && SameTimeOfDay(landed, now)
    ensures Weekday(landed.date) == Monday
    ensures ToOrdinal(now.date) + 1 <= ToOrdinal(landed.date) <= ToOrdinal(now.date) + 7
    ensures NoWeekdayBetween(ToOrdinal(now.date) + 1, ToOrdinal(landed.date), Monday)
    ensures Before(now, landed)
    ensures Weekday(now.date) == Monday ==> ToOrdinal(landed.date) == ToOrdinal(now.date) + 7
  {
    BaseWithoutAbsolute(now, MondayRule);
    LandingIsNextWeekday(now, MondayRule);
    MondayLanding(now, landed);
  }

  lemma MondayLanding(now: DateTime, landed: DateTime)
    requires Valid(now) && Valid(landed) && SameTimeOfDay(landed, now)
    requires WeekdayOfOrdinal(ToOrdinal(landed.date)) == Monday
    requires ToOrdinal(now.date) + 1 <= ToOrdinal(landed.date) <= ToOrdinal(now.date) + 7
    ensures Before(now, landed)
    ensures Weekday(now.date) == Monday ==> ToOrdinal(landed.date) == ToOrdinal(now.date) + 7
  {
    BeforeIsTimeLine(now, landed);
    NextMondayFromMonday(ToOrdinal(now.date), ToOrdinal(landed.date));
  }

  /** From a Monday, the next Monday strictly after it is a week later. */
  lemma NextMondayFromMonday(n: int, m: int)
    requires WeekdayOfOrdinal(m) == Monday
    requires n + 1 <= m <= n + 7
    ensures WeekdayOfOrdinal(n) == Monday ==> m == n + 7
  {
    var q := (n + 6) / 7;
    if WeekdayOfOrdinal(n) == Monday && m < n + 7 {
      assert n + 6 == 7 * q;
      WeekdayShift(q, 0, m - n);
    }
  }

  // ---------------------------------------------------------------------
  // end_of_quarter

  /** The relativedelta the script picks from the reference month. */
  function QuarterRule(month: int): (rd: RelDelta)
    ensures WellFormed(rd)
    ensures rd.days == 0 && rd.weekday.None?
    ensures rd.month == Some(QuarterEnd(month).0)
    ensures rd.day.Some? && rd.day.value >= QuarterEnd(month).1
    ensures 1 <= month <= 12 ==> month <= rd.month.value
  {
    if month < 3 then RelDelta(Some(3), Some(31), 0, None)
    else if month < 6 then RelDelta(Some(6), Some(30), 0, None)
    else if month < 9 then RelDelta(Some(9), Some(31), 0, None)
    else RelDelta(Some(12), Some(31), 0, None)
  }

  /** Month and day of the quarter end the script lands on, as a table.
      March, June and September map to the end of the FOLLOWING quarter. */
  function QuarterEnd(month: int): (int, int) {
    if month <= 2 then (3, 31)
    else if month <= 5 then (6, 30)
    else if month <= 8 then (9, 30)
    else (12, 31)
  }

  /** The replaced, clamped date is the table's quarter end, the last day of
      a month that closes a quarter, and not before the reference date. */
  lemma QuarterRuleLands(d: Date)
    requires ValidDate(d)
    ensures var e := ReplaceFields(d, QuarterRule(d.month));
            && (e.month, e.day) == QuarterEnd(d.month)
            && e.month % 3 == 0 && e.day == DaysInMonth(e.year, e.month)
            && !DateBefore(e, d)
  {
  }

  /** `now + relativedelta(month=M, day=D)` for the rule above. */
  function EndOfQuarter(now: DateTime): (r: DateTime)
    requires Valid(now)
    ensures Valid(r) && SameTimeOfDay(r, now)
    ensures r.date.year == now.date.year
    ensures (r.date.month, r.date.day) == QuarterEnd(now.date.month)
    ensures r.date.month % 3 == 0 && r.date.day == DaysInMonth(r.date.year, r.date.month)
    ensures !Before(r, now)
  {
    ApplyAbsoluteOnly(now, QuarterRule(now.date.month));
    QuarterRuleLands(now.date);
    Apply(now, QuarterRule(now.date.month)).value
  }
}

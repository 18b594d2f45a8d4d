/** The delta converter of `0001_till.py`: one signed duration, in seconds,
    turned into the unit metrics the script reports. Durations and metrics
    are exact reals; the floating-point rounding of the divisions is not
    modelled. */
module Deltas {
  import opened Timestamps

  /** Python 2's `round`: to the nearest integer, halves away from zero. */
  function RoundHalfAwayFromZero(x: real): (n: int)
    ensures (n as real) - 0.5 <= x <= (n as real) + 0.5
    ensures x == (n as real) + 0.5 ==> x < 0.0
    ensures x == (n as real) - 0.5 ==> x > 0.0
  {
    if x >= 0.0 then (x + 0.5).Floor else -((0.5 - x).Floor)
  }

  /** The three conditions above pick out exactly one integer. */
  lemma RoundingIsUnique(x: real, m: int)
    requires (m as real) - 0.5 <= x <= (m as real) + 0.5
    requires x == (m as real) + 0.5 ==> x < 0.0
    requires x == (m as real) - 0.5 ==> x > 0.0
    ensures m == RoundHalfAwayFromZero(x)
  {
  }

  /** Rounding keeps the sign and maps integers to themselves. */
  lemma RoundingKeepsSign(x: real)
    ensures x >= 0.0 ==> RoundHalfAwayFromZero(x) >= 0
    ensures x <= 0.0 ==> RoundHalfAwayFromZero(x) <= 0
    ensures x == (x.Floor as real) ==> RoundHalfAwayFromZero(x) == x.Floor
  {
    if x == (x.Floor as real) {
      RoundingIsUnique(x, x.Floor);
    }
  }

  /** `diff_days`: `int(round(seconds / 86400))`. */
  function DiffDays(s: real): (n: int)
    ensures (n as real) * 86400.0 - 43200.0 <= s <= (n as real) * 86400.0 + 43200.0
    ensures s == (n as real) * 86400.0 + 43200.0 ==> s < 0.0
    ensures s == (n as real) * 86400.0 - 43200.0 ==> s > 0.0
    ensures s >= 0.0 ==> n >= 0
    ensures s <= 0.0 ==> n <= 0
  {
    RoundingKeepsSign(s / 86400.0);
    RoundHalfAwayFromZero(s / 86400.0)
  }

  /** A whole number of days is reported as exactly that number. */
  lemma DiffDaysOfWholeDays(k: int)
    ensures DiffDays((k as real) * 86400.0) == k
  {
    var x := (k as real) * 86400.0 / 86400.0;
    assert x == k as real;
    RoundingIsUnique(x, k);
  }

  /** `diff_weeks`. */
  function DiffWeeks(s: real): (w: real)
    ensures w * 604800.0 == s
  {
    s / 604800.0
  }

  /** `diff_hours`. */
  function DiffHours(s: real): (h: real)
    ensures h * 3600.0 == s
  {
    s / 3600.0
  }

  /** `diff_months`, with 30-day months. */
  function DiffMonths(s: real): (m: real)
    ensures m * 2592000.0 == s
  {
    s / 2592000.0
  }

  /** `diff_minutes`. */
  function DiffMinutes(s: real): (m: real)
    ensures m * 60.0 == s
  {
    s / 60.0
  }

  /** `diff_waking_hours`: 17 of every 24 hours are awake. */
  function DiffWakingHours(s: real): (h: real)
    ensures h * 3600.0 * 24.0 == 17.0 * s
  {
    (17.0 / 24.0) * s / 3600.0
  }

  /** `diff_work_hours`: computed from the weeks metric, 5 days of 8 hours. */
  function DiffWorkHours(s: real): (h: real)
    ensures h * 15120.0 == s
  {
    DiffWeeks(s) * 5.0 * 8.0
  }

  /** `diff_effective_work_hours`: from the weeks metric, 5 days of 4 hours. */
  function DiffEffectiveWorkHours(s: real): (h: real)
    ensures h * 30240.0 == s
  {
    DiffWeeks(s) * 5.0 * 4.0
  }

  /** How the metrics relate to one another over exact reals. */
  lemma MetricsAgree(s: real)
    ensures DiffHours(s) == 168.0 * DiffWeeks(s)
    ensures DiffMinutes(s) == 60.0 * DiffHours(s)
    ensures DiffMonths(s) == DiffWeeks(s) * 7.0 / 30.0
    ensures DiffWakingHours(s) == DiffHours(s) * 17.0 / 24.0
    ensures DiffWorkHours(s) == 40.0 * DiffWeeks(s)
    ensures DiffEffectiveWorkHours(s) == 20.0 * DiffWeeks(s)
    ensures DiffWorkHours(s) == 2.0 * DiffEffectiveWorkHours(s)
    ensures DiffDays(s) as real - 0.5 <= 7.0 * DiffWeeks(s) <= DiffDays(s) as real + 0.5
  {
  }

  /** A duration of exactly one week. */
  lemma OneWeek()
    ensures DiffDays(604800.0) == 7
    ensures DiffWeeks(604800.0) == 1.0
    ensures DiffHours(604800.0) == 168.0
    ensures DiffMinutes(604800.0) == 10080.0
    ensures DiffWorkHours(604800.0) == 40.0
  {
    DiffDaysOfWholeDays(7);
  }

  // ---------------------------------------------------------------------
  // The report of interesting_deltas.

  datatype Unit = Days | Weeks | Hours | Months | Minutes | WakingHours | WorkHours | EffectiveWorkHours

  /** All eight metrics of one duration. */
  datatype Metrics = Metrics(
    days: int, weeks: real, hours: real, months: real, minutes: real,
    wakingHours: real, workHours: real, effectiveWorkHours: real)

  /** The metrics of a duration of `s` seconds, related to one another. */
  function Convert(s: real): (m: Metrics)
    ensures m.weeks * 604800.0 == s
    ensures m.days as real - 0.5 <= 7.0 * m.weeks <= m.days as real + 0.5
    ensures 7.0 * m.weeks == m.days as real + 0.5 ==> s < 0.0
    ensures 7.0 * m.weeks == m.days as real - 0.5 ==> s > 0.0
    ensures m.hours == 168.0 * m.weeks
    ensures m.months == m.weeks * 7.0 / 30.0
    ensures m.minutes == 60.0 * m.hours
    ensures m.wakingHours == m.hours * 17.0 / 24.0
    ensures m.workHours == 40.0 * m.weeks
    ensures m.effectiveWorkHours == 20.0 * m.weeks
  {
    MetricsAgree(s);
    Metrics(DiffDays(s), DiffWeeks(s), DiffHours(s), DiffMonths(s), DiffMinutes(s),
            DiffWakingHours(s), DiffWorkHours(s), DiffEffectiveWorkHours(s))
  }

  /** The metrics are all zero exactly when the duration is zero. */
  lemma ConvertZero(s: real)
    ensures Convert(s) == Metrics(0, 0.0, 0.0, 0.0, 0.0, 0.0, 0.0, 0.0) <==> s == 0.0
  {
    if s == 0.0 {
      ConvertZeroDays(s);
      ConvertZeroRates(s);
    }
  }

  lemma ConvertZeroDays(s: real)
    requires s == 0.0
    ensures Convert(s).days == 0
  {
  }

  lemma ConvertZeroRates(s: real)
    requires s == 0.0
    ensures Convert(s).weeks == 0.0 && Convert(s).hours == 0.0 && Convert(s).months == 0.0
    ensures Convert(s).minutes == 0.0 && Convert(s).wakingHours == 0.0
    ensures Convert(s).workHours == 0.0 && Convert(s).effectiveWorkHours == 0.0
  {
  }

  /** One labelled line of the report. */
  datatype Metric = Metric(unit: Unit, value: real)

  /** The order in which the script reports the units. */
  const ReportOrder: seq<Unit> := [Days, Weeks, Hours, Months, Minutes, WakingHours, WorkHours, EffectiveWorkHours]

  /** The value of one unit in a set of metrics. */
  function ValueOf(m: Metrics, u: Unit): real {
    match u
    case Days => m.days as real
    case Weeks => m.weeks
    case Hours => m.hours
    case Months => m.months
    case Minutes => m.minutes
    case WakingHours => m.wakingHours
    case WorkHours => m.workHours
    case EffectiveWorkHours => m.effectiveWorkHours
  }

  /** The lines of the report for a set of metrics: eight lines, each
      carrying its own unit's value, no unit twice, in the order the script
      prints them. */
  function Lines(m: Metrics): (ms: seq<Metric>)
    ensures |ms| == 8
    ensures forall i :: 0 <= i < |ms| ==> ms[i].value == ValueOf(m, ms[i].unit)
    ensures forall i, j :: 0 <= i < j < |ms| ==> ms[i].unit != ms[j].unit
    ensures ms[0].unit == Days && ms[1].unit == Weeks && ms[2].unit == Hours && ms[3].unit == Months
    ensures ms[4].unit == Minutes && ms[5].unit == WakingHours && ms[6].unit == WorkHours
    ensures ms[7].unit == EffectiveWorkHours
  {
    seq(|ReportOrder|, i requires 0 <= i < |ReportOrder| => Metric(ReportOrder[i], ValueOf(m, ReportOrder[i])))
  }

  /** Every unit has a line in the report. */
  lemma LinesCoverEveryUnit(m: Metrics, u: Unit)
    ensures exists i :: 0 <= i < |Lines(m)| && Lines(m)[i].unit == u
  {
    var i := match u
      case Days => 0
      case Weeks => 1
      case Hours => 2
      case Months => 3
      case Minutes => 4
      case WakingHours => 5
      case WorkHours => 6
      case EffectiveWorkHours => 7;
    assert Lines(m)[i].unit == u;
  }

  lemma LinesOfZero(m: Metrics)
    requires m == Metrics(0, 0.0, 0.0, 0.0, 0.0, 0.0, 0.0, 0.0)
    ensures forall i :: 0 <= i < |Lines(m)| ==> Lines(m)[i].value == 0.0
  {
    forall i | 0 <= i < |Lines(m)|
      ensures Lines(m)[i].value == 0.0
    {
      ZeroMetricsHaveZeroValues(m, Lines(m)[i].unit);
    }
  }

  lemma ZeroMetricsHaveZeroValues(m: Metrics, u: Unit)
    requires m == Metrics(0, 0.0, 0.0, 0.0, 0.0, 0.0, 0.0, 0.0)
    ensures ValueOf(m, u) == 0.0
  {
  }

  /** `interesting_deltas(future, now)`: the report lines of the one
      duration `future - now`. */
  function InterestingDeltas(future: DateTime, now: DateTime): (ms: seq<Metric>)
    requires Valid(future) && Valid(now)
    ensures ms == Lines(Convert(TotalSeconds(now, future)))
    ensures ms[1].value * 604800.0 == TotalSeconds(now, future)
  {
    Lines(Convert(TotalSeconds(now, future)))
  }

  /** The weeks line is positive exactly when the target is in the future. */
  lemma InterestingDeltasSign(future: DateTime, now: DateTime)
    requires Valid(future) && Valid(now)
    ensures InterestingDeltas(future, now)[1].value > 0.0 <==> Before(now, future)
  {
  }

  /** The report of a zero duration is zero on every line. */
  lemma ZeroDurationReport(ms: seq<Metric>, s: real)
    requires s == 0.0 && ms == Lines(Convert(s))
    ensures forall i :: 0 <= i < |ReportOrder| ==> ms[i].value == 0.0
  {
    ConvertZero(s);
    ZeroMetricsReport(ms, Convert(s));
  }

  lemma ZeroMetricsReport(ms: seq<Metric>, m: Metrics)
    requires m == Metrics(0, 0.0, 0.0, 0.0, 0.0, 0.0, 0.0, 0.0) && ms == Lines(m)
    ensures forall i :: 0 <= i < |ReportOrder| ==> ms[i].value == 0.0
  {
    LinesOfZero(m);
  }

  /** A target equal to the reference reports zero in every unit. */
  lemma InterestingDeltasOfNow(now: DateTime)
    requires Valid(now)
    ensures forall i :: 0 <= i < |ReportOrder| ==> InterestingDeltas(now, now)[i].value == 0.0
  {
    ZeroDurationReport(InterestingDeltas(now, now), TotalSeconds(now, now));
  }
}

# till — a verified model of the date anchors and the delta report

`till` is a small command-line script (`0001_till.py`). It takes a keyword or a free-form date and prints how far that target is from the current moment, in eight units: days, weeks, hours, months, minutes, waking hours, work hours and effective work hours. The keywords are `eod`, `eow`, `mon` and `eoq`:

- `eod` is end of day, 17:00 today.
- `eow` is end of week, the first Friday on or after today.
- `mon` is next Monday, the first Monday strictly after today.
- `eoq` is end of quarter.

The Dafny project models the script's computational core:

- **the calendar** Python's `datetime` supplies, in `calendar.dfy` and `timestamps.dfy`:
  - the proleptic Gregorian calendar over years 1 to 9999;
  - day numbers counted from 0001-01-01;
  - Python's weekday numbering, Monday = 0 … Friday = 4;
  - the lexicographic timestamp order;
  - the exact length of `future - now` in seconds;
  - `OverflowError` when a date leaves the representable range.
- **the part of dateutil's `relativedelta` addition the script uses** (`relativedelta.dfy`). It applies three steps in order:
  1. replace the month and day, clamping the day to the month's length;
  2. add a number of days;
  3. move forward to a weekday on or after that date.

  Either step that changes the date can overflow.
- **the four date anchors** (`anchors.dfy`), each a pure function of the reference timestamp.
- **the delta converter** (`deltas.dfy`): the `diff_*` functions over exact reals, Python 2's `round` for days, and the report lines of `interesting_deltas` in their printed order.
- **the keyword dispatch of `main`** (`till.dfy`):
  - the clock readings are parameters;
  - dateutil's free-form parser is an uninterpreted parameter `parse`;
  - every outcome is either no output, a report, or an uncaught exception.
- **worked scenarios** (`scenarios.dfy`) computed on the model.

The model follows the code in these places:

- **Quarter ends.** `end_of_quarter` compares `month < 3`, `< 6` and `< 9`, so March, June and September go to the end of the following quarter (June 30, September 30 and December 31), not the current one. The third quarter asks for September 31. `relativedelta` clamps that to September 30, so the answer is a correct month end and no error is raised.
- **The last days of the calendar.** `next_monday` is strictly later than the reference, except that from 9999-12-27 on it raises `OverflowError`: no later Monday is representable. `end_of_week` never overflows, because 9999-12-31 is a Friday.
- **A second clock read.** `main` calls `interesting_deltas(future)` without a reference, so the report reads the clock again. The anchor and the report therefore see two different "now"s, and `Till.Main` takes both.

## Model

| member | source | states |
|---|---|---|
| Till.Main | 0001_till.py:30-48 | No arguments means no output. Otherwise the run crashes exactly when resolving the first argument fails, with that error. On success it reports the resolved target, and the report is exactly `interesting_deltas` of that target against the second clock reading. |
| Till.Resolve | 0001_till.py:35-46 | `eod`, `eow`, `mon` and `eoq` give exactly the results of their anchors. So `eod` gives 17:00:00 on the same date, `eow` a Friday not before the reference, and `eoq` a quarter-closing month of the same year. `mon` succeeds exactly when the date is before 9999-12-27, and then gives a Monday strictly later. Any other token succeeds exactly when the parser does, with the parser's value. The only errors are overflow for `mon` and an unparseable token otherwise. |
| Till.MainReadsOnlyFirstArgument | 0001_till.py:35 | Arguments after the first never change the outcome. |
| Till.KeywordsIgnoreParser | 0001_till.py:37-46 | A keyword resolves the same way whatever the parser would say. |
| Anchors.EndOfDay | 0001_till.py:54-58 | Keeps the date and the microseconds, and sets the time to 17:00:00. |
| Anchors.EndOfDayEarlierIffPastFive | 0001_till.py:58 | The anchor is earlier than the reference exactly when the reference's hour, minute and second are past 17:00:00. Microseconds do not matter, because the anchor keeps them. So there is no roll-over to the next day, and applying the anchor twice changes nothing more. |
| Anchors.EndOfWeek | 0001_till.py:61-65 | The result is a Friday 0 to 6 days after the reference, with no earlier Friday in between. It keeps the time of day, is never earlier than the reference, and is the reference itself when that is a Friday. |
| Anchors.FridayInRange | 0001_till.py:65 | The Friday on or after any representable day is representable, so `end_of_week` cannot overflow. |
| Anchors.FridayRuleInRange | 0001_till.py:65 | Adding `relativedelta(weekday=FRIDAY)` never overflows. |
| Anchors.FridayRuleLands | 0001_till.py:65 | That addition lands on the first Friday on or after the reference date, at the same time of day and never earlier than the reference. It leaves a Friday reference unchanged. |
| Anchors.NextMonday | 0001_till.py:68-72 | Succeeds exactly when the date is before 9999-12-27, and otherwise fails with overflow. The result is a Monday 1 to 7 days later with no Monday in between, at the same time of day, strictly later than the reference. It is exactly 7 days later when the reference is a Monday. |
| Anchors.MondayRuleInRange | 0001_till.py:72 | Adding `relativedelta(days=1, weekday=MONDAY)` overflows exactly from the last representable Monday on. |
| Anchors.MondayRuleLands | 0001_till.py:72 | When that addition succeeds, it lands on the first Monday strictly after the reference date. |
| Anchors.LastMondayFacts | 0001_till.py:72 | 9999-12-27 is a valid Monday and the fifth-to-last representable day. |
| Anchors.QuarterRule | 0001_till.py:79-85 | The relativedelta picked from the reference month sets only the month and day. The month is the quarter-closing month of the quarter table, never before the reference month. The requested day is at least the table's day, so clamping yields the month end. |
| Anchors.QuarterRuleLands | 0001_till.py:79-85 | The month/day replacement the script picks lands on the last day of month 3, 6, 9 or 12, as the quarter table says, and never before the reference date. |
| Anchors.EndOfQuarter | 0001_till.py:75-85 | Keeps the year and the time of day. Months 1–2 give Mar 31, 3–5 give Jun 30, 6–8 give Sep 30 and 9–12 give Dec 31. The result is a month end and never earlier than the reference. |
| RelativeDelta.ReplaceFields | 0001_till.py:80-85 | The month is replaced when given. The day is the requested one, or the month's last day when the request does not fit. The year is kept, and the result is a valid date. |
| RelativeDelta.WeekdayJump | 0001_till.py:65-72 | The weekday step moves 0 to 6 days, lands on the requested weekday and passes no earlier day of that weekday. |
| RelativeDelta.MoveToWeekday | 0001_till.py:65-72 | Moving to a weekday fails with overflow exactly when the landing day is past 9999-12-31. Otherwise it gives the first day of that weekday on or after the date. |
| RelativeDelta.LandingIsNextWeekday | 0001_till.py:65-72 | With a weekday, the landing day is the first day of that weekday on or after the replaced-and-shifted day. Without one, it is that day itself. |
| RelativeDelta.Apply | 0001_till.py:65-85 | `t + relativedelta(...)` succeeds exactly when the replaced-and-shifted day and the landing day are representable, and otherwise fails with overflow. On success it keeps the time of day and lands on the landing day. |
| RelativeDelta.ApplyAbsoluteOnly | 0001_till.py:80-85 | With only month and day given, the addition never fails, and gives the clamped date at the same time. |
| RelativeDelta.BaseWithoutAbsolute | 0001_till.py:65-72 | Without month or day, the shifted day is the reference day plus `days`. |
| Calendar.DaysInMonth | 0001_till.py:80-85 | The length of a month, as `calendar.monthrange` gives it for the clamp. It is 31 for months 1, 3, 5, 7, 8, 10 and 12, and 30 for 4, 6, 9 and 11. February has 29 days exactly in a leap year and 28 otherwise. |
| Calendar.ToOrdinal | 0001_till.py:65-85 | Python's day number of a valid date lies in 1 to 3652059. |
| Calendar.FromOrdinal | 0001_till.py:65-85 | For every day number in range, it gives the valid date whose day number it is: the inverse of `ToOrdinal`. |
| Calendar.OrdinalRoundTrip | 0001_till.py:65-85 | Every valid date is recovered from its day number, so the date arithmetic under `+ relativedelta` is exact. |
| Calendar.OrdinalOrder | 0001_till.py:65-85 | Python's date order (year, month, day) is the order of day numbers. |
| Calendar.AddDays | 0001_till.py:72 | Adding days succeeds exactly when the day number stays within 1 to 9999-12-31, and then shifts the day number by that amount. Otherwise it fails with overflow. |
| Calendar.Weekday | 0001_till.py:65-72 | Python's `date.weekday()` is a number from 0 (Monday) to 6 (Sunday). |
| Calendar.WeekdayAdvances | 0001_till.py:65-72 | The weekday advances by one per day, wrapping from Sunday to Monday. |
| Calendar.WeekdayOfCalendarEnds | 0001_till.py:65 | 0001-01-01 is a Monday and 9999-12-31 is a Friday. |
| Timestamps.TotalSeconds | 0001_till.py:92 | `(future - now).total_seconds()` is positive exactly when the target is later, and zero exactly when the two timestamps are equal. |
| Timestamps.BeforeIsTimeLine | 0001_till.py:92 | Python's timestamp comparison is the order of the instants on the time line. |
| Timestamps.TotalSecondsAdd | 0001_till.py:92 | Durations add up along the time line, and swapping the two timestamps negates the duration. |
| Timestamps.WholeDaysApart | 0001_till.py:92 | Two timestamps with the same time of day are apart by whole days' worth of seconds. |
| Deltas.RoundHalfAwayFromZero | 0001_till.py:123 | The result is within one half of the input, and a tie goes to the integer farther from zero. |
| Deltas.RoundingIsUnique | 0001_till.py:123 | Exactly one integer meets those conditions. |
| Deltas.RoundingKeepsSign | 0001_till.py:123 | Rounding keeps the sign and leaves integers unchanged. |
| Deltas.DiffDays | 0001_till.py:121-123 | Days is within half a day of the duration. An exact half-day tie goes away from zero. A negative duration never gives a positive count. |
| Deltas.DiffDaysOfWholeDays | 0001_till.py:121-123 | A whole number of days is reported as exactly that number. |
| Deltas.DiffWeeks | 0001_till.py:126-127 | Weeks times seconds per week gives back the duration. |
| Deltas.DiffHours | 0001_till.py:130-131 | Hours times 3600 gives back the duration. |
| Deltas.DiffMonths | 0001_till.py:134-135 | Months times the seconds of a 30-day month gives back the duration. |
| Deltas.DiffMinutes | 0001_till.py:138-139 | Minutes times 60 gives back the duration. |
| Deltas.DiffWakingHours | 0001_till.py:142-143 | Waking hours are 17/24 of the duration's hours. |
| Deltas.DiffWorkHours | 0001_till.py:146-147 | Work hours times 15120 (the seconds per week over 40) gives back the duration. |
| Deltas.DiffEffectiveWorkHours | 0001_till.py:150-151 | Effective work hours times 30240 gives back the duration. |
| Deltas.MetricsAgree | 0001_till.py:121-151 | The metrics relate as follows: hours = 168 × weeks; minutes = 60 × hours; months = weeks × 7/30; waking = hours × 17/24; work = 40 × weeks; effective = 20 × weeks; work = 2 × effective. Days are within one half of 7 × weeks. |
| Deltas.OneWeek | 0001_till.py:121-147 | Exactly one week gives 7 days, 1 week, 168 hours, 10080 minutes and 40 work hours. |
| Deltas.Convert | 0001_till.py:92-116 | All eight metrics of one duration, related to one another as above. Days is the nearest integer to 7 × weeks, with ties away from zero. |
| Deltas.ConvertZero | 0001_till.py:121-151 | All metrics are zero exactly when the duration is zero. |
| Deltas.Lines | 0001_till.py:94-116 | Eight lines, each carrying the value of its own unit, with no unit twice. They come in the printed order: days, weeks, hours, months, minutes, waking hours, work hours, effective work hours. |
| Deltas.LinesCoverEveryUnit | 0001_till.py:94-116 | Every unit has a line in the report. |
| Deltas.InterestingDeltas | 0001_till.py:88-116 | The report is the lines of the metrics of `future - now`. Its weeks line, times 604800, is that duration. |
| Deltas.InterestingDeltasSign | 0001_till.py:92-98 | The weeks line is positive exactly when the target is later than the reference. |
| Deltas.InterestingDeltasOfNow | 0001_till.py:88-116 | A target equal to the reference reports zero on every line. |
| Scenarios.NextMondayFromTuesday | 0001_till.py:68-72 | Tuesday 2021-06-15 10:00 gives Monday 2021-06-21 10:00. |
| Scenarios.EndOfWeekFromWednesday | 0001_till.py:61-65 | Wednesday 2021-06-16 09:30 gives Friday 2021-06-18 09:30. |
| Scenarios.EndOfQuarterInMarch | 0001_till.py:79-82 | 2021-03-10 gives 2021-06-30, the end of the following quarter. |
| Scenarios.EndOfQuarterInAugust | 0001_till.py:83-84 | 2021-08-20 gives 2021-09-30: the requested 31st is clamped. |
| Scenarios.OneWeekAhead | 0001_till.py:88-116 | A target seven days ahead at the same time of day reports 7 days, 1 week, 168 hours, 10080 minutes and 40 work hours. |

## Left out

- The parser `dateutil.parser.parse` (line 46) is not part of this model. It is the uninterpreted parameter `parse` of `Till.Main`, assumed to return valid timestamps. A time-zone-aware result, which would make `future - now` raise `TypeError`, is not modelled.
- The output is not modelled: `humanize.naturaltime`, every `print` and the `"{:.2f}"` formatting (lines 51, 95-116). The model produces the numeric report lines instead.
- The clock `datetime.now` (lines 27, 55-56, 62-63, 69-70, 76-77, 89-90) is not read. The reference timestamps are parameters, and `Till.Main` takes the two readings the script makes.
- The `sys.argv` entry point (lines 155-156) is left out. `Till.Main` receives the argument list directly.
- The keywords `eom` and `eoy` appear only in a comment (line 32) and are not implemented. They are not modelled.
- Deltas.DiffWeeks: the divisions and `total_seconds()` are exact reals in the model, not IEEE-754 doubles. The same holds for every `diff_*` member and `Deltas.Convert`, so nothing is claimed about float rounding.
- The `relativedelta` model covers only `month`, `day`, `days` and a `weekday` with n = +1: the fields the script sets. It leaves out years, months, leap days, time-of-day fields and the n-th weekday.
- `Timestamps.DateTime` has no time zone and no `fold`: the script only builds naive timestamps.

/** Naive timestamps (Python's datetime without a time zone) and the signed
    duration between two of them. */
module Timestamps {
  import opened Calendar

  const MicrosPerSecond: int := 1000000
  const SecondsPerDay: int := 86400

  datatype DateTime = DateTime(date: Date, hour: int, minute: int, second: int, microsecond: int)

  predicate ValidTime(t: DateTime) {
    && 0 <= t.hour < 24
    && 0 <= t.minute < 60
    && 0 <= t.second < 60
    && 0 <= t.microsecond < MicrosPerSecond
  }

  predicate Valid(t: DateTime) {
    ValidDate(t.date) && ValidTime(t)
  }

  /** Two timestamps share their time of day. */
  predicate SameTimeOfDay(a: DateTime, b: DateTime) {
    a.hour == b.hour && a.minute == b.minute && a.second == b.second && a.microsecond == b.microsecond
  }

  /** Microseconds since midnight. */
  function MicrosOfDay(t: DateTime): (u: int)
    requires ValidTime(t)
    ensures 0 <= u < SecondsPerDay * MicrosPerSecond
  {
    ((t.hour * 60 + t.minute) * 60 + t.second) * MicrosPerSecond + t.microsecond
  }

  /** Microseconds since the start of day number 0. */
  function Micros(t: DateTime): int
    requires Valid(t)
  {
    ToOrdinal(t.date) * SecondsPerDay * MicrosPerSecond + MicrosOfDay(t)
  }

  /** Python's datetime comparison: lexicographic on
      (year, month, day, hour, minute, second, microsecond). */
  predicate Before(a: DateTime, b: DateTime) {
    || DateBefore(a.date, b.date)
    || (a.date == b.date && a.hour < b.hour)
    || (a.date == b.date && a.hour == b.hour && a.minute < b.minute)
    || (a.date == b.date && a.hour == b.hour && a.minute == b.minute && a.second < b.second)
    || (a.date == b.date && a.hour == b.hour && a.minute == b.minute && a.second == b.second
        && a.microsecond < b.microsecond)
  }

  /** The lexicographic order is the order of the instants on the time line. */
  lemma BeforeIsTimeLine(a: DateTime, b: DateTime)
    requires Valid(a) && Valid(b)
    ensures Before(a, b) <==> Micros(a) < Micros(b)
  {
    OrdinalOrder(a.date, b.date);
    OrdinalOrder(b.date, a.date);
    OrdinalInjective(a.date, b.date);
  }

  /** The signed length of `future - now` in seconds, exactly as
      timedelta.total_seconds() defines it (before float rounding). */
  function TotalSeconds(now: DateTime, future: DateTime): (s: real)
    requires Valid(now) && Valid(future)
    ensures s > 0.0 <==> Before(now, future)
    ensures s == 0.0 <==> now == future
  {
    BeforeIsTimeLine(now, future);
    BeforeIsTimeLine(future, now);
    (Micros(future) - Micros(now)) as real / MicrosPerSecond as real
  }

  /** Durations add up along the time line. */
  lemma TotalSecondsAdd(a: DateTime, b: DateTime, c: DateTime)
    requires Valid(a) && Valid(b) && Valid(c)
    ensures TotalSeconds(a, b) + TotalSeconds(b, c) == TotalSeconds(a, c)
    ensures TotalSeconds(b, a) == -TotalSeconds(a, b)
  {
  }

  /** Moving a timestamp by whole days while keeping its time of day moves it
      by exactly that many days' worth of seconds. */
  lemma WholeDaysApart(now: DateTime, future: DateTime)
    requires Valid(now) && Valid(future)
    requires SameTimeOfDay(now, future)
    ensures TotalSeconds(now, future)
         == ((ToOrdinal(future.date) - ToOrdinal(now.date)) * SecondsPerDay) as real
  {
  }
}

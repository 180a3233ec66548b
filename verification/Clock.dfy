/**
 * Local date-times as used by the reminder bot (java.time.LocalDateTime, no zone).
 *
 * An instant is an integer count of nanoseconds since 0001-01-01T00:00 in the
 * proleptic Gregorian calendar, the resolution of LocalDateTime. Calendar
 * fields map onto instants through EpochDay; minute truncation is floor
 * rounding to a multiple of one minute.
 */
module Clock {

  type Instant = int

  const NanosPerMinute: int := 60_000_000_000

  /** `t.truncatedTo(ChronoUnit.MINUTES)`: drop seconds and nanoseconds. */
  function TruncateToMinute(t: Instant): (r: Instant)
    ensures r % NanosPerMinute == 0
    ensures r <= t < r + NanosPerMinute
  {
    t - t % NanosPerMinute
  }

  /** `t.plusMinutes(n)`: whole minutes later, so the seconds and
      nanoseconds within the minute are kept. */
  function PlusMinutes(t: Instant, n: int): (r: Instant)
    ensures r % NanosPerMinute == t % NanosPerMinute
    ensures n > 0 ==> t < r
    ensures n < 0 ==> r < t
  {
    t + n * NanosPerMinute
  }

  /** The two ensures of TruncateToMinute pin its result down: no other
      minute-aligned instant lies in the same minute as t. */
  lemma TruncationIsUnique(t: Instant, r: Instant)
    requires r % NanosPerMinute == 0
    requires r <= t < r + NanosPerMinute
    ensures r == TruncateToMinute(t)
  {
    var q := r / NanosPerMinute;
    assert r == q * NanosPerMinute;
    var s := TruncateToMinute(t);
    var p := s / NanosPerMinute;
    assert s == p * NanosPerMinute;
    // Both aligned and within one minute of t, hence less than a minute apart.
    assert -NanosPerMinute < r - s < NanosPerMinute;
    assert (q - p) * NanosPerMinute == r - s;
  }

  /** Truncating a minute-aligned instant, or an instant one minute later,
      is the identity: a rescheduled time is a tick time again. */
  lemma PlusOneMinuteStaysAligned(t: Instant)
    requires t % NanosPerMinute == 0
    ensures PlusMinutes(t, 1) % NanosPerMinute == 0
    ensures TruncateToMinute(PlusMinutes(t, 1)) == PlusMinutes(t, 1)
  {
  }

  // ---- Calendar (java.time.chrono.IsoChronology) ----

  predicate IsLeap(year: int)
  {
    year % 4 == 0 && (year % 100 != 0 || year % 400 == 0)
  }

  function YearLength(year: int): int
  {
    if IsLeap(year) then 366 else 365
  }

  function MonthLength(year: int, month: int): (n: int)
    requires 1 <= month <= 12
    ensures 28 <= n <= 31
  {
    if month == 2 then (if IsLeap(year) then 29 else 28)
    else if month == 4 || month == 6 || month == 9 || month == 11 then 30
    else 31
  }

  /** Days of the years 1 .. year-1. */
  function DaysBeforeYear(year: int): int
    requires year >= 1
  {
    var y := year - 1;
    365 * y + y / 4 - y / 100 + y / 400
  }

  /** Days of the months 1 .. month-1 of the given year. */
  function DaysBeforeMonth(year: int, month: int): (n: int)
    requires 1 <= month <= 12
    ensures month > 1 ==> n == DaysBeforeMonth(year, month - 1) + MonthLength(year, month - 1)
  {
    var common := [0, 31, 59, 90, 120, 151, 181, 212, 243, 273, 304, 334][month - 1];
    if month > 2 && IsLeap(year) then common + 1 else common
  }

  predicate ValidDate(year: int, month: int, day: int)
  {
    year >= 1 && 1 <= month <= 12 && 1 <= day <= MonthLength(year, month)
  }

  /** Days since 0001-01-01. */
  function EpochDay(year: int, month: int, day: int): int
    requires year >= 1 && 1 <= month <= 12
  {
    DaysBeforeYear(year) + DaysBeforeMonth(year, month) + (day - 1)
  }

  /** The instant of a calendar date at hour:minute:00.000000000. An hour of
      24 denotes midnight at the end of the day. */
  function At(year: int, month: int, day: int, hour: int, minute: int): (t: Instant)
    requires year >= 1 && 1 <= month <= 12
    ensures t % NanosPerMinute == 0
  {
    ((EpochDay(year, month, day) * 24 + hour) * 60 + minute) * NanosPerMinute
  }

  lemma {:induction false} YearStep(year: int)
    requires year >= 1
    ensures DaysBeforeYear(year + 1) == DaysBeforeYear(year) + YearLength(year)
  {
    var y := year - 1;
    MultiplesOf4Step(y);
    MultiplesOf100Step(y);
    MultiplesOf400Step(y);
  }

  // Counting multiples: going from y to y + 1 adds one exactly when the
  // divisor divides y + 1.

  lemma MultiplesOf4Step(y: int)
    ensures (y + 1) / 4 == y / 4 + (if (y + 1) % 4 == 0 then 1 else 0)
  {
  }

  lemma MultiplesOf100Step(y: int)
    ensures (y + 1) / 100 == y / 100 + (if (y + 1) % 100 == 0 then 1 else 0)
  {
  }

  lemma MultiplesOf400Step(y: int)
    ensures (y + 1) / 400 == y / 400 + (if (y + 1) % 400 == 0 then 1 else 0)
  {
  }

  lemma {:induction false} DaysBeforeDecember(year: int)
    ensures DaysBeforeMonth(year, 12) + 31 == YearLength(year)
  {
  }

  /** The day after year-month-day, as LocalDate.plusDays(1) computes it. */
  function NextDate(year: int, month: int, day: int): (r: (int, int, int))
    requires ValidDate(year, month, day)
    ensures ValidDate(r.0, r.1, r.2)
  {
    if day < MonthLength(year, month) then (year, month, day + 1)
    else if month < 12 then (year, month + 1, 1)
    else (year + 1, 1, 1)
  }

  /** Consecutive calendar dates have consecutive epoch days, so hour 24 of
      one day is hour 0 of the next. */
  lemma NextDateIsNextEpochDay(year: int, month: int, day: int)
    requires ValidDate(year, month, day)
    ensures var n := NextDate(year, month, day);
            EpochDay(n.0, n.1, n.2) == EpochDay(year, month, day) + 1
            && At(n.0, n.1, n.2, 0, 0) == At(year, month, day, 24, 0)
  {
    if day == MonthLength(year, month) && month == 12 {
      YearStep(year);
      DaysBeforeDecember(year);
    }
  }
}

/**
 * `LocalDateTime.parse(text, DateTimeFormatter.ofPattern("dd.MM.yyyy HH:mm"))`.
 *
 * ofPattern builds a formatter with fixed-width fields of two digits for
 * dd, MM, HH and mm and a yyyy field of at least four digits (it would read
 * up to 19). The date-time token the reminder pattern captures always has
 * exactly four year digits, so the layout here is the 16-character one.
 * The SMART resolver style then applies:
 *   - day 1..31, month 1..12, year-of-era from 1, minute 0..59 are checked;
 *   - a day beyond the end of a shorter month becomes that month's last day
 *     (31.02.2025 is 28.02.2025);
 *   - hour 24 is accepted with minute 00 and means midnight of the next day.
 * Every failure is one DateTimeParseException, modelled as None.
 */
module DateTimeFormat {
  import opened Wrappers
  import opened Clock
  import opened TaskPattern

  function DigitValue(c: char): (v: int)
    requires IsDigit(c)
    ensures 0 <= v <= 9
  {
    c as int - '0' as int
  }

  /** The decimal value of a string of digits. */
  function Number(s: string): (n: nat)
    requires AllDigits(s)
  {
    if s == [] then 0 else 10 * Number(s[..|s| - 1]) + DigitValue(s[|s| - 1])
  }

  /** The character layout of "dd.MM.yyyy HH:mm". */
  predicate Layout(s: string)
  {
    && |s| == 16
    && AllDigits(s[0..2]) && s[2] == '.'
    && AllDigits(s[3..5]) && s[5] == '.'
    && AllDigits(s[6..10]) && s[10] == ' '
    && AllDigits(s[11..13]) && s[13] == ':'
    && AllDigits(s[14..16])
  }

  datatype Fields = Fields(day: int, month: int, year: int, hour: int, minute: int)

  function FieldsOf(s: string): Fields
    requires Layout(s)
  {
    Fields(Number(s[0..2]), Number(s[3..5]), Number(s[6..10]), Number(s[11..13]), Number(s[14..16]))
  }

  /** The range checks of the SMART resolver. */
  predicate InRange(f: Fields)
  {
    && 1 <= f.day <= 31
    && 1 <= f.month <= 12
    && f.year >= 1
    && 0 <= f.minute <= 59
    && (0 <= f.hour <= 23 || (f.hour == 24 && f.minute == 0))
  }

  /** SMART day-of-month resolution: a day past the end of April, June,
      September, November or February is moved back to the month's last day. */
  function SmartDay(year: int, month: int, day: int): (d: int)
    requires year >= 1 && 1 <= month <= 12 && 1 <= day <= 31
    ensures ValidDate(year, month, d)
    ensures d == if day <= MonthLength(year, month) then day else MonthLength(year, month)
  {
    if month == 4 || month == 6 || month == 9 || month == 11 then (if day < 30 then day else 30)
    else if month == 2 then
      var last := if IsLeap(year) then 29 else 28;
      if day < last then day else last
    else day
  }

  function Resolve(f: Fields): Instant
    requires InRange(f)
  {
    At(f.year, f.month, SmartDay(f.year, f.month, f.day), f.hour, f.minute)
  }

  function ParseLocalDateTime(s: string): (r: Option<Instant>)
    ensures r.Some? <==> Layout(s) && InRange(FieldsOf(s))
    ensures r.Some? ==> r.value % NanosPerMinute == 0
  {
    if Layout(s) && InRange(FieldsOf(s)) then Some(Resolve(FieldsOf(s))) else None
  }

  // ---- The formatter's own output, the partner of parsing ----

  function Digit(n: int): (c: char)
    requires 0 <= n <= 9
    ensures IsDigit(c) && DigitValue(c) == n
  {
    ('0' as int + n) as char
  }

  function Pad2(n: int): (s: string)
    requires 0 <= n <= 99
    ensures |s| == 2 && AllDigits(s) && Number(s) == n
  {
    var s := [Digit(n / 10), Digit(n % 10)];
    assert s[..1] == [Digit(n / 10)];
    assert s[..1][..0] == [];
    assert Number(s[..1]) == n / 10;
    s
  }

  function Pad4(n: int): (s: string)
    requires 0 <= n <= 9999
    ensures |s| == 4 && AllDigits(s) && Number(s) == n
  {
    var s := Pad2(n / 100) + Pad2(n % 100);
    assert s[..3][..2] == Pad2(n / 100) && s[..2] == Pad2(n / 100);
    assert Number(s[..3]) == 10 * Number(Pad2(n / 100)) + DigitValue(s[2]);
    s
  }

  /** `dateTime.format(FORMATTER)` for fields that fit the widths. */
  function Format(f: Fields): string
    requires 0 <= f.day <= 99 && 0 <= f.month <= 99 && 0 <= f.year <= 9999
    requires 0 <= f.hour <= 99 && 0 <= f.minute <= 99
  {
    Pad2(f.day) + "." + Pad2(f.month) + "." + Pad4(f.year) + " " + Pad2(f.hour) + ":" + Pad2(f.minute)
  }

  lemma FormatLayout(f: Fields)
    requires 0 <= f.day <= 99 && 0 <= f.month <= 99 && 0 <= f.year <= 9999
    requires 0 <= f.hour <= 99 && 0 <= f.minute <= 99
    ensures Layout(Format(f)) && FieldsOf(Format(f)) == f
  {
    var s := Format(f);
    assert s[0..2] == Pad2(f.day);
    assert s[3..5] == Pad2(f.month);
    assert s[6..10] == Pad4(f.year);
    assert s[11..13] == Pad2(f.hour);
    assert s[14..16] == Pad2(f.minute);
  }

  /** Parsing what the formatter prints gives back the date-time, for every
      real calendar date of years 1..9999. */
  lemma ParseFormatRoundTrip(f: Fields)
    requires ValidDate(f.year, f.month, f.day) && f.year <= 9999
    requires 0 <= f.hour <= 23 && 0 <= f.minute <= 59
    ensures ParseLocalDateTime(Format(f)) == Some(At(f.year, f.month, f.day, f.hour, f.minute))
  {
    FormatLayout(f);
  }

  /** "24:00" is accepted and is midnight of the following day. */
  lemma EndOfDayMidnight(f: Fields)
    requires ValidDate(f.year, f.month, f.day) && f.year <= 9999
    requires f.hour == 24 && f.minute == 0
    ensures var n := NextDate(f.year, f.month, f.day);
            ParseLocalDateTime(Format(f)) == Some(At(n.0, n.1, n.2, 0, 0))
  {
    FormatLayout(f);
    NextDateIsNextEpochDay(f.year, f.month, f.day);
  }

  /** A day beyond the month's end that is still at most 31 is moved back to
      the last day of the month instead of being rejected. */
  lemma OverlongDayIsClamped(f: Fields)
    requires f.year >= 1 && f.year <= 9999 && 1 <= f.month <= 12
    requires MonthLength(f.year, f.month) < f.day <= 31
    requires 0 <= f.hour <= 23 && 0 <= f.minute <= 59
    ensures ParseLocalDateTime(Format(f))
            == Some(At(f.year, f.month, MonthLength(f.year, f.month), f.hour, f.minute))
  {
    FormatLayout(f);
  }

  /** Out-of-range fields are parse errors: day 00 or 32.., month 00 or
      13.., year 0000, minute 60.., hour 24 with a non-zero minute, hour 25... */
  lemma OutOfRangeIsRejected(f: Fields)
    requires 0 <= f.day <= 99 && 0 <= f.month <= 99 && 0 <= f.year <= 9999
    requires 0 <= f.hour <= 99 && 0 <= f.minute <= 99
    requires f.day == 0 || f.day > 31 || f.month == 0 || f.month > 12 || f.year == 0
             || f.minute > 59 || f.hour > 24 || (f.hour == 24 && f.minute != 0)
    ensures ParseLocalDateTime(Format(f)).None?
  {
    FormatLayout(f);
  }
}

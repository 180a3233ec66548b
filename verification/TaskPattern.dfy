/**
 * The reminder pattern of the updates listener,
 *
 *     (\d{1,2}\.\d{1,2}\.\d{4} \d{1,2}:\d{2})\s+(.+)
 *
 * applied with Matcher.matches() (the whole text must match), written as a
 * recogniser over strings. Java's `\d` is [0-9], `\s` is [ \t\n\x0B\f\r] and
 * `.` is any character except a line terminator. Group 1 is the date-time
 * token; group 2 is what is left after the longest run of whitespace that
 * still leaves a non-empty remainder (the greedy `\s+` backtracks as little
 * as it must).
 */
module TaskPattern {
  import opened Wrappers

  predicate IsDigit(c: char)
  {
    '0' <= c <= '9'
  }

  predicate IsSpace(c: char)
  {
    c == ' ' || c == '\t' || c == '\n' || c == '\U{0B}' || c == '\U{0C}' || c == '\r'
  }

  predicate IsLineTerminator(c: char)
  {
    c == '\n' || c == '\r' || c == '\U{85}' || c == '\U{2028}' || c == '\U{2029}'
  }

  predicate AllDigits(s: string)
  {
    forall i :: 0 <= i < |s| ==> IsDigit(s[i])
  }

  predicate AllSpace(s: string)
  {
    forall i :: 0 <= i < |s| ==> IsSpace(s[i])
  }

  predicate NoLineTerminator(s: string)
  {
    forall i :: 0 <= i < |s| ==> !IsLineTerminator(s[i])
  }

  /** Length of the longest prefix of digits. */
  function DigitRun(s: string): (n: nat)
    ensures n <= |s|
    ensures AllDigits(s[..n])
    ensures n < |s| ==> !IsDigit(s[n])
  {
    if s != [] && IsDigit(s[0]) then
      var n := 1 + DigitRun(s[1..]);
      assert s[..n] == [s[0]] + s[1..][..n - 1];
      n
    else 0
  }

  /** Length of the longest prefix of whitespace. */
  function SpaceRun(s: string): (n: nat)
    ensures n <= |s|
    ensures AllSpace(s[..n])
    ensures n < |s| ==> !IsSpace(s[n])
  {
    if s != [] && IsSpace(s[0]) then
      var n := 1 + SpaceRun(s[1..]);
      assert s[..n] == [s[0]] + s[1..][..n - 1];
      n
    else 0
  }

  /** A successful match: the five digit fields of group 1, the whitespace
      consumed by `\s+`, and group 2. */
  datatype TaskMatch = TaskMatch(
    day: string, month: string, year: string, hour: string, minute: string,
    gap: string, body: string)

  /** Group 1: the date-time token. */
  function DateTimeText(m: TaskMatch): string
  {
    m.day + "." + m.month + "." + m.year + " " + m.hour + ":" + m.minute
  }

  /** The text a match was taken from. */
  function Render(m: TaskMatch): string
  {
    DateTimeText(m) + m.gap + m.body
  }

  /** The language of the pattern, field by field. */
  predicate InLanguage(m: TaskMatch)
  {
    && 1 <= |m.day| <= 2 && AllDigits(m.day)
    && 1 <= |m.month| <= 2 && AllDigits(m.month)
    && |m.year| == 4 && AllDigits(m.year)
    && 1 <= |m.hour| <= 2 && AllDigits(m.hour)
    && |m.minute| == 2 && AllDigits(m.minute)
    && |m.gap| >= 1 && AllSpace(m.gap)
    && |m.body| >= 1 && NoLineTerminator(m.body)
  }

  /** The split between gap and body that the greedy `\s+` chooses. */
  predicate Greedy(m: TaskMatch)
  {
    |m.body| == 1 || (|m.body| > 1 && !IsSpace(m.body[0]))
  }

  /** A run of lo..hi digits followed by `sep`. */
  datatype Cut = Cut(digits: string, rest: string)

  function DigitsThen(s: string, sep: char, lo: nat, hi: nat): (r: Option<Cut>)
    ensures r.Some? ==> && lo <= |r.value.digits| <= hi && AllDigits(r.value.digits)
                        && s == r.value.digits + [sep] + r.value.rest
  {
    var n := DigitRun(s);
    if lo <= n <= hi && n < |s| && s[n] == sep then
      assert s == s[..n] + [sep] + s[n + 1..];
      Some(Cut(s[..n], s[n + 1..]))
    else None
  }

  /** `\s+(.+)` against the rest of the text, backtracking as Java does. */
  function SplitTail(tail: string): (r: Option<(string, string)>)
    ensures r.Some? ==> && tail == r.value.0 + r.value.1
                        && |r.value.0| >= 1 && AllSpace(r.value.0)
                        && |r.value.1| >= 1 && NoLineTerminator(r.value.1)
  {
    var n := SpaceRun(tail);
    if n == 0 || |tail| < 2 then None
    else
      var k := if n < |tail| then n else |tail| - 1;
      assert AllSpace(tail[..k]) by { assert tail[..k] == tail[..n][..k]; }
      if NoLineTerminator(tail[k..]) then Some((tail[..k], tail[k..])) else None
  }

  // The match is built right to left, one field per function, so that each
  // step only has to glue one field onto the text its callee consumed.

  function FromMinute(m: TaskMatch): string { m.minute + m.gap + m.body }
  function FromHour(m: TaskMatch): string { m.hour + ":" + FromMinute(m) }
  function FromYear(m: TaskMatch): string { m.year + " " + FromHour(m) }
  function FromMonth(m: TaskMatch): string { m.month + "." + FromYear(m) }

  predicate TailOk(m: TaskMatch)
  {
    && |m.minute| == 2 && AllDigits(m.minute)
    && |m.gap| >= 1 && AllSpace(m.gap)
    && |m.body| >= 1 && NoLineTerminator(m.body)
    && Greedy(m)
  }

  /** `\d{2}\s+(.+)` */
  function MatchMinute(s: string): (r: Option<TaskMatch>)
    ensures r.Some? ==> TailOk(r.value) && FromMinute(r.value) == s
  {
    if DigitRun(s) != 2 then None
    else
      var split :- SplitTail(s[2..]);
      GreedySplit(s[2..]);
      assert s == s[..2] + s[2..];
      Some(TaskMatch("", "", "", "", s[..2], split.0, split.1))
  }

  /** `\d{1,2}:` then the minute */
  function MatchHour(s: string): (r: Option<TaskMatch>)
    ensures r.Some? ==> TailOk(r.value) && 1 <= |r.value.hour| <= 2 && AllDigits(r.value.hour)
    ensures r.Some? ==> FromHour(r.value) == s
  {
    var h :- DigitsThen(s, ':', 1, 2);
    var m :- MatchMinute(h.rest);
    Some(m.(hour := h.digits))
  }

  /** `\d{4} ` then the time */
  function MatchYear(s: string): (r: Option<TaskMatch>)
    ensures r.Some? ==> TailOk(r.value) && 1 <= |r.value.hour| <= 2 && AllDigits(r.value.hour)
    ensures r.Some? ==> |r.value.year| == 4 && AllDigits(r.value.year)
    ensures r.Some? ==> FromYear(r.value) == s
  {
    var y :- DigitsThen(s, ' ', 4, 4);
    var m :- MatchHour(y.rest);
    Some(m.(year := y.digits))
  }

  /** `\d{1,2}\.` then the year */
  function MatchMonth(s: string): (r: Option<TaskMatch>)
    ensures r.Some? ==> TailOk(r.value) && 1 <= |r.value.hour| <= 2 && AllDigits(r.value.hour)
    ensures r.Some? ==> |r.value.year| == 4 && AllDigits(r.value.year)
    ensures r.Some? ==> 1 <= |r.value.month| <= 2 && AllDigits(r.value.month)
    ensures r.Some? ==> FromMonth(r.value) == s
  {
    var mo :- DigitsThen(s, '.', 1, 2);
    var m :- MatchYear(mo.rest);
    Some(m.(month := mo.digits))
  }

  /** `TASK_PATTERN.matcher(text).matches()` together with its two groups. */
  function MatchTask(text: string): (r: Option<TaskMatch>)
    ensures r.Some? ==> InLanguage(r.value) && Greedy(r.value) && Render(r.value) == text
  {
    var d :- DigitsThen(text, '.', 1, 2);
    var m :- MatchMonth(d.rest);
    var full := m.(day := d.digits);
    RenderRightToLeft(full);
    Some(full)
  }

  lemma RenderRightToLeft(m: TaskMatch)
    ensures Render(m) == m.day + "." + FromMonth(m)
  {
    calc {
      Render(m);
      m.day + "." + m.month + "." + m.year + " " + m.hour + ":" + m.minute + m.gap + m.body;
      m.day + "." + (m.month + "." + (m.year + " " + (m.hour + ":" + (m.minute + m.gap + m.body))));
    }
  }

  lemma GreedySplit(tail: string)
    requires SplitTail(tail).Some?
    ensures var b := SplitTail(tail).value.1;
            |b| == 1 || (|b| > 1 && !IsSpace(b[0]))
  {
    var n := SpaceRun(tail);
    var k := if n < |tail| then n else |tail| - 1;
    assert SplitTail(tail).value.1 == tail[k..];
  }

  // ---- Completeness: every text of the pattern's language is matched ----

  lemma {:induction false} DigitRunStopsAt(ds: string, c: char, x: string)
    requires AllDigits(ds) && !IsDigit(c)
    ensures DigitRun(ds + [c] + x) == |ds|
  {
    if ds != [] {
      assert (ds + [c] + x)[1..] == ds[1..] + [c] + x;
      DigitRunStopsAt(ds[1..], c, x);
    }
  }

  lemma {:induction false} SpaceRunOver(gap: string, rest: string)
    requires AllSpace(gap)
    ensures SpaceRun(gap + rest) == |gap| + SpaceRun(rest)
  {
    if gap != [] {
      assert (gap + rest)[1..] == gap[1..] + rest;
      SpaceRunOver(gap[1..], rest);
    } else {
      assert gap + rest == rest;
    }
  }

  lemma DigitsThenOn(ds: string, sep: char, rest: string, lo: nat, hi: nat)
    requires lo <= |ds| <= hi && AllDigits(ds) && !IsDigit(sep)
    ensures DigitsThen(ds + [sep] + rest, sep, lo, hi) == Some(Cut(ds, rest))
  {
    var s := ds + [sep] + rest;
    DigitRunStopsAt(ds, sep, rest);
    assert s[..|ds|] == ds && s[|ds| + 1..] == rest;
  }

  /** However the text after the minute is cut into whitespace and rest, the
      greedy split succeeds; it keeps the cut when the rest starts with a
      non-space (or is a single character). */
  lemma SplitTailOn(gap: string, body: string)
    requires |gap| >= 1 && AllSpace(gap) && |body| >= 1 && NoLineTerminator(body)
    ensures SplitTail(gap + body).Some?
    ensures Greedy(TaskMatch("", "", "", "", "", gap, body)) ==> SplitTail(gap + body) == Some((gap, body))
  {
    var tail := gap + body;
    SpaceRunOver(gap, body);
    var n := SpaceRun(tail);
    var k := if n < |tail| then n else |tail| - 1;
    assert |gap| <= k;
    assert tail[k..] == body[k - |gap|..];
    if |body| == 1 || !IsSpace(body[0]) {
      assert k == |gap|;
      assert tail[..k] == gap && tail[k..] == body;
    }
  }

  /** What MatchTask finds in the text of a match: the same date-time fields,
      and the same text after the minute, split greedily. */
  function Resplit(m: TaskMatch): TaskMatch
    requires |m.gap| >= 1 && AllSpace(m.gap) && |m.body| >= 1 && NoLineTerminator(m.body)
  {
    SplitTailOn(m.gap, m.body);
    var split := SplitTail(m.gap + m.body).value;
    m.(gap := split.0, body := split.1)
  }

  lemma MatchMinuteOn(m: TaskMatch)
    requires InLanguage(m)
    ensures MatchMinute(FromMinute(m)) == Some(Resplit(m).(day := "", month := "", year := "", hour := ""))
  {
    var s := FromMinute(m);
    assert s == m.minute + [m.gap[0]] + (m.gap[1..] + m.body);
    DigitRunStopsAt(m.minute, m.gap[0], m.gap[1..] + m.body);
    assert s[..2] == m.minute && s[2..] == m.gap + m.body;
    SplitTailOn(m.gap, m.body);
  }

  lemma MatchHourOn(m: TaskMatch)
    requires InLanguage(m)
    ensures MatchHour(FromHour(m)) == Some(Resplit(m).(day := "", month := "", year := ""))
  {
    DigitsThenOn(m.hour, ':', FromMinute(m), 1, 2);
    MatchMinuteOn(m);
  }

  lemma MatchYearOn(m: TaskMatch)
    requires InLanguage(m)
    ensures MatchYear(FromYear(m)) == Some(Resplit(m).(day := "", month := ""))
  {
    DigitsThenOn(m.year, ' ', FromHour(m), 4, 4);
    MatchHourOn(m);
  }

  lemma MatchMonthOn(m: TaskMatch)
    requires InLanguage(m)
    ensures MatchMonth(FromMonth(m)) == Some(Resplit(m).(day := ""))
  {
    DigitsThenOn(m.month, '.', FromYear(m), 1, 2);
    MatchYearOn(m);
  }

  /** Every text in the language of the pattern matches, with the same
      date-time token and the same text after it. */
  lemma MatchComplete(m: TaskMatch)
    requires InLanguage(m)
    ensures MatchTask(Render(m)) == Some(Resplit(m))
    ensures DateTimeText(MatchTask(Render(m)).value) == DateTimeText(m)
  {
    RenderRightToLeft(m);
    DigitsThenOn(m.day, '.', FromMonth(m), 1, 2);
    MatchMonthOn(m);
  }

  /** A match written in the greedy form is recovered exactly: MatchTask
      inverts Render. */
  lemma MatchRoundTrip(m: TaskMatch)
    requires InLanguage(m) && Greedy(m)
    ensures MatchTask(Render(m)) == Some(m)
  {
    MatchComplete(m);
    SplitTailOn(m.gap, m.body);
  }

  /** Matching succeeds exactly on the texts of the pattern's language. */
  lemma MatchIffInLanguage(text: string)
    ensures MatchTask(text).Some? <==> exists m :: InLanguage(m) && Render(m) == text
  {
    if m :| InLanguage(m) && Render(m) == text {
      MatchComplete(m);
    }
  }
}

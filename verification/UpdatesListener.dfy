/**
 * TelegramBotUpdatesListener: every incoming update is routed to the
 * welcome reply, the database report, or the reminder parser; a reminder
 * that matches the pattern, parses as a date-time and is not in the past is
 * saved as a new NotificationTask.
 *
 * The reply is modelled by its kind (Outcome); the bot's wording is not.
 * `LocalDateTime.now()` is the `now` argument, and whether the database
 * throws is the `storeDown` argument.
 */
module UpdatesListener {
  import opened Wrappers
  import opened Clock
  import opened TaskPattern
  import opened DateTimeFormat
  import opened TaskModel
  import opened TaskRepository

  datatype Message = Message(chatId: int, text: Option<string>)
  datatype Update = Update(message: Option<Message>)

  // ---- Commands ----

  const StartCommand: string := "/start"
  const DbInfoCommand: string := "/dbinfo"

  predicate IsAscii(s: string)
  {
    forall i :: 0 <= i < |s| ==> s[i] < 128 as char
  }

  function AsciiLower(c: char): char
  {
    if 'A' <= c <= 'Z' then (c as int + 32) as char else c
  }

  /** Java's per-character rule of equalsIgnoreCase (equal after toUpperCase,
      or after toUpperCase then toLowerCase) against an ASCII character `t`.
      Besides the two ASCII cases of a letter, LATIN SMALL LETTER LONG S
      upper-cases to S, DOTLESS I upper-cases to I, CAPITAL I WITH DOT ABOVE
      lower-cases to i, and KELVIN SIGN lower-cases to k. */
  predicate CharEqualsIgnoreCase(t: char, c: char)
    requires t < 128 as char
  {
    || AsciiLower(c) == AsciiLower(t)
    || (AsciiLower(t) == 's' && c == '\U{017F}')
    || (AsciiLower(t) == 'i' && (c == '\U{0131}' || c == '\U{0130}'))
    || (AsciiLower(t) == 'k' && c == '\U{212A}')
  }

  /** `command.equalsIgnoreCase(text)` for an ASCII command: the command
      itself matches, and the only non-ASCII characters a matching text can
      hold are the four that case-map onto an ASCII letter. */
  predicate EqualsIgnoreCase(command: string, text: string)
    requires IsAscii(command)
    ensures text == command ==> EqualsIgnoreCase(command, text)
    ensures EqualsIgnoreCase(command, text) ==>
              forall i :: 0 <= i < |text| ==>
                text[i] < 128 as char || text[i] in {'\U{017F}', '\U{0131}', '\U{0130}', '\U{212A}'}
  {
    |text| == |command| && forall i :: 0 <= i < |text| ==> CharEqualsIgnoreCase(command[i], text[i])
  }

  function LowerAll(s: string): (r: string)
    ensures |r| == |s| && forall i :: 0 <= i < |s| ==> r[i] == AsciiLower(s[i])
  {
    if s == [] then [] else [AsciiLower(s[0])] + LowerAll(s[1..])
  }

  /** On ASCII text, the command test is: the text lower-cased is the command. */
  lemma AsciiCommandIsCaseInsensitive(command: string, text: string)
    requires IsAscii(command) && LowerAll(command) == command && IsAscii(text)
    ensures EqualsIgnoreCase(command, text) <==> LowerAll(text) == command
  {
    if EqualsIgnoreCase(command, text) {
      forall i | 0 <= i < |text|
        ensures LowerAll(text)[i] == command[i]
      {
        assert CharEqualsIgnoreCase(command[i], text[i]);
        assert LowerAll(command)[i] == command[i];
      }
    }
    if LowerAll(text) == command {
      forall i | 0 <= i < |text|
        ensures CharEqualsIgnoreCase(command[i], text[i])
      {
        assert LowerAll(command)[i] == command[i];
      }
    }
  }

  // ---- Reminder texts ----

  /** The decision of processTaskMessage and processTask before anything is
      stored. */
  datatype Verdict = RejectFormat | RejectDate | RejectPast | Accept(row: TaskRow)

  /** The decision of processTaskMessage: an accepted task always has the
      sender's chat, a non-empty one-line message and a minute-aligned time
      not before the clock. */
  function ClassifyTask(text: string, chatId: int, now: Instant): (r: Verdict)
    ensures r.Accept? ==>
              && r.row.chatId == chatId && r.row.fireAt >= now && r.row.fireAt % NanosPerMinute == 0
              && |r.row.message| >= 1 && NoLineTerminator(r.row.message)
  {
    match MatchTask(text)
    case None => RejectFormat
    case Some(m) => ParseVerdict(m, chatId, now)
  }

  /** The checks of processTask on a match: group 1 must parse, and the
      time must not be before now. The match is never a format error, and
      an accepted task carries group 2 verbatim. */
  function ParseVerdict(m: TaskMatch, chatId: int, now: Instant): (r: Verdict)
    ensures !r.RejectFormat?
    ensures r.RejectDate? <==> ParseLocalDateTime(DateTimeText(m)).None?
    ensures r.Accept? ==>
              && r.row.chatId == chatId && r.row.message == m.body
              && r.row.fireAt >= now && r.row.fireAt % NanosPerMinute == 0
  {
    match ParseLocalDateTime(DateTimeText(m))
    case None => RejectDate
    case Some(at) => if at < now then RejectPast else Accept(TaskRow(chatId, m.body, at))
  }

  /** The format error is given exactly to the texts outside the pattern's
      language. */
  lemma BadFormatIffOutsideLanguage(text: string, chatId: int, now: Instant)
    ensures ClassifyTask(text, chatId, now) == RejectFormat
            <==> !exists m :: InLanguage(m) && Render(m) == text
  {
    MatchIffInLanguage(text);
  }

  /** On a text of the language written with the greedy split, the verdict
      depends only on the date-time token and the clock; an accepted task
      keeps the sender's chat and group 2 verbatim. */
  lemma VerdictOfMatch(m: TaskMatch, chatId: int, now: Instant)
    requires InLanguage(m) && Greedy(m)
    ensures var at := ParseLocalDateTime(DateTimeText(m));
            ClassifyTask(Render(m), chatId, now)
            == if at.None? then RejectDate
               else if at.value < now then RejectPast
               else Accept(TaskRow(chatId, m.body, at.value))
  {
    MatchRoundTrip(m);
  }

  /** The pattern admits one-digit day, month and hour, but the formatter
      wants two digits: such a text is a date error, not a format error. */
  lemma ShortFieldIsDateError(m: TaskMatch, chatId: int, now: Instant)
    requires InLanguage(m)
    requires |m.day| == 1 || |m.month| == 1 || |m.hour| == 1
    ensures ClassifyTask(Render(m), chatId, now) == RejectDate
  {
    MatchComplete(m);
    assert |DateTimeText(m)| < 16;
  }

  /** A date-time equal to the clock is not "before" it and is accepted. */
  lemma DueNowIsAccepted(m: TaskMatch, chatId: int, now: Instant)
    requires InLanguage(m) && Greedy(m)
    requires ParseLocalDateTime(DateTimeText(m)) == Some(now)
    ensures ClassifyTask(Render(m), chatId, now) == Accept(TaskRow(chatId, m.body, now))
  {
    VerdictOfMatch(m, chatId, now);
  }

  /** A request written with the formatter's own layout, one space and a
      message that does not start with whitespace, is accepted unchanged
      when its time is not in the past. */
  lemma WellFormedRequestIsAccepted(f: Fields, body: string, chatId: int, now: Instant)
    requires ValidDate(f.year, f.month, f.day) && f.year <= 9999
    requires 0 <= f.hour <= 23 && 0 <= f.minute <= 59
    requires |body| >= 1 && !IsSpace(body[0]) && NoLineTerminator(body)
    requires now <= At(f.year, f.month, f.day, f.hour, f.minute)
    ensures ClassifyTask(Format(f) + " " + body, chatId, now)
            == Accept(TaskRow(chatId, body, At(f.year, f.month, f.day, f.hour, f.minute)))
  {
    var m := TaskMatch(Pad2(f.day), Pad2(f.month), Pad4(f.year), Pad2(f.hour), Pad2(f.minute), " ", body);
    assert DateTimeText(m) == Format(f);
    assert Render(m) == Format(f) + " " + body;
    VerdictOfMatch(m, chatId, now);
    ParseFormatRoundTrip(f);
  }

  /** "01.01.2030 12:00 Buy milk" creates that reminder for the sender. */
  lemma ExampleRequestIsAccepted(chatId: int, now: Instant)
    requires now <= At(2030, 1, 1, 12, 0)
    ensures ClassifyTask("01.01.2030 12:00 Buy milk", chatId, now)
            == Accept(TaskRow(chatId, "Buy milk", At(2030, 1, 1, 12, 0)))
  {
    var f := Fields(1, 1, 2030, 12, 0);
    var body := "Buy milk";
    BuyMilkDateText();
    assert "01.01.2030 12:00 Buy milk" == Format(f) + " " + body;
    assert ValidDate(2030, 1, 1);
    assert !IsSpace(body[0]) && NoLineTerminator(body);
    WellFormedRequestIsAccepted(f, body, chatId, now);
  }

  lemma BuyMilkDateText()
    ensures Format(Fields(1, 1, 2030, 12, 0)) == "01.01.2030 12:00"
  {
  }

  lemma February31Text()
    ensures Format(Fields(31, 2, 2025, 10, 0)) == "31.02.2025 10:00"
  {
  }

  /** 31.02 is not rejected: the reminder is stored for the last day of
      February. */
  lemma February31IsClamped(body: string, chatId: int, now: Instant)
    requires |body| >= 1 && !IsSpace(body[0]) && NoLineTerminator(body)
    requires now <= At(2025, 2, 28, 10, 0)
    ensures ClassifyTask("31.02.2025 10:00 " + body, chatId, now)
            == Accept(TaskRow(chatId, body, At(2025, 2, 28, 10, 0)))
  {
    var f := Fields(31, 2, 2025, 10, 0);
    var m := TaskMatch(Pad2(31), Pad2(2), Pad4(2025), Pad2(10), Pad2(0), " ", body);
    February31Text();
    assert DateTimeText(m) == Format(f);
    assert Render(m) == "31.02.2025 10:00 " + body;
    VerdictOfMatch(m, chatId, now);
    OverlongDayIsClamped(f);
  }

  /** "1.1.2020 9:00 Old task" is answered with the date error. */
  lemma SingleDigitRequestIsDateError(chatId: int, now: Instant)
    ensures ClassifyTask("1.1.2020 9:00 Old task", chatId, now) == RejectDate
  {
    var m := TaskMatch("1", "1", "2020", "9", "00", " ", "Old task");
    OldTaskText();
    ShortFieldIsDateError(m, chatId, now);
  }

  lemma OldTaskText()
    ensures Render(TaskMatch("1", "1", "2020", "9", "00", " ", "Old task")) == "1.1.2020 9:00 Old task"
  {
  }

  // ---- One update ----

  /** What the listener answers (the reply goes to the sender's chat). */
  datatype Outcome =
    | Ignored
    | Welcome
    | DbInfo(count: nat)
    | DbError
    | BadFormat
    | BadDateTime
    | PastDate
    | Created(row: TaskRow)
    | ServerError

  /** The reply to a verdict and the table after it: one row is inserted
      exactly when the verdict accepts and the database is up. */
  function OutcomeOfVerdict(t: Table, v: Verdict, storeDown: bool): (r: (Table, Outcome))
    requires WellFormed(t)
    ensures WellFormed(r.0)
    ensures r.1.Created? <==> !storeDown && v.Accept?
    ensures r.1.Created? ==> r.1.row == v.row && r.0 == Insert(t, v.row).0
    ensures !r.1.Created? ==> r.0 == t
  {
    match v
    case RejectFormat => (t, BadFormat)
    case RejectDate => (t, BadDateTime)
    case RejectPast => (t, PastDate)
    case Accept(row) =>
      if storeDown then (t, ServerError)
      else (Insert(t, row).0, Created(row))
  }

  /** The reply to the text of a message from `chatId`, and the table after
      it: the two commands first, every other text through the task checks. */
  function RespondToText(t: Table, text: string, chatId: int, now: Instant, storeDown: bool)
    : (r: (Table, Outcome))
    requires WellFormed(t)
    ensures WellFormed(r.0)
    ensures r.1.Created? ==> r.0 == Insert(t, r.1.row).0
    ensures !r.1.Created? ==> r.0 == t
    ensures EqualsIgnoreCase(StartCommand, text) ==> r.1 == Welcome
    ensures EqualsIgnoreCase(DbInfoCommand, text) ==> r.1 == if storeDown then DbError else DbInfo(|t.rows|)
    ensures r.1.Created? ==>
              && !storeDown && !EqualsIgnoreCase(StartCommand, text) && !EqualsIgnoreCase(DbInfoCommand, text)
              && ClassifyTask(text, chatId, now) == Accept(r.1.row)
  {
    if EqualsIgnoreCase(StartCommand, text) then (t, Welcome)
    else if EqualsIgnoreCase(DbInfoCommand, text) then
      (t, if storeDown then DbError else DbInfo(|t.rows|))
    else OutcomeOfVerdict(t, ClassifyTask(text, chatId, now), storeDown)
  }

  /** The reply to one update and the table after it: an update without a
      message or without text is ignored, any other is the reply to its text. */
  function Respond(t: Table, u: Update, now: Instant, storeDown: bool): (r: (Table, Outcome))
    requires WellFormed(t)
    ensures WellFormed(r.0)
    ensures r.1.Created? ==> r.0 == Insert(t, r.1.row).0
    ensures !r.1.Created? ==> r.0 == t
    ensures u.message.None? || u.message.value.text.None? ==> r == (t, Ignored)
    ensures u.message.Some? && u.message.value.text.Some? ==>
              r == RespondToText(t, u.message.value.text.value, u.message.value.chatId, now, storeDown)
  {
    match u.message
    case None => (t, Ignored)
    case Some(msg) =>
      match msg.text
      case None => (t, Ignored)
      case Some(text) => RespondToText(t, text, msg.chatId, now, storeDown)
  }

  /** Every text other than the two commands gets exactly the outcome of
      the task checks: an accepted reminder is created while the database
      is up, and any other verdict leaves the table as it was. */
  lemma OtherTextIsTaskChecked(t: Table, u: Update, now: Instant, storeDown: bool)
    requires WellFormed(t) && u.message.Some? && u.message.value.text.Some?
    requires !EqualsIgnoreCase(StartCommand, u.message.value.text.value)
    requires !EqualsIgnoreCase(DbInfoCommand, u.message.value.text.value)
    ensures Respond(t, u, now, storeDown)
            == OutcomeOfVerdict(t, ClassifyTask(u.message.value.text.value, u.message.value.chatId, now), storeDown)
  {
  }

  // ---- A batch of updates ----

  /** One update together with the clock reading and the database state at
      the time it is handled. */
  datatype Arrival = Arrival(update: Update, now: Instant, storeDown: bool)

  function RespondAll(t: Table, arrivals: seq<Arrival>): (r: (Table, seq<Outcome>))
    requires WellFormed(t)
    ensures WellFormed(r.0) && |r.1| == |arrivals|
    decreases |arrivals|
  {
    if arrivals == [] then (t, [])
    else
      var before := RespondAll(t, arrivals[..|arrivals| - 1]);
      var a := arrivals[|arrivals| - 1];
      var step := Respond(before.0, a.update, a.now, a.storeDown);
      (step.0, before.1 + [step.1])
  }

  function CreatedCount(outcomes: seq<Outcome>): nat
  {
    if outcomes == [] then 0
    else CreatedCount(outcomes[..|outcomes| - 1]) + (if outcomes[|outcomes| - 1].Created? then 1 else 0)
  }

  /** The listener never changes or removes a stored task, and the table
      grows by exactly one row per confirmation sent. */
  lemma {:induction false} RespondAllOnlyAdds(t: Table, arrivals: seq<Arrival>)
    requires WellFormed(t)
    ensures var r := RespondAll(t, arrivals);
            && (forall k :: k in t.rows ==> k in r.0.rows && r.0.rows[k] == t.rows[k])
            && |r.0.rows| == |t.rows| + CreatedCount(r.1)
  {
    if arrivals != [] {
      var q := arrivals[..|arrivals| - 1];
      RespondAllOnlyAdds(t, q);
      var before := RespondAll(t, q);
      assert RespondAll(t, arrivals).1[..|arrivals| - 1] == before.1;
    }
  }

  class TelegramBotUpdatesListener {
    const repository: NotificationTaskRepository

    constructor (repository: NotificationTaskRepository)
      ensures this.repository == repository
    {
      this.repository := repository;
    }

    /** `process(updates)`: the updates are handled one after the other;
        every exception below is caught per update. */
    method Process(arrivals: seq<Arrival>) returns (outcomes: seq<Outcome>)
      requires repository.Valid()
      modifies repository
      ensures repository.Valid()
      ensures (repository.State(), outcomes) == RespondAll(old(repository.State()), arrivals)
    {
      outcomes := [];
      var i := 0;
      while i < |arrivals|
        invariant 0 <= i <= |arrivals|
        invariant repository.Valid()
        invariant (repository.State(), outcomes) == RespondAll(old(repository.State()), arrivals[..i])
      {
        assert arrivals[..i + 1][..i] == arrivals[..i];
        var outcome := ProcessUpdate(arrivals[i].update, arrivals[i].now, arrivals[i].storeDown);
        outcomes := outcomes + [outcome];
        i := i + 1;
      }
      assert arrivals[..i] == arrivals;
    }

    /** `processUpdate(update)` */
    method ProcessUpdate(update: Update, now: Instant, storeDown: bool) returns (outcome: Outcome)
      requires repository.Valid()
      modifies repository
      ensures repository.Valid()
      ensures (repository.State(), outcome) == Respond(old(repository.State()), update, now, storeDown)
    {
      if update.message.None? || update.message.value.text.None? {
        return Ignored;
      }
      var text := update.message.value.text.value;
      var chatId := update.message.value.chatId;
      if EqualsIgnoreCase(StartCommand, text) {
        outcome := Welcome;
      } else if EqualsIgnoreCase(DbInfoCommand, text) {
        var ok, count := repository.Count(storeDown);
        outcome := if ok then DbInfo(count) else DbError;
      } else {
        outcome := ProcessTaskMessage(text, chatId, now, storeDown);
      }
    }

    /** `processTaskMessage(text, chatId)` */
    method ProcessTaskMessage(text: string, chatId: int, now: Instant, storeDown: bool)
      returns (outcome: Outcome)
      requires repository.Valid()
      modifies repository
      ensures repository.Valid()
      ensures (repository.State(), outcome)
              == OutcomeOfVerdict(old(repository.State()), ClassifyTask(text, chatId, now), storeDown)
    {
      var m := MatchTask(text);
      if m.None? {
        return BadFormat;
      }
      outcome := ProcessTask(m.value, chatId, now, storeDown);
    }

    /** `processTask(matcher, chatId)`: parse group 1, refuse a past time,
        save; a failing save is reported as a server error. */
    method ProcessTask(m: TaskMatch, chatId: int, now: Instant, storeDown: bool)
      returns (outcome: Outcome)
      requires repository.Valid()
      modifies repository
      ensures repository.Valid()
      ensures (repository.State(), outcome)
              == OutcomeOfVerdict(old(repository.State()), ParseVerdict(m, chatId, now), storeDown)
    {
      var dateTimeStr := DateTimeText(m);
      var dateTime := ParseLocalDateTime(dateTimeStr);
      if dateTime.None? {
        return BadDateTime;
      }
      if dateTime.value < now {
        return PastDate;
      }
      var saved := SaveNotificationTask(chatId, m.body, dateTime.value, storeDown);
      outcome := if saved then Created(TaskRow(chatId, m.body, dateTime.value)) else ServerError;
    }

    /** `saveNotificationTask(...)`: a new entity filled through its setters
        is saved; the store assigns its id. */
    method SaveNotificationTask(chatId: int, taskText: string, dateTime: Instant, storeDown: bool)
      returns (saved: bool)
      requires repository.Valid()
      modifies repository
      ensures repository.Valid()
      ensures saved == !storeDown
      ensures repository.State() == if saved then Insert(old(repository.State()), TaskRow(chatId, taskText, dateTime)).0
                                    else old(repository.State())
    {
      var task := new NotificationTask();
      task.SetChatId(chatId);
      task.SetMessage(taskText);
      task.SetNotificationDateTime(dateTime);
      saved := repository.Save(task, storeDown);
    }
  }
}

# sky_bot reminder core in Dafny

A model of the two pieces of sequential logic of the sky_bot Telegram
reminder bot, and of the task table they share.

- **Inbound reminders** (`TelegramBotUpdatesListener`). Every update is routed.
  - `/start` and `/dbinfo` (compared ignoring case) go to their own replies.
  - Any other text is checked in three short-circuiting steps:
    1. a whole-string match against `(\d{1,2}\.\d{1,2}\.\d{4} \d{1,2}:\d{2})\s+(.+)`;
    2. a parse of group 1 with `DateTimeFormatter.ofPattern("dd.MM.yyyy HH:mm")`;
    3. a strict "before now" test.
  - A text that passes all three is stored as a new `NotificationTask`. Its
    message is group 2 verbatim.
- **The per-minute dispatch tick** (`NotificationScheduler`).
  - The clock is truncated to the minute.
  - The tasks whose time equals that minute exactly are loaded.
  - Each is sent and then deleted. If either throws, its time is moved to the
    next minute and it is saved back.
  - An exception from that save ends the tick.
  - Nothing escapes the tick.
- **The task entity and its repository.** `NotificationTask` is a class with
  four nullable fields and setters. `NotificationTaskRepository` is a class
  holding a map from the IDENTITY-generated id to the three NOT NULL columns.
  It has `save`, `delete`, `count` and `findByNotificationDateTime`.

## Modelling choices

- **Time.** A `LocalDateTime` is an `int`: nanoseconds since 0001-01-01T00:00
  in the proleptic Gregorian calendar (`Clock.At`).
  - Truncation to the minute is `t - t % 60_000_000_000`. Dafny's `%` is
    Euclidean, which matches `truncatedTo(MINUTES)` for every year.
  - `LocalDateTime.now()` is a parameter.
- **The regex** is a hand-written recogniser, `TaskPattern.MatchTask`. It is
  built one field at a time from the right.
  - Java's `\d` is `[0-9]` and `\s` is `[ \t\n\x0B\f\r]`.
  - `.` excludes `\n`, `\r`, U+0085, U+2028 and U+2029.
  - The greedy `\s+` gives back exactly one character when the rest would
    otherwise be empty.
  - `MatchIffInLanguage` proves that the recogniser accepts exactly the
    pattern's language. `MatchRoundTrip` proves that it recovers the fields.
- **The formatter** follows `ofPattern` with its SMART resolver style
  (`DateTimeFormat.ParseLocalDateTime`):
  - the fields are fixed-width, two digits each for `dd`, `MM`, `HH` and `mm`;
  - day 1..31, month 1..12, year-of-era from 1, minute 0..59;
  - hour 0..23, or 24 with minute 00, which means midnight of the next day;
  - a day beyond the end of a shorter month is moved back to the month's last
    day.
- **Case-insensitive commands.** `equalsIgnoreCase` uses Java's per-character
  rule. Besides the ASCII letters, LONG S matches `s`, DOTLESS I and
  CAPITAL I WITH DOT ABOVE match `i`, and KELVIN SIGN matches `k`.
- **Failures are oracle inputs.**
  - The listener takes `storeDown` for whether the database throws.
  - The tick takes `TickFaults`: whether the query throws, and for each task
    id whether its send, delete or reschedule save throws.
  - A failed store operation changes nothing.
- **Store semantics.**
  - `save` of an entity without an id inserts under the next IDENTITY value
    and writes that id into the entity.
  - `save` of an entity whose id is stored overwrites that row.
  - `save` of a detached entity whose id is not stored inserts a new row.
  - `save` fails when a NOT NULL column is null.
- **The order of the due tasks.** `findByNotificationDateTime` returns them in
  an order the query leaves open. It is a nondeterministic choice, and a ghost
  out-parameter names it.
  - The tick is specified by `Scheduler.RunBatch` over that order.
  - `TickIsOrderIndependent` shows that the resulting table does not depend
    on the order unless a reschedule save fails, and that the i-th send goes
    to the chat of the i-th listed task.
- **Two inputs whose outcome is easy to misjudge.** The model follows what the
  code does with them:
  - `31.02.2025 10:00 …` is not a date error. The SMART resolver clamps it to
    28.02.2025 and the reminder is created (`February31IsClamped`).
  - `1.1.2020 9:00 Old task` is not a past-date rejection. The one-digit fields
    match the pattern but fail the two-digit formatter, so the reply is the
    date error (`SingleDigitRequestIsDateError`).
- **Several ticks.** `Scheduler.Ticks` chains the program's ticks, one per
  minute, each with its own faults and its own query order.
  - While every query and reschedule save succeeds, a task whose delivery
    keeps failing moves on one minute per tick (`RetryMovesForward`).
  - Selection is by exact equality. A task due at a tick whose query throws,
    or whose own reschedule save throws, keeps a minute that has passed, and
    no later query lists it again (`FailedTickStrandsTask`, `PassedTaskStays`).

## Model

| member | source | states |
|---|---|---|
| TaskPattern.MatchTask | src/main/java/pro/sky/telegrambot/listener/TelegramBotUpdatesListener.java:29-30 | a match has 1–2-digit day, month and hour, a 4-digit year, a 2-digit minute, a non-empty whitespace gap and a non-empty body free of line terminators; it is the greedy split; its text is the whole input |
| TaskPattern.MatchComplete | src/main/java/pro/sky/telegrambot/listener/TelegramBotUpdatesListener.java:29-30 | every text of the pattern's language matches, with the same date-time token (group 1) |
| TaskPattern.MatchRoundTrip | src/main/java/pro/sky/telegrambot/listener/TelegramBotUpdatesListener.java:29-30 | matching the text of a greedy-form match gives that match back (group 2 verbatim) |
| TaskPattern.MatchIffInLanguage | src/main/java/pro/sky/telegrambot/listener/TelegramBotUpdatesListener.java:29-30 | `matches()` succeeds if and only if the text is in the pattern's language |
| TaskPattern.SplitTail | src/main/java/pro/sky/telegrambot/listener/TelegramBotUpdatesListener.java:29-30 | a split of the tail after the date-time is a non-empty whitespace run followed by a non-empty body without line terminators, which together give the tail back |
| TaskPattern.SplitTailOn | src/main/java/pro/sky/telegrambot/listener/TelegramBotUpdatesListener.java:29-30 | `\s+(.+)` splits any whitespace-then-body tail, and keeps a split whose body does not start with whitespace |
| Clock.TruncateToMinute | src/main/java/pro/sky/telegrambot/scheduler/NotificationScheduler.java:35 | the result is minute-aligned, not after the input, and less than a minute before it |
| Clock.PlusMinutes | src/main/java/pro/sky/telegrambot/scheduler/NotificationScheduler.java:68 | moving by whole minutes keeps the position within the minute, and a positive count moves later |
| Clock.TruncationIsUnique | src/main/java/pro/sky/telegrambot/scheduler/NotificationScheduler.java:35 | the truncation is the only aligned instant within the input's minute |
| Clock.At | src/main/java/pro/sky/telegrambot/listener/TelegramBotUpdatesListener.java:127 | a date-time with minute precision is minute-aligned |
| Clock.YearStep | src/main/java/pro/sky/telegrambot/listener/TelegramBotUpdatesListener.java:32-33 | the days before year y + 1 are those before y plus the length of y (Gregorian leap rule) |
| Clock.NextDateIsNextEpochDay | src/main/java/pro/sky/telegrambot/listener/TelegramBotUpdatesListener.java:32-33 | the calendar successor of a date is the next day, and 24:00 of a day is 00:00 of the next |
| DateTimeFormat.SmartDay | src/main/java/pro/sky/telegrambot/listener/TelegramBotUpdatesListener.java:32-33 | the resolved day is a real date: the typed day if the month has it, otherwise the month's last day |
| DateTimeFormat.ParseLocalDateTime | src/main/java/pro/sky/telegrambot/listener/TelegramBotUpdatesListener.java:127 | parsing succeeds exactly when the text has the `dd.MM.yyyy HH:mm` layout and the fields pass the range checks; the result is minute-aligned |
| DateTimeFormat.FormatLayout | src/main/java/pro/sky/telegrambot/listener/TelegramBotUpdatesListener.java:32-33 | formatting writes the layout, and reading its fields gives the fields back |
| DateTimeFormat.ParseFormatRoundTrip | src/main/java/pro/sky/telegrambot/listener/TelegramBotUpdatesListener.java:32-33 | parsing the formatted text of any real date-time of years 1..9999 gives that date-time |
| DateTimeFormat.EndOfDayMidnight | src/main/java/pro/sky/telegrambot/listener/TelegramBotUpdatesListener.java:32-33 | "24:00" parses to midnight of the following day |
| DateTimeFormat.OverlongDayIsClamped | src/main/java/pro/sky/telegrambot/listener/TelegramBotUpdatesListener.java:32-33 | a day past the month's end (up to 31) parses to the month's last day |
| DateTimeFormat.OutOfRangeIsRejected | src/main/java/pro/sky/telegrambot/listener/TelegramBotUpdatesListener.java:32-33 | day 00 or 32+, month 00 or 13+, year 0000, minute 60+, hour 25+, or 24 with minutes fail to parse |
| UpdatesListener.EqualsIgnoreCase | src/main/java/pro/sky/telegrambot/listener/TelegramBotUpdatesListener.java:71-73 | the command matches itself, and a matching text holds no non-ASCII character other than LONG S, DOTLESS I, CAPITAL I WITH DOT ABOVE and KELVIN SIGN |
| UpdatesListener.AsciiCommandIsCaseInsensitive | src/main/java/pro/sky/telegrambot/listener/TelegramBotUpdatesListener.java:71-77 | on ASCII text, a command is recognised exactly when the lower-cased text is the command |
| UpdatesListener.BadFormatIffOutsideLanguage | src/main/java/pro/sky/telegrambot/listener/TelegramBotUpdatesListener.java:102-108 | the format error is given exactly to texts outside the pattern's language |
| UpdatesListener.VerdictOfMatch | src/main/java/pro/sky/telegrambot/listener/TelegramBotUpdatesListener.java:122-134 | a matching text is a date error if group 1 does not parse, past if the time is strictly before now, and otherwise accepted with the sender's chat, group 2 verbatim and the parsed time |
| UpdatesListener.ClassifyTask | src/main/java/pro/sky/telegrambot/listener/TelegramBotUpdatesListener.java:102-134 | an accepted task has the sender's chat, a non-empty message without line terminators, and a minute-aligned time not before now |
| UpdatesListener.ParseVerdict | src/main/java/pro/sky/telegrambot/listener/TelegramBotUpdatesListener.java:122-136 | a match is never a format error; it is a date error exactly when group 1 does not parse; an accepted task has the sender's chat, group 2 verbatim and an aligned time not before now |
| UpdatesListener.ShortFieldIsDateError | src/main/java/pro/sky/telegrambot/listener/TelegramBotUpdatesListener.java:126-136 | a matching text with a one-digit day, month or hour is a date error, whatever the clock |
| UpdatesListener.DueNowIsAccepted | src/main/java/pro/sky/telegrambot/listener/TelegramBotUpdatesListener.java:129-132 | a time equal to now is accepted |
| UpdatesListener.WellFormedRequestIsAccepted | src/main/java/pro/sky/telegrambot/listener/TelegramBotUpdatesListener.java:122-134 | a request typed in the formatter's own layout with a future time is accepted with exactly that time and message |
| UpdatesListener.ExampleRequestIsAccepted | src/main/java/pro/sky/telegrambot/listener/TelegramBotUpdatesListener.java:122-134 | "01.01.2030 12:00 Buy milk" before that time creates "Buy milk" at 2030-01-01T12:00 |
| UpdatesListener.February31IsClamped | src/main/java/pro/sky/telegrambot/listener/TelegramBotUpdatesListener.java:127 | "31.02.2025 10:00 …" is accepted for 28.02.2025 10:00 |
| UpdatesListener.SingleDigitRequestIsDateError | src/main/java/pro/sky/telegrambot/listener/TelegramBotUpdatesListener.java:135-136 | "1.1.2020 9:00 Old task" gets the date error |
| UpdatesListener.OutcomeOfVerdict | src/main/java/pro/sky/telegrambot/listener/TelegramBotUpdatesListener.java:122-141 | a row is inserted, under a fresh id and holding the accepted row, exactly when the verdict accepts and the database is up; otherwise the table is unchanged |
| UpdatesListener.RespondToText | src/main/java/pro/sky/telegrambot/listener/TelegramBotUpdatesListener.java:68-77 | `/start` gets the welcome and `/dbinfo` the count (or the database error), neither reaching the task checks; a creation inserts exactly one row under a fresh id and happens only for a non-command text the checks accept while the database is up; otherwise the table is unchanged |
| UpdatesListener.Respond | src/main/java/pro/sky/telegrambot/listener/TelegramBotUpdatesListener.java:63-78 | an update without a message or without text is ignored and changes nothing; any other gets the reply to its text, and the table changes only on a creation, by one row under a fresh id |
| UpdatesListener.OtherTextIsTaskChecked | src/main/java/pro/sky/telegrambot/listener/TelegramBotUpdatesListener.java:75-77 | every text other than the two commands gets exactly the outcome of the task checks, so an accepted reminder is created whenever the database is up |
| UpdatesListener.RespondAll | src/main/java/pro/sky/telegrambot/listener/TelegramBotUpdatesListener.java:52-61 | the updates are handled in order, one outcome each, and the table stays well formed |
| UpdatesListener.RespondAllOnlyAdds | src/main/java/pro/sky/telegrambot/listener/TelegramBotUpdatesListener.java:52-61 | over a batch of updates no stored task is changed or removed, and the table grows by one row per creation |
| UpdatesListener.TelegramBotUpdatesListener.constructor | src/main/java/pro/sky/telegrambot/listener/TelegramBotUpdatesListener.java:38-45 | the listener uses the repository it is given |
| UpdatesListener.TelegramBotUpdatesListener.Process | src/main/java/pro/sky/telegrambot/listener/TelegramBotUpdatesListener.java:52-61 | the loop handles the updates in order and ends with the table and outcomes of `RespondAll` |
| UpdatesListener.TelegramBotUpdatesListener.ProcessUpdate | src/main/java/pro/sky/telegrambot/listener/TelegramBotUpdatesListener.java:63-78 | the new table and the outcome are those of `Respond` |
| UpdatesListener.TelegramBotUpdatesListener.ProcessTaskMessage | src/main/java/pro/sky/telegrambot/listener/TelegramBotUpdatesListener.java:102-109 | the new table and the outcome are those of the text's verdict: format error when the pattern does not match, otherwise the checks of `processTask` |
| UpdatesListener.TelegramBotUpdatesListener.ProcessTask | src/main/java/pro/sky/telegrambot/listener/TelegramBotUpdatesListener.java:122-141 | the new table and the outcome are those of the match's verdict: date error, then past date, then a save failure reported as a server error; otherwise one row with the sender, group 2 and the parsed time |
| UpdatesListener.TelegramBotUpdatesListener.SaveNotificationTask | src/main/java/pro/sky/telegrambot/listener/TelegramBotUpdatesListener.java:143-148 | a new entity filled by the setters is inserted under the next IDENTITY id, or nothing changes when the database throws |
| Scheduler.NotificationText | src/main/java/pro/sky/telegrambot/scheduler/NotificationScheduler.java:57-61 | the text is the fixed prefix followed by the task's message, which can be read back from it |
| Scheduler.HandleTask | src/main/java/pro/sky/telegrambot/scheduler/NotificationScheduler.java:48-53 | a stored task gets one delivery to its chat with its reminder text; it is removed exactly when send and delete succeed, otherwise it keeps chat and message and is moved to now + 1 minute; the loop stops exactly when a stored, undelivered task's reschedule save throws, and then no row changes; no other row changes |
| Scheduler.RunBatch | src/main/java/pro/sky/telegrambot/scheduler/NotificationScheduler.java:47-54 | the loop never adds a task and attempts at most one delivery per listed task |
| Scheduler.BatchPrefix | src/main/java/pro/sky/telegrambot/scheduler/NotificationScheduler.java:47-54 | without a failed reschedule, every prefix of the loop removes the delivered tasks visited, moves the others a minute on, and its i-th send goes to the i-th task's chat with that task's text |
| Scheduler.TickIsOrderIndependent | src/main/java/pro/sky/telegrambot/scheduler/NotificationScheduler.java:42-55 | without a failed reschedule, the tick completes with a table independent of the query's order, and its i-th send is the reminder of the i-th listed due task, one per due task |
| Scheduler.DeliveredIsRemoved | src/main/java/pro/sky/telegrambot/scheduler/NotificationScheduler.java:47-54 | a listed task whose send and delete succeed is gone after the tick once the loop reaches it, whatever a later reschedule save does |
| Scheduler.AbortEndsBatch | src/main/java/pro/sky/telegrambot/scheduler/NotificationScheduler.java:33-39 | a failed reschedule save at task i decides the outcome of the whole tick |
| Scheduler.AbortStops | src/main/java/pro/sky/telegrambot/scheduler/NotificationScheduler.java:47-54 | after a failed reschedule save the remaining tasks are not visited |
| Scheduler.BatchFrame | src/main/java/pro/sky/telegrambot/scheduler/NotificationScheduler.java:44-54 | a task the tick does not visit keeps its row exactly |
| Scheduler.NoTaskIsLost | src/main/java/pro/sky/telegrambot/scheduler/NotificationScheduler.java:47-53 | a task leaves the store only after its text was sent to its chat and its delete succeeded; a remaining task keeps chat and message |
| Scheduler.BatchKeepsAlignment | src/main/java/pro/sky/telegrambot/scheduler/NotificationScheduler.java:66-69 | rescheduled times stay minute-aligned |
| Scheduler.AfterVisit | src/main/java/pro/sky/telegrambot/scheduler/NotificationScheduler.java:66-69 | in a completed tick, a visited task still stored is due one minute later |
| Scheduler.TickTwiceIsIdle | src/main/java/pro/sky/telegrambot/scheduler/NotificationScheduler.java:42-55 | after a completed tick nothing is due at that minute, so a second tick for it sends nothing and changes nothing |
| Scheduler.NothingDueIsIdle | src/main/java/pro/sky/telegrambot/scheduler/NotificationScheduler.java:44-54 | a tick with no due tasks sends nothing and changes nothing |
| Scheduler.TicksAreCompleteTicks | src/main/java/pro/sky/telegrambot/scheduler/NotificationScheduler.java:31-55 | while every query and reschedule save succeeds, each program tick, in any query order, has the order-free result `TickResult` |
| Scheduler.RetryMovesForward | src/main/java/pro/sky/telegrambot/scheduler/NotificationScheduler.java:31-55 | with every query and reschedule save succeeding, a task that keeps failing is at T+n minutes after n program ticks, never dropped, chat and message unchanged |
| Scheduler.RetryThenDeliver | src/main/java/pro/sky/telegrambot/scheduler/NotificationScheduler.java:31-55 | with every query and reschedule save succeeding, a task that fails at T and is delivered at T+1 is still there after T and gone after T+1 |
| Scheduler.PassedTaskStays | src/main/java/pro/sky/telegrambot/scheduler/NotificationScheduler.java:35-44 | a task whose minute has passed is left exactly as it is by every later tick, whatever its faults |
| Scheduler.FailedSaveKeepsRow | src/main/java/pro/sky/telegrambot/scheduler/NotificationScheduler.java:66-69 | a task whose reschedule save throws keeps its row, whether or not the loop reached it |
| Scheduler.FailedTickStrandsTask | src/main/java/pro/sky/telegrambot/scheduler/NotificationScheduler.java:33-44 | a task due at a tick whose query throws, or whose own reschedule save throws, keeps its passed minute through every later tick |
| Scheduler.NotificationScheduler.constructor | src/main/java/pro/sky/telegrambot/scheduler/NotificationScheduler.java:23-29 | the scheduler uses the repository it is given |
| Scheduler.NotificationScheduler.CheckNotifications | src/main/java/pro/sky/telegrambot/scheduler/NotificationScheduler.java:31-40 | the tick runs for the truncated clock and leaves the table `TickRows` gives, the step that `Ticks` chains; a failed query changes nothing; otherwise table and sends are those of `RunBatch` over the query's order; no failure escapes |
| Scheduler.NotificationScheduler.ProcessNotificationsForTime | src/main/java/pro/sky/telegrambot/scheduler/NotificationScheduler.java:42-55 | the loop over the loaded tasks ends with the table, sends and completion of `RunBatch` over the query's order |
| Scheduler.NotificationScheduler.ProcessDueTask | src/main/java/pro/sky/telegrambot/scheduler/NotificationScheduler.java:48-53 | one iteration: table, sends and continuation are those of `HandleTask` for the task's id |
| Scheduler.NotificationScheduler.SendNotification | src/main/java/pro/sky/telegrambot/scheduler/NotificationScheduler.java:57-64 | the delivery goes to the task's chat with the reminder text of its message |
| Scheduler.NotificationScheduler.HandleNotificationError | src/main/java/pro/sky/telegrambot/scheduler/NotificationScheduler.java:66-71 | the entity's time becomes now + 1 minute; a successful save overwrites its row with it, a failed one leaves the table |
| TaskModel.NotificationTask.constructor | src/main/java/pro/sky/telegrambot/model/NotificationTask.java:6-20 | a new entity has all four fields null |
| TaskModel.NotificationTask.SetId | src/main/java/pro/sky/telegrambot/model/NotificationTask.java:24 | the getter then returns the value; the other three fields are unchanged |
| TaskModel.NotificationTask.SetChatId | src/main/java/pro/sky/telegrambot/model/NotificationTask.java:26 | the getter then returns the value; the other three fields are unchanged |
| TaskModel.NotificationTask.SetMessage | src/main/java/pro/sky/telegrambot/model/NotificationTask.java:28 | the getter then returns the value; the other three fields are unchanged |
| TaskModel.NotificationTask.SetNotificationDateTime | src/main/java/pro/sky/telegrambot/model/NotificationTask.java:30-32 | the getter then returns the value; the other three fields are unchanged |
| TaskModel.NotificationTask.Row | src/main/java/pro/sky/telegrambot/model/NotificationTask.java:13-20 | an entity has a storable row exactly when its three NOT NULL columns are set, and the row holds their values |
| TaskRepository.Due | src/main/java/pro/sky/telegrambot/repository/NotificationTaskRepository.java:9 | the selected ids are stored ids whose time equals the argument, and every such id is selected |
| TaskRepository.Insert | src/main/java/pro/sky/telegrambot/model/NotificationTask.java:9-11 | an insert uses an id not yet stored, adds exactly that row, and keeps every id below the IDENTITY counter |
| TaskRepository.NotificationTaskRepository.constructor | src/main/java/pro/sky/telegrambot/repository/NotificationTaskRepository.java:8 | a new table is empty with the counter at 1 |
| TaskRepository.NotificationTaskRepository.Save | src/main/java/pro/sky/telegrambot/repository/NotificationTaskRepository.java:8 | an insert gets a fresh id written back into the entity; a stored id is overwritten and no other row changes; a failure or a null column changes nothing |
| TaskRepository.NotificationTaskRepository.Delete | src/main/java/pro/sky/telegrambot/repository/NotificationTaskRepository.java:8 | only the row with the entity's id is removed |
| TaskRepository.NotificationTaskRepository.Count | src/main/java/pro/sky/telegrambot/repository/NotificationTaskRepository.java:8 | the count is the number of stored rows |
| TaskRepository.NotificationTaskRepository.FindByNotificationDateTime | src/main/java/pro/sky/telegrambot/repository/NotificationTaskRepository.java:9 | one fresh, distinct entity per stored row whose time equals the argument exactly, each carrying that row's id and columns |

## Left out

- The Telegram client. Replies are modelled by their kind (`Outcome`), not by
  their wording, HTML parse mode or `SendMessage` request.
  - A failing reply is swallowed in the source and touches nothing else, so
    the model has no reply step.
  - The welcome text, the `/dbinfo` text and the injected database user name
    are left out.
- Spring wiring is left out:
  - the `@Scheduled` cron timing;
  - `@PostConstruct` registration of the listener;
  - dependency injection.
- Logging is left out. It has no effect on state.
- The `process` return codes are left out. They only concern the Telegram
  library's acknowledgement protocol, and every exception below `process` is
  caught per update.
- Concurrency between the listener thread and the scheduler thread is left
  out. Updates and ticks are taken to run one at a time.
- JPA mechanics and transactions are left out. The table is an in-memory map,
  and a failed operation is atomic.
- The IDENTITY counter is left unchanged by a failed insert.
- Time zones are left out. `LocalDateTime.now()` is a parameter in the zone
  the source uses.
- Java `Long` is not bounded. Ids and chat ids are unbounded integers, so
  64-bit overflow of the IDENTITY counter is not modelled.
- The formatter models the range checks and the day clamp of the SMART
  resolver. Other `java.time` resolver paths cannot be reached with this
  fixed pattern and are not modelled.
- Scheduler.NotificationScheduler.SendNotification: requires a task whose three
  required columns are set.
  - Every entity the query loads has them.
  - What the channel does with a null chat id or message is not modelled.
- TaskModel.NotificationTask.SetChatId: the setters take values, not null. No
  caller in the core passes null.
- A reply to an update that has a message but no chat is left out. `chat()` is
  taken to be present.

/**
 * The per-minute dispatch tick of NotificationScheduler.
 *
 * A tick truncates the clock to the minute, loads the tasks whose time is
 * exactly that minute, and for each one sends the notification and deletes
 * the task; if the send or the delete throws, the task's time is moved to
 * the next minute and the task is saved back. An exception from that save
 * ends the tick for the remaining tasks. Nothing escapes the tick.
 *
 * The channel and the store are oracles: TickFaults names, per task id,
 * which of their calls throw during the tick.
 */
module Scheduler {
  import opened Wrappers
  import opened Clock
  import opened TaskModel
  import opened TaskRepository

  /** The fixed head of every reminder (HTML parse mode). */
  const NotificationPrefix: string := "\U{1F514} <b>Напоминание!</b>\n\n"

  /** The text sent for a task: the prefix, then the task's message verbatim. */
  function NotificationText(message: string): (text: string)
    ensures |text| == |NotificationPrefix| + |message|
    ensures text[..|NotificationPrefix|] == NotificationPrefix
    ensures text[|NotificationPrefix|..] == message
  {
    NotificationPrefix + message
  }

  /** One call of the channel: recipient chat and text. */
  datatype Delivery = Delivery(chatId: int, text: string)

  /** The delivery attempted for a stored task: its chat and its reminder text. */
  function DeliveryFor(row: TaskRow): Delivery
  {
    Delivery(row.chatId, NotificationText(row.message))
  }

  /** Which calls throw during one tick: the due-task query, and per task
      id the send, the delete and the reschedule save. */
  datatype TickFaults = TickFaults(
    queryFails: bool, sendFails: set<int>, deleteFails: set<int>, saveFails: set<int>)

  /** The task with this id is sent and deleted without an exception. */
  predicate Delivered(f: TickFaults, k: int)
  {
    k !in f.sendFails && k !in f.deleteFails
  }

  /** The state of a tick in progress: the table's rows, the deliveries
      attempted so far, and whether the loop is still running. */
  datatype Batch = Batch(rows: map<int, TaskRow>, sent: seq<Delivery>, completed: bool)

  /** One iteration of the loop in processNotificationsForTime: a stored
      task gets one delivery appended; it is removed only when its send and
      delete succeed, otherwise it keeps its chat and message; a failed
      reschedule changes no row and stops the loop; no other row changes. */
  function HandleTask(b: Batch, k: int, now: Instant, f: TickFaults): (r: Batch)
    ensures r.sent == if k in b.rows then b.sent + [DeliveryFor(b.rows[k])] else b.sent
    ensures k !in r.rows <==> k !in b.rows || Delivered(f, k)
    ensures k in r.rows ==> r.rows[k].chatId == b.rows[k].chatId && r.rows[k].message == b.rows[k].message
    ensures b.completed ==> (r.completed <==> !(k in b.rows && !Delivered(f, k) && k in f.saveFails))
    ensures !r.completed ==> r.rows == b.rows
    ensures k in r.rows && r.completed ==> r.rows[k] == b.rows[k].(fireAt := PlusMinutes(now, 1))
    ensures forall j :: j != k ==> (j in r.rows <==> j in b.rows)
    ensures forall j :: j != k && j in r.rows ==> r.rows[j] == b.rows[j]
  {
    if k !in b.rows then b
    else
      var row := b.rows[k];
      var sent := b.sent + [DeliveryFor(row)];
      if Delivered(f, k) then Batch(b.rows - {k}, sent, true)
      else if k in f.saveFails then Batch(b.rows, sent, false)
      else Batch(b.rows[k := row.(fireAt := PlusMinutes(now, 1))], sent, true)
  }

  /** The loop over the due tasks in the order the query listed them;
      after a failed reschedule the remaining tasks are not visited. It
      never adds a task and sends at most once per listed id. */
  function RunBatch(rows: map<int, TaskRow>, order: seq<int>, now: Instant, f: TickFaults): (r: Batch)
    ensures r.rows.Keys <= rows.Keys
    ensures |r.sent| <= |order|
    decreases |order|
  {
    if order == [] then Batch(rows, [], true)
    else
      var b := RunBatch(rows, order[..|order| - 1], now, f);
      if b.completed then HandleTask(b, order[|order| - 1], now, f) else b
  }

  // ---- The tick as a whole, independent of the order of the due tasks ----

  /** The rows after the tasks in `handled` were processed without a failed
      reschedule: delivered ones are gone, the others are a minute later. */
  function Processed(rows: map<int, TaskRow>, handled: set<int>, now: Instant, f: TickFaults)
    : map<int, TaskRow>
  {
    map k | k in rows && !(k in handled && Delivered(f, k)) ::
      if k in handled then rows[k].(fireAt := PlusMinutes(now, 1)) else rows[k]
  }

  /** The rows after a complete tick at minute `now`. */
  function TickResult(rows: map<int, TaskRow>, now: Instant, f: TickFaults): map<int, TaskRow>
  {
    Processed(rows, Due(rows, now), now, f)
  }

  /** No reschedule of a due task fails. */
  predicate ReschedulesSucceed(rows: map<int, TaskRow>, now: Instant, f: TickFaults)
  {
    forall k :: k in rows && rows[k].fireAt == now && !Delivered(f, k) ==> k !in f.saveFails
  }

  function Elems(s: seq<int>): set<int>
  {
    set x | x in s
  }

  lemma {:induction false} BatchPrefix(rows: map<int, TaskRow>, p: seq<int>, now: Instant, f: TickFaults)
    requires forall i, j :: 0 <= i < j < |p| ==> p[i] != p[j]
    requires forall i :: 0 <= i < |p| ==> p[i] in rows && rows[p[i]].fireAt == now
    requires ReschedulesSucceed(rows, now, f)
    ensures RunBatch(rows, p, now, f).completed
    ensures RunBatch(rows, p, now, f).rows == Processed(rows, Elems(p), now, f)
    ensures |RunBatch(rows, p, now, f).sent| == |p|
    ensures forall i :: 0 <= i < |p| ==> RunBatch(rows, p, now, f).sent[i] == DeliveryFor(rows[p[i]])
  {
    if p != [] {
      var q, k := p[..|p| - 1], p[|p| - 1];
      BatchPrefix(rows, q, now, f);
      var b := RunBatch(rows, q, now, f);
      assert k !in Elems(q);
      assert k in b.rows && b.rows[k] == rows[k];
      assert Elems(p) == Elems(q) + {k};
      var after := HandleTask(b, k, now, f);
      assert after.rows == Processed(rows, Elems(p), now, f);
      assert after.sent == b.sent + [DeliveryFor(rows[k])];
      forall i | 0 <= i < |p|
        ensures after.sent[i] == DeliveryFor(rows[p[i]])
      {
        if i < |q| {
          assert p[i] == q[i];
        }
      }
    }
  }

  /** Without a failed reschedule, a tick ends the same way whatever order
      the query lists the due tasks in, and sends each due task's reminder
      to its chat exactly once, in the query's order. */
  lemma TickIsOrderIndependent(rows: map<int, TaskRow>, order: seq<int>, now: Instant, f: TickFaults)
    requires Enumerates(order, Due(rows, now))
    requires ReschedulesSucceed(rows, now, f)
    ensures RunBatch(rows, order, now, f).completed
    ensures RunBatch(rows, order, now, f).rows == TickResult(rows, now, f)
    ensures |RunBatch(rows, order, now, f).sent| == |order| == |Due(rows, now)|
    ensures forall i :: 0 <= i < |order| ==>
              order[i] in rows && RunBatch(rows, order, now, f).sent[i] == DeliveryFor(rows[order[i]])
  {
    forall i | 0 <= i < |order|
      ensures order[i] in rows && rows[order[i]].fireAt == now
    {
      EnumeratedIsMember(order, Due(rows, now), i);
    }
    BatchPrefix(rows, order, now, f);
    EnumerationCount(order, Due(rows, now));
  }

  lemma EnumeratedIsMember(order: seq<int>, s: set<int>, i: int)
    requires Enumerates(order, s) && 0 <= i < |order|
    ensures order[i] in s
  {
    assert order[i] in order;
  }

  /** An enumeration lists exactly the set, so it is as long as the set. */
  lemma EnumerationCount(order: seq<int>, s: set<int>)
    requires Enumerates(order, s)
    ensures Elems(order) == s && |order| == |s|
  {
    forall k
      ensures k in Elems(order) <==> k in s
    {
      if k in Elems(order) {
        assert k in order;
      }
    }
    DistinctLength(order);
  }

  lemma {:induction false} DistinctLength(s: seq<int>)
    requires forall i, j :: 0 <= i < j < |s| ==> s[i] != s[j]
    ensures |Elems(s)| == |s|
  {
    if s != [] {
      var q := s[..|s| - 1];
      DistinctLength(q);
      assert Elems(s) == Elems(q) + {s[|s| - 1]};
      assert s[|s| - 1] !in Elems(q);
    }
  }

  /** A listed task whose send and delete succeed is gone after the tick
      once the loop reaches it, even if a later reschedule save throws and
      ends the loop. */
  lemma DeliveredIsRemoved(rows: map<int, TaskRow>, order: seq<int>, now: Instant, f: TickFaults, i: int)
    requires forall a, b :: 0 <= a < b < |order| ==> order[a] != order[b]
    requires 0 <= i < |order| && order[i] in rows && Delivered(f, order[i])
    requires RunBatch(rows, order[..i], now, f).completed
    ensures order[i] !in RunBatch(rows, order, now, f).rows
  {
    var k := order[i];
    assert k !in order[..i];
    BatchFrame(rows, order[..i], now, f, k);
    RunBatchStep(rows, order, i, now, f);
    StaysRemoved(rows, order, i + 1, now, f, k);
  }

  /** The loop never brings back a task that is not stored. */
  lemma {:induction false} StaysRemoved(rows: map<int, TaskRow>, order: seq<int>, j: int, now: Instant, f: TickFaults, k: int)
    requires 0 <= j <= |order| && k !in RunBatch(rows, order[..j], now, f).rows
    decreases |order| - j
    ensures k !in RunBatch(rows, order, now, f).rows
  {
    if j < |order| {
      RunBatchStep(rows, order, j, now, f);
      StaysRemoved(rows, order, j + 1, now, f, k);
    } else {
      assert order[..j] == order;
    }
  }

  /** Once the loop has stopped, later tasks are not visited. */
  lemma {:induction false} AbortStops(rows: map<int, TaskRow>, p: seq<int>, q: seq<int>, now: Instant, f: TickFaults)
    requires !RunBatch(rows, p, now, f).completed
    ensures RunBatch(rows, p + q, now, f) == RunBatch(rows, p, now, f)
  {
    if q != [] {
      var q' := q[..|q| - 1];
      assert (p + q)[..|p + q| - 1] == p + q';
      AbortStops(rows, p, q', now, f);
      assert RunBatch(rows, p + q, now, f) == RunBatch(rows, p + q', now, f);
    } else {
      assert p + q == p;
    }
  }

  /** The loop after i + 1 tasks is the loop after i tasks and one more step. */
  lemma RunBatchStep(rows: map<int, TaskRow>, order: seq<int>, i: int, now: Instant, f: TickFaults)
    requires 0 <= i < |order|
    ensures var b := RunBatch(rows, order[..i], now, f);
            RunBatch(rows, order[..i + 1], now, f) == if b.completed then HandleTask(b, order[i], now, f) else b
  {
    assert order[..i + 1][..i] == order[..i];
  }

  /** A failed reschedule at task i decides the whole tick. */
  lemma AbortEndsBatch(rows: map<int, TaskRow>, order: seq<int>, i: int, now: Instant, f: TickFaults)
    requires 0 <= i < |order| && !RunBatch(rows, order[..i + 1], now, f).completed
    ensures RunBatch(rows, order, now, f) == RunBatch(rows, order[..i + 1], now, f)
  {
    assert order == order[..i + 1] + order[i + 1..];
    AbortStops(rows, order[..i + 1], order[i + 1..], now, f);
  }

  /** Rows of tasks the tick does not visit are left exactly as they were. */
  lemma {:induction false} BatchFrame(rows: map<int, TaskRow>, order: seq<int>, now: Instant, f: TickFaults, k: int)
    requires k !in order
    ensures k in RunBatch(rows, order, now, f).rows <==> k in rows
    ensures k in rows ==> RunBatch(rows, order, now, f).rows[k] == rows[k]
  {
    if order != [] {
      BatchFrame(rows, order[..|order| - 1], now, f, k);
    }
  }

  /** A task leaves the store only after its notification was sent to its
      chat and deleted without an exception; every other task keeps its
      chat and message. */
  lemma {:induction false} NoTaskIsLost(rows: map<int, TaskRow>, order: seq<int>, now: Instant, f: TickFaults, k: int)
    requires k in rows
    ensures var b := RunBatch(rows, order, now, f);
            if k in b.rows then b.rows[k].chatId == rows[k].chatId && b.rows[k].message == rows[k].message
            else Delivered(f, k) && DeliveryFor(rows[k]) in b.sent
  {
    if order != [] {
      var q := order[..|order| - 1];
      NoTaskIsLost(rows, q, now, f, k);
      var b := RunBatch(rows, q, now, f);
      if b.completed && k !in b.rows {
        assert HandleTask(b, order[|order| - 1], now, f).sent[..|b.sent|] == b.sent;
      }
    }
  }

  /** Every stored time stays minute-aligned: rescheduling adds one minute
      to a truncated instant. */
  predicate Aligned(rows: map<int, TaskRow>)
  {
    forall k :: k in rows ==> rows[k].fireAt % NanosPerMinute == 0
  }

  lemma {:induction false} BatchKeepsAlignment(rows: map<int, TaskRow>, order: seq<int>, now: Instant, f: TickFaults)
    requires Aligned(rows) && now % NanosPerMinute == 0
    ensures Aligned(RunBatch(rows, order, now, f).rows)
  {
    if order != [] {
      BatchKeepsAlignment(rows, order[..|order| - 1], now, f);
      PlusOneMinuteStaysAligned(now);
    }
  }

  /** After a complete tick nothing is due at that minute any more, so
      running the tick again for the same minute sends nothing and changes
      nothing. */
  lemma TickTwiceIsIdle(rows: map<int, TaskRow>, order: seq<int>, again: seq<int>, now: Instant, f: TickFaults, g: TickFaults)
    requires Enumerates(order, Due(rows, now)) && RunBatch(rows, order, now, f).completed
    requires Enumerates(again, Due(RunBatch(rows, order, now, f).rows, now))
    ensures again == []
    ensures var b := RunBatch(rows, order, now, f);
            RunBatch(b.rows, again, now, g) == Batch(b.rows, [], true)
  {
    var b := RunBatch(rows, order, now, f);
    forall k | k in b.rows
      ensures b.rows[k].fireAt != now
    {
      if k in order {
        AfterVisit(rows, order, now, f, k);
      } else {
        BatchFrame(rows, order, now, f, k);
      }
    }
    assert Due(b.rows, now) == {};
    EnumerationCount(again, Due(b.rows, now));
  }

  /** In a completed run, a visited task that is still stored is a minute later. */
  lemma {:induction false} AfterVisit(rows: map<int, TaskRow>, order: seq<int>, now: Instant, f: TickFaults, k: int)
    requires forall i, j :: 0 <= i < j < |order| ==> order[i] != order[j]
    requires RunBatch(rows, order, now, f).completed
    requires k in order && k in RunBatch(rows, order, now, f).rows
    ensures RunBatch(rows, order, now, f).rows[k].fireAt == PlusMinutes(now, 1)
  {
    var q, last := order[..|order| - 1], order[|order| - 1];
    var b := RunBatch(rows, q, now, f);
    if k == last {
      assert k !in q;
      BatchFrame(rows, q, now, f, k);
    } else {
      assert k in q;
      AfterVisit(rows, q, now, f, k);
    }
  }

  /** A tick with nothing due sends nothing and changes nothing. */
  lemma NothingDueIsIdle(rows: map<int, TaskRow>, order: seq<int>, now: Instant, f: TickFaults)
    requires Enumerates(order, Due(rows, now)) && Due(rows, now) == {}
    ensures RunBatch(rows, order, now, f) == Batch(rows, [], true)
  {
    EnumerationCount(order, Due(rows, now));
  }

  // ---- Several ticks ----

  /** The rows after one tick of the program at minute `now` whose query
      lists the due tasks in `order`: a tick whose query throws changes
      nothing. */
  function TickRows(rows: map<int, TaskRow>, now: Instant, f: TickFaults, order: seq<int>): map<int, TaskRow>
  {
    if f.queryFails then rows else RunBatch(rows, order, now, f).rows
  }

  /** Ticks of the program at start, start + 1 minute, ...: tick i meets
      the faults fs[i] and its query lists the due tasks in orders[i]. */
  function Ticks(rows: map<int, TaskRow>, start: Instant, fs: seq<TickFaults>, orders: seq<seq<int>>)
    : map<int, TaskRow>
    requires |orders| == |fs|
    decreases |fs|
  {
    if fs == [] then rows
    else Ticks(TickRows(rows, start, fs[0], orders[0]), PlusMinutes(start, 1), fs[1..], orders[1..])
  }

  /** Every tick whose query succeeds lists exactly the tasks due at its minute. */
  ghost predicate Listed(rows: map<int, TaskRow>, start: Instant, fs: seq<TickFaults>, orders: seq<seq<int>>)
    requires |orders| == |fs|
    decreases |fs|
  {
    fs != [] ==>
      && (!fs[0].queryFails ==> Enumerates(orders[0], Due(rows, start)))
      && Listed(TickRows(rows, start, fs[0], orders[0]), PlusMinutes(start, 1), fs[1..], orders[1..])
  }

  /** The ticks reach every query and no reschedule save throws. */
  predicate Undisturbed(fs: seq<TickFaults>)
  {
    forall i :: 0 <= i < |fs| ==> !fs[i].queryFails && fs[i].saveFails == {}
  }

  /** While every query and every reschedule save succeeds, the program's
      ticks are the order-free ticks of TickResult. */
  lemma {:induction false} TicksAreCompleteTicks(
    rows: map<int, TaskRow>, start: Instant, fs: seq<TickFaults>, orders: seq<seq<int>>)
    requires |orders| == |fs| && Listed(rows, start, fs, orders) && Undisturbed(fs)
    decreases |fs|
    ensures fs != [] ==>
              Ticks(rows, start, fs, orders)
                == Ticks(TickResult(rows, start, fs[0]), PlusMinutes(start, 1), fs[1..], orders[1..])
  {
    if fs != [] {
      assert !fs[0].queryFails && fs[0].saveFails == {};
      TickIsOrderIndependent(rows, orders[0], start, fs[0]);
    }
  }

  /** A task whose delivery keeps failing while every query and reschedule
      save succeeds moves to T+1, T+2, ... minutes and is never dropped;
      its chat and message do not change. */
  lemma {:induction false} RetryMovesForward(
    rows: map<int, TaskRow>, k: int, start: Instant, fs: seq<TickFaults>, orders: seq<seq<int>>)
    requires |orders| == |fs| && Listed(rows, start, fs, orders) && Undisturbed(fs)
    requires k in rows && rows[k].fireAt == start
    requires forall i :: 0 <= i < |fs| ==> !Delivered(fs[i], k)
    decreases |fs|
    ensures k in Ticks(rows, start, fs, orders)
    ensures Ticks(rows, start, fs, orders)[k] == rows[k].(fireAt := PlusMinutes(start, |fs|))
  {
    if fs != [] {
      TicksAreCompleteTicks(rows, start, fs, orders);
      TickIsOrderIndependent(rows, orders[0], start, fs[0]);
      var next := TickResult(rows, start, fs[0]);
      assert k in Due(rows, start);
      assert next[k] == rows[k].(fireAt := PlusMinutes(start, 1));
      assert Undisturbed(fs[1..]) && forall i :: 0 <= i < |fs[1..]| ==> !Delivered(fs[1..][i], k) by {
        forall i | 0 <= i < |fs[1..]|
          ensures !fs[1..][i].queryFails && fs[1..][i].saveFails == {} && !Delivered(fs[1..][i], k)
        {
          assert fs[1..][i] == fs[i + 1];
        }
      }
      RetryMovesForward(next, k, PlusMinutes(start, 1), fs[1..], orders[1..]);
    }
  }

  /** A task that failed at minute T and is delivered at T + 1, with every
      query and reschedule save succeeding, is gone after the second tick. */
  lemma RetryThenDeliver(
    rows: map<int, TaskRow>, k: int, start: Instant, f1: TickFaults, f2: TickFaults, o1: seq<int>, o2: seq<int>)
    requires Listed(rows, start, [f1, f2], [o1, o2]) && Undisturbed([f1, f2])
    requires k in rows && rows[k].fireAt == start
    requires !Delivered(f1, k) && Delivered(f2, k)
    ensures k in Ticks(rows, start, [f1], [o1])
    ensures k !in Ticks(rows, start, [f1, f2], [o1, o2])
  {
    var next := RunBatch(rows, o1, start, f1).rows;
    assert [f1, f2][1..] == [f2] && [o1, o2][1..] == [o2];
    assert Enumerates(o1, Due(rows, start)) && Enumerates(o2, Due(next, PlusMinutes(start, 1)));
    assert Undisturbed([f1]);
    RetryMovesForward(rows, k, start, [f1], [o1]);
    TickIsOrderIndependent(next, o2, PlusMinutes(start, 1), f2);
    assert k in Due(next, PlusMinutes(start, 1));
    assert Ticks(rows, start, [f1, f2], [o1, o2]) == Ticks(next, PlusMinutes(start, 1), [f2], [o2]);
    assert Ticks(next, PlusMinutes(start, 1), [f2], [o2]) == RunBatch(next, o2, PlusMinutes(start, 1), f2).rows;
  }

  /** A task whose minute has passed is never due again: every later tick,
      whatever its faults, leaves its row as it is. */
  lemma {:induction false} PassedTaskStays(
    rows: map<int, TaskRow>, k: int, start: Instant, fs: seq<TickFaults>, orders: seq<seq<int>>)
    requires |orders| == |fs| && Listed(rows, start, fs, orders)
    requires k in rows && rows[k].fireAt < start
    decreases |fs|
    ensures k in Ticks(rows, start, fs, orders) && Ticks(rows, start, fs, orders)[k] == rows[k]
  {
    if fs != [] {
      if !fs[0].queryFails {
        assert k !in Due(rows, start);
        assert k !in orders[0];
        BatchFrame(rows, orders[0], start, fs[0], k);
      }
      PassedTaskStays(TickRows(rows, start, fs[0], orders[0]), k, PlusMinutes(start, 1), fs[1..], orders[1..]);
    }
  }

  /** A reschedule save that throws leaves the task's row as it was, whether
      or not the task was reached. */
  lemma {:induction false} FailedSaveKeepsRow(rows: map<int, TaskRow>, order: seq<int>, now: Instant, f: TickFaults, k: int)
    requires k in rows && k in f.saveFails && !Delivered(f, k)
    ensures k in RunBatch(rows, order, now, f).rows && RunBatch(rows, order, now, f).rows[k] == rows[k]
  {
    if order != [] {
      FailedSaveKeepsRow(rows, order[..|order| - 1], now, f, k);
    }
  }

  /** A task due at a tick whose query throws, or whose own reschedule save
      throws, keeps its passed minute through every later tick, so no later
      query lists it again. */
  lemma FailedTickStrandsTask(
    rows: map<int, TaskRow>, k: int, start: Instant, fs: seq<TickFaults>, orders: seq<seq<int>>)
    requires |orders| == |fs| && Listed(rows, start, fs, orders)
    requires k in rows && rows[k].fireAt == start && fs != []
    requires fs[0].queryFails || (k in fs[0].saveFails && !Delivered(fs[0], k))
    ensures k in Ticks(rows, start, fs, orders) && Ticks(rows, start, fs, orders)[k] == rows[k]
  {
    var next := TickRows(rows, start, fs[0], orders[0]);
    if !fs[0].queryFails {
      FailedSaveKeepsRow(rows, orders[0], start, fs[0], k);
    }
    PassedTaskStays(next, k, PlusMinutes(start, 1), fs[1..], orders[1..]);
  }

  // ---- The scheduler component ----

  datatype TickStatus = Completed | QueryFailed | RescheduleFailed

  class NotificationScheduler {
    const repository: NotificationTaskRepository

    constructor (repository: NotificationTaskRepository)
      ensures this.repository == repository
    {
      this.repository := repository;
    }

    /** `checkNotifications()` with the clock reading passed in: every
        exception of the tick is caught and reported as a status. */
    method CheckNotifications(clock: Instant, f: TickFaults)
      returns (status: TickStatus, sent: seq<Delivery>, ghost order: seq<int>)
      requires repository.Valid()
      modifies repository
      ensures repository.Valid() && repository.nextId == old(repository.nextId)
      ensures repository.rows == TickRows(old(repository.rows), TruncateToMinute(clock), f, order)
      ensures var now := TruncateToMinute(clock);
              if f.queryFails then
                status == QueryFailed && sent == [] && repository.rows == old(repository.rows)
              else
                && Enumerates(order, Due(old(repository.rows), now))
                && var b := RunBatch(old(repository.rows), order, now, f);
                && repository.rows == b.rows && sent == b.sent
                && (status == Completed <==> b.completed)
                && (status == RescheduleFailed <==> !b.completed)
    {
      var now := TruncateToMinute(clock);
      var loaded, completed;
      loaded, completed, sent, order := ProcessNotificationsForTime(now, f);
      status := if !loaded then QueryFailed else if completed then Completed else RescheduleFailed;
    }

    /** `processNotificationsForTime(now)`: `loaded` is false when the query
        threw, `completed` is false when a reschedule save threw. */
    method ProcessNotificationsForTime(now: Instant, f: TickFaults)
      returns (loaded: bool, completed: bool, sent: seq<Delivery>, ghost order: seq<int>)
      requires repository.Valid()
      modifies repository
      ensures repository.Valid() && repository.nextId == old(repository.nextId)
      ensures loaded == !f.queryFails
      ensures !loaded ==> sent == [] && repository.rows == old(repository.rows)
      ensures loaded ==> && Enumerates(order, Due(old(repository.rows), now))
                         && RunBatch(old(repository.rows), order, now, f)
                            == Batch(repository.rows, sent, completed)
    {
      var tasks;
      loaded, tasks, order := repository.FindByNotificationDateTime(now, f.queryFails);
      sent := [];
      if !loaded {
        return loaded, false, sent, order;
      }
      ghost var rows0 := repository.rows;
      var i := 0;
      while i < |tasks|
        invariant 0 <= i <= |tasks|
        invariant repository.Valid() && repository.nextId == old(repository.nextId)
        invariant RunBatch(rows0, order[..i], now, f) == Batch(repository.rows, sent, true)
        invariant forall j :: i <= j < |tasks| ==>
                    tasks[j].id == Some(order[j]) && tasks[j].Row() == Some(rows0[order[j]])
        invariant forall j :: i <= j < |tasks| ==>
                    order[j] in repository.rows && repository.rows[order[j]] == rows0[order[j]]
      {
        var task := tasks[i];
        RunBatchStep(rows0, order, i, now, f);
        var ok;
        sent, ok := ProcessDueTask(task, now, f, sent);
        if !ok {
          AbortEndsBatch(rows0, order, i, now, f);
          return loaded, false, sent, order;
        }
        i := i + 1;
      }
      assert order[..i] == order;
      return loaded, true, sent, order;
    }

    /** One iteration of the loop: send, then delete; on an exception from
        either, reschedule. `ok` is false when the reschedule save throws. */
    method ProcessDueTask(task: NotificationTask, now: Instant, f: TickFaults, sent0: seq<Delivery>)
      returns (sent: seq<Delivery>, ok: bool)
      requires repository.Valid() && task.Row().Some?
      requires task.id.Some? && task.id.value in repository.rows
      requires repository.rows[task.id.value] == task.Row().value
      modifies repository, task
      ensures repository.Valid() && repository.nextId == old(repository.nextId)
      ensures HandleTask(Batch(old(repository.rows), sent0, true), old(task.id).value, now, f)
              == Batch(repository.rows, sent, ok)
    {
      var k := task.id.value;
      var d, delivered := SendNotification(task, k in f.sendFails);
      sent := sent0 + [d];
      if delivered {
        delivered := repository.Delete(task, k in f.deleteFails);
      }
      ok := true;
      if !delivered {
        ok := HandleNotificationError(task, now, k in f.saveFails);
      }
    }

    /** `sendNotification(task)`: one call of the channel, which throws
        when `channelFails`. */
    method SendNotification(task: NotificationTask, channelFails: bool)
      returns (d: Delivery, ok: bool)
      requires task.Row().Some?
      ensures d == Delivery(task.chatId.value, NotificationText(task.message.value))
      ensures ok == !channelFails
    {
      d := Delivery(task.GetChatId().value, NotificationText(task.GetMessage().value));
      ok := !channelFails;
    }

    /** `handleNotificationError(task, now)`: move the task to the next
        minute in the object, then save it back. */
    method HandleNotificationError(task: NotificationTask, now: Instant, storeDown: bool)
      returns (saved: bool)
      requires repository.Valid() && task.Row().Some?
      requires task.id.Some? && task.id.value in repository.rows
      modifies task, repository
      ensures repository.Valid() && repository.nextId == old(repository.nextId)
      ensures saved == !storeDown
      ensures task.notificationDateTime == Some(PlusMinutes(now, 1))
      ensures task.id == old(task.id) && task.chatId == old(task.chatId) && task.message == old(task.message)
      ensures repository.rows == if saved
                                 then old(repository.rows)[task.id.value := task.Row().value]
                                 else old(repository.rows)
    {
      task.SetNotificationDateTime(PlusMinutes(now, 1));
      saved := repository.Save(task, storeDown);
    }
  }
}

/**
 * The notification_task table behind NotificationTaskRepository
 * (JpaRepository<NotificationTask, Long> plus findByNotificationDateTime):
 * rows keyed by a store-generated id. Every operation may fail when the
 * database is unreachable; the `storeDown` argument says whether it does,
 * and a failed operation changes nothing.
 */
module TaskRepository {
  import opened Wrappers
  import opened Clock
  import opened TaskModel

  /** The table as a value: its rows and the next IDENTITY value. */
  datatype Table = Table(rows: map<int, TaskRow>, nextId: int)

  /** Every stored id was handed out by the IDENTITY counter. */
  predicate WellFormed(t: Table)
  {
    t.nextId >= 1 && forall k :: k in t.rows ==> 1 <= k < t.nextId
  }

  /** Inserting a new row under the next generated id. */
  function Insert(t: Table, row: TaskRow): (r: (Table, int))
    requires WellFormed(t)
    ensures WellFormed(r.0)
    ensures r.1 !in t.rows && r.0.rows == t.rows[r.1 := row]
    ensures |r.0.rows| == |t.rows| + 1
  {
    (Table(t.rows[t.nextId := row], t.nextId + 1), t.nextId)
  }

  /** The ids of the rows whose notification time is exactly `at`: a row of
      any other minute, an earlier one included, is not selected. */
  function Due(rows: map<int, TaskRow>, at: Instant): (r: set<int>)
    ensures r <= rows.Keys
    ensures forall k :: k in r ==> rows[k].fireAt == at
    ensures forall k :: k in rows && rows[k].fireAt == at ==> k in r
  {
    set k | k in rows && rows[k].fireAt == at
  }

  /** `order` lists every element of `s` once. */
  ghost predicate Enumerates(order: seq<int>, s: set<int>)
  {
    && (forall i, j :: 0 <= i < j < |order| ==> order[i] != order[j])
    && (forall k :: k in order <==> k in s)
  }

  class NotificationTaskRepository {
    var rows: map<int, TaskRow>
    var nextId: int

    function State(): Table
      reads this
    {
      Table(rows, nextId)
    }

    ghost predicate Valid()
      reads this
    {
      WellFormed(State())
    }

    constructor ()
      ensures Valid() && rows == map[] && nextId == 1
    {
      rows, nextId := map[], 1;
    }

    /** `save(task)`: a task without an id is inserted under a fresh id,
        which is written back into the object; a task whose id is stored
        overwrites that row; a task whose id is not stored (merge of a
        detached entity) is inserted as a new row. */
    method Save(task: NotificationTask, storeDown: bool) returns (ok: bool)
      requires Valid()
      modifies this, task
      ensures Valid()
      ensures ok <==> !storeDown && old(task.Row()).Some?
      ensures task.chatId == old(task.chatId) && task.message == old(task.message)
      ensures task.notificationDateTime == old(task.notificationDateTime)
      ensures !ok ==> rows == old(rows) && nextId == old(nextId) && task.id == old(task.id)
      ensures ok && old(task.id).Some? && old(task.id).value in old(rows) ==>
                && rows == old(rows)[old(task.id).value := old(task.Row()).value]
                && nextId == old(nextId) && task.id == old(task.id)
      ensures ok && (old(task.id).None? || old(task.id).value !in old(rows)) ==>
                && (rows, nextId) == (Insert(old(State()), old(task.Row()).value).0.rows, old(nextId) + 1)
                && task.id == (if old(task.id).None? then Some(old(nextId)) else old(task.id))
    {
      var row := task.Row();
      if storeDown || row.None? {
        return false;
      }
      if task.id.Some? && task.id.value in rows {
        rows := rows[task.id.value := row.value];
      } else {
        var generated := nextId;
        rows := rows[generated := row.value];
        nextId := nextId + 1;
        if task.id.None? {
          task.SetId(generated);
        }
      }
      return true;
    }

    /** `delete(task)`: removes the row with the task's id; a task without
        an id, or one no longer stored, is ignored. */
    method Delete(task: NotificationTask, storeDown: bool) returns (ok: bool)
      requires Valid()
      modifies this
      ensures Valid()
      ensures ok == !storeDown && nextId == old(nextId)
      ensures rows == if ok && task.id.Some? then old(rows) - {task.id.value} else old(rows)
    {
      if storeDown {
        return false;
      }
      if task.id.Some? {
        rows := rows - {task.id.value};
      }
      return true;
    }

    /** `count()` */
    method Count(storeDown: bool) returns (ok: bool, n: nat)
      ensures ok == !storeDown
      ensures ok ==> n == |rows|
    {
      if storeDown {
        return false, 0;
      }
      return true, |rows|;
    }

    /** `findByNotificationDateTime(at)`: one freshly loaded entity per row
        whose time equals `at` exactly, in an order the query leaves open
        (`order` names it). */
    method FindByNotificationDateTime(at: Instant, storeDown: bool)
      returns (ok: bool, tasks: seq<NotificationTask>, ghost order: seq<int>)
      requires Valid()
      ensures ok == !storeDown
      ensures !ok ==> tasks == [] && order == []
      ensures ok ==> Enumerates(order, Due(rows, at))
      ensures |tasks| == |order|
      ensures forall i :: 0 <= i < |tasks| ==> order[i] in rows && fresh(tasks[i])
      ensures forall i :: 0 <= i < |tasks| ==>
                tasks[i].id == Some(order[i]) && tasks[i].Row() == Some(rows[order[i]])
      ensures forall i, j :: 0 <= i < j < |tasks| ==> tasks[i] != tasks[j]
    {
      tasks, order := [], [];
      if storeDown {
        return false, tasks, order;
      }
      var pending := Due(rows, at);
      while pending != {}
        invariant pending <= Due(rows, at)
        invariant forall i, j :: 0 <= i < j < |order| ==> order[i] != order[j]
        invariant forall k :: k in order <==> k in Due(rows, at) - pending
        invariant |tasks| == |order|
        invariant forall i :: 0 <= i < |tasks| ==> order[i] in rows && fresh(tasks[i])
        invariant forall i :: 0 <= i < |tasks| ==>
                    tasks[i].id == Some(order[i]) && tasks[i].Row() == Some(rows[order[i]])
        invariant forall i, j :: 0 <= i < j < |tasks| ==> tasks[i] != tasks[j]
        decreases pending
      {
        // A non-empty set has a member: the solver needs set extensionality
        // to see it, which the empty case below makes it use.
        assert exists k :: k in pending by {
          if forall x :: x !in pending {
            assert false;
          }
        }
        var k :| k in pending;
        assert k !in order;
        var task := new NotificationTask();
        task.SetId(k);
        task.SetChatId(rows[k].chatId);
        task.SetMessage(rows[k].message);
        task.SetNotificationDateTime(rows[k].fireAt);
        tasks, order := tasks + [task], order + [k];
        pending := pending - {k};
      }
      return true, tasks, order;
    }
  }
}

/** Reminder scheduling: one setTimeout per task, five minutes before its due instant,
    remembered in the page's `notificationTimers` table under the task's id. */
module Scheduler {
  import opened Collections
  import opened Records

  /** The reminder lead: five minutes, in milliseconds. */
  const ReminderLead: int := 5 * 60 * 1000

  /** A timer handle as returned by setTimeout; browsers hand out positive integers. */
  type Handle = nat

  /** What a pending timer will do when it elapses: remind about task `task`. */
  datatype Alarm = Alarm(task: Id, fireAt: int)

  /** `table` is the page's `notificationTimers` dictionary (task id to handle). `pending`
      and `next` are the browser's side: the timers that have neither fired nor been
      cleared, and the handle the next setTimeout returns. */
  datatype Timers = Timers(table: map<Id, Handle>, pending: map<Handle, Alarm>, next: Handle)

  /** The timer state of a freshly loaded page. */
  const NoTimers: Timers := Timers(map[], map[], 1)

  /** Every handle is positive and already handed out; every pending timer is the one its
      task's table entry holds (no orphan), and a table entry that is pending reminds about
      that entry's own task. */
  ghost predicate Valid(t: Timers) {
    && t.next >= 1
    && (forall id :: id in t.table ==> 1 <= t.table[id] < t.next)
    && (forall h :: h in t.pending ==> 1 <= h < t.next)
    && (forall h :: h in t.pending ==> t.pending[h].task in t.table && t.table[t.pending[h].task] == h)
    && (forall id :: id in t.table && t.table[id] in t.pending ==> t.pending[t.table[id]].task == id)
  }

  /** The fire instant of the armed reminder for `id`, if its table entry is still pending. */
  function ArmedAt(t: Timers, id: Id): Option<int> {
    if id in t.table && t.table[id] in t.pending then Some(t.pending[t.table[id]].fireAt) else None
  }

  /** The pending timers that remind about `id`. */
  function PendingFor(t: Timers, id: Id): set<Handle> {
    set h | h in t.pending && t.pending[h].task == id
  }

  /** The reminder a task should have at instant `now`: its due instant minus the lead, when
      the task is incomplete and that instant is strictly in the future. */
  function Reminder(task: Task, now: int): (r: Option<int>)
    ensures task.completed ==> r == None
    ensures r.Some? ==> now < r.value && r.value + ReminderLead == task.due
  {
    if !task.completed && task.due - ReminderLead - now > 0 then Some(task.due - ReminderLead) else None
  }

  /** `scheduleNotification(task)`: clear the timer the table holds for the task, then arm a
      new one when the task is incomplete and the reminder instant lies in the future. A
      cleared entry stays in the table. */
  function Schedule(t: Timers, task: Task, now: int): (r: Timers)
    ensures t.next <= r.next <= t.next + 1
    ensures t.table.Keys <= r.table.Keys
  {
    var cleared := if task.id in t.table then t.(pending := t.pending - {t.table[task.id]}) else t;
    if task.completed then cleared
    else
      var notifyTime := task.due - ReminderLead;
      var delay := notifyTime - now;
      if delay > 0 then
        Timers(cleared.table[task.id := cleared.next],
               cleared.pending[cleared.next := Alarm(task.id, notifyTime)],
               cleared.next + 1)
      else cleared
  }

  /** The timer part of `deleteTask(id)`: clear the timer and delete the table entry. */
  function Forget(t: Timers, id: Id): (r: Timers)
    ensures r.table.Keys == t.table.Keys - {id}
    ensures r.pending.Keys <= t.pending.Keys && r.next == t.next
  {
    if id in t.table then Timers(t.table - {id}, t.pending - {t.table[id]}, t.next) else t
  }

  /** A pending timer elapses: it leaves the browser's queue, its table entry stays. */
  function Elapse(t: Timers, h: Handle): (r: Timers)
    ensures h !in r.pending && r.pending.Keys <= t.pending.Keys
    ensures r.table == t.table && r.next == t.next
  {
    t.(pending := t.pending - {h})
  }

  /** `scheduleAllNotifications()`: `Schedule` applied to every task in order. */
  function ScheduleAll(t: Timers, tasks: seq<Task>, now: int): (r: Timers)
    ensures t.next <= r.next <= t.next + |tasks|
    ensures t.table.Keys <= r.table.Keys
  {
    if tasks == [] then t
    else Schedule(ScheduleAll(t, tasks[..|tasks| - 1], now), tasks[|tasks| - 1], now)
  }

  /** Under `Valid`, the pending timers for one id are at most its table entry's timer, so
      no task ever has two reminders pending and the table sees every pending reminder. */
  lemma AtMostOnePending(t: Timers, id: Id)
    requires Valid(t)
    ensures PendingFor(t, id) == if ArmedAt(t, id).Some? then {t.table[id]} else {}
    ensures |PendingFor(t, id)| <= 1
  {
    if ArmedAt(t, id).Some? {
      assert t.table[id] in PendingFor(t, id);
    }
  }

  lemma NoTimersValid()
    ensures Valid(NoTimers)
    ensures forall id :: ArmedAt(NoTimers, id) == None
  {
  }

  /** After scheduling, the task's reminder is armed exactly as `Reminder` says. */
  lemma ScheduleArms(t: Timers, task: Task, now: int)
    ensures ArmedAt(Schedule(t, task, now), task.id) == Reminder(task, now)
    ensures task.id in Schedule(t, task, now).table <==> task.id in t.table || Reminder(task, now).Some?
  {
  }

  /** Scheduling keeps the invariant and touches nothing that belongs to another task. */
  lemma ScheduleFrame(t: Timers, task: Task, now: int)
    requires Valid(t)
    ensures Valid(Schedule(t, task, now))
    ensures Schedule(t, task, now).table.Keys == t.table.Keys + (if Reminder(task, now).Some? then {task.id} else {})
    ensures forall id :: id != task.id ==> ArmedAt(Schedule(t, task, now), id) == ArmedAt(t, id)
    ensures forall id :: id != task.id && id in t.table ==> Schedule(t, task, now).table[id] == t.table[id]
  {
    ScheduleValid(t, task, now);
    var s := Schedule(t, task, now);
    forall id | id != task.id
      ensures ArmedAt(s, id) == ArmedAt(t, id)
    {
      if id in t.table && task.id in t.table && t.table[id] in t.pending {
        assert t.pending[t.table[id]].task == id;
        assert t.table[task.id] != t.table[id];
      }
    }
  }

  /** The invariant part of `ScheduleFrame`, one case at a time. */
  lemma ScheduleValid(t: Timers, task: Task, now: int)
    requires Valid(t)
    ensures Valid(Schedule(t, task, now))
  {
    var cleared := if task.id in t.table then t.(pending := t.pending - {t.table[task.id]}) else t;
    assert Valid(cleared);
    if !task.completed && task.due - ReminderLead - now > 0 {
      var s := Schedule(t, task, now);
      assert s.table == cleared.table[task.id := cleared.next];
      assert s.pending == cleared.pending[cleared.next := Alarm(task.id, task.due - ReminderLead)];
      forall h | h in s.pending ensures s.pending[h].task in s.table && s.table[s.pending[h].task] == h {
        if h != cleared.next {
          assert h in cleared.pending;
        }
      }
    }
  }

  /** Scheduling the same task twice at the same instant arms the same reminders as once. */
  lemma ScheduleIdempotent(t: Timers, task: Task, now: int)
    requires Valid(t)
    ensures Schedule(Schedule(t, task, now), task, now).table.Keys == Schedule(t, task, now).table.Keys
    ensures forall id :: ArmedAt(Schedule(Schedule(t, task, now), task, now), id) == ArmedAt(Schedule(t, task, now), id)
  {
    var once := Schedule(t, task, now);
    ScheduleFrame(t, task, now);
    ScheduleFrame(once, task, now);
    ScheduleArms(t, task, now);
    ScheduleArms(once, task, now);
  }

  /** Forgetting a task leaves no table entry and no pending reminder for it. */
  lemma ForgetClears(t: Timers, id: Id)
    requires Valid(t)
    ensures Valid(Forget(t, id))
    ensures Forget(t, id).table.Keys == t.table.Keys - {id}
    ensures PendingFor(Forget(t, id), id) == {}
    ensures forall other :: other != id ==> ArmedAt(Forget(t, id), other) == ArmedAt(t, other)
  {
    var f := Forget(t, id);
    forall h | h in f.pending ensures f.pending[h].task != id {
      assert t.pending[h].task in t.table && t.table[t.pending[h].task] == h;
    }
    forall other | other != id
      ensures ArmedAt(f, other) == ArmedAt(t, other)
    {
      if other in t.table && id in t.table && t.table[other] in t.pending {
        assert t.pending[t.table[other]].task == other;
      }
    }
  }

  /** A timer that fires disarms its task's reminder but leaves the table entry behind. */
  lemma ElapseDisarms(t: Timers, h: Handle)
    requires Valid(t)
    requires h in t.pending
    ensures Valid(Elapse(t, h))
    ensures Elapse(t, h).table == t.table
    ensures ArmedAt(Elapse(t, h), t.pending[h].task) == None
    ensures forall id :: id != t.pending[h].task ==> ArmedAt(Elapse(t, h), id) == ArmedAt(t, id)
  {
  }

  /** Rebuilding the timers from a task list whose ids are unique gives every listed task
      exactly its `Reminder` and leaves every other id as it was. */
  lemma {:induction false} ScheduleAllReminders(t: Timers, tasks: seq<Task>, now: int)
    requires Valid(t)
    requires UniqueTaskIds(tasks)
    ensures Valid(ScheduleAll(t, tasks, now))
    ensures forall k :: 0 <= k < |tasks| ==> ArmedAt(ScheduleAll(t, tasks, now), tasks[k].id) == Reminder(tasks[k], now)
    ensures forall id :: id !in TaskIds(tasks) ==> ArmedAt(ScheduleAll(t, tasks, now), id) == ArmedAt(t, id)
  {
    if tasks != [] {
      var init, last := tasks[..|tasks| - 1], tasks[|tasks| - 1];
      assert tasks == init + [last];
      ScheduleAllReminders(t, init, now);
      var before := ScheduleAll(t, init, now);
      ScheduleFrame(before, last, now);
      ScheduleArms(before, last, now);
      forall k | 0 <= k < |init| ensures init[k].id != last.id {
        assert tasks[k] == init[k];
      }
      forall id | id !in TaskIds(tasks)
        ensures ArmedAt(ScheduleAll(t, tasks, now), id) == ArmedAt(t, id)
      {
        assert id != last.id;
        assert id !in TaskIds(init);
      }
    }
  }

  /** Rebuilding the timers, whatever the ids, keeps the invariant and only adds table
      entries for ids of the listed tasks. */
  lemma {:induction false} ScheduleAllValid(t: Timers, tasks: seq<Task>, now: int)
    requires Valid(t)
    ensures Valid(ScheduleAll(t, tasks, now))
    ensures ScheduleAll(t, tasks, now).table.Keys <= t.table.Keys + TaskIds(tasks)
  {
    if tasks != [] {
      var init, last := tasks[..|tasks| - 1], tasks[|tasks| - 1];
      assert tasks == init + [last];
      ScheduleAllValid(t, init, now);
      ScheduleFrame(ScheduleAll(t, init, now), last, now);
      assert TaskIds(tasks) == TaskIds(init) + {last.id};
    }
  }
}

/** The page's state object: the task and goal arrays and the reminder timers, changed in
    place by the form and button handlers. Each handler is proved to do what the function
    of the same operation in `Repository` says, so every fact proved there holds of it. */
module Planner {
  import opened Collections
  import opened Text
  import opened Records
  import opened Scheduler
  import opened Repository

  class Planner {
    var tasks: seq<Task>
    var goals: seq<Goal>
    var timers: Timers

    /** The current state as a value. */
    function Snapshot(): Store
      reads this
    {
      Store(tasks, goals, timers)
    }

    ghost predicate Valid()
      reads this
    {
      StoreValid(Snapshot())
    }

    /** `init`: the stored collections are taken as loaded and every reminder is rebuilt. */
    constructor Load(storedTasks: seq<Task>, storedGoals: seq<Goal>, now: int)
      ensures Valid()
      ensures Snapshot() == Boot(storedTasks, storedGoals, now)
    {
      tasks := storedTasks;
      goals := storedGoals;
      timers := NoTimers;
      new;
      NoTimersValid();
      ScheduleAllNotifications(now);
    }

    /** `scheduleNotification(task)`, for a task of the collection. */
    method ScheduleNotification(task: Task, now: int)
      requires Valid()
      requires task.id in TaskIds(tasks)
      modifies this
      ensures Valid()
      ensures tasks == old(tasks) && goals == old(goals)
      ensures timers == Schedule(old(timers), task, now)
    {
      ghost var before := Snapshot();
      ghost var target := Schedule(timers, task, now);
      ScheduleKeepsStore(before, task, now);
      if task.id in timers.table {
        // clearTimeout: the entry itself stays in the table
        timers := timers.(pending := timers.pending - {timers.table[task.id]});
      }
      assert target == if task.completed || task.due - ReminderLead - now <= 0 then timers
        else Timers(timers.table[task.id := timers.next],
                    timers.pending[timers.next := Alarm(task.id, task.due - ReminderLead)], timers.next + 1);
      if !task.completed {
        var notifyTime := task.due - ReminderLead;
        var delay := notifyTime - now;
        if delay > 0 {
          // setTimeout
          var timerId := timers.next;
          timers := timers.(pending := timers.pending[timerId := Alarm(task.id, notifyTime)], next := timerId + 1);
          timers := timers.(table := timers.table[task.id := timerId]);
        }
      }
      assert timers == target;
      assert Snapshot() == before.(timers := target);
    }

    /** `scheduleAllNotifications()`. */
    method ScheduleAllNotifications(now: int)
      requires Valid()
      modifies this
      ensures Valid()
      ensures tasks == old(tasks) && goals == old(goals)
      ensures timers == ScheduleAll(old(timers), tasks, now)
    {
      var i := 0;
      while i < |tasks|
        invariant 0 <= i <= |tasks|
        invariant tasks == old(tasks) && goals == old(goals)
        invariant Valid()
        invariant timers == ScheduleAll(old(timers), tasks[..i], now)
      {
        assert tasks[..i + 1][..i] == tasks[..i];
        assert tasks[i] in tasks;
        ScheduleNotification(tasks[i], now);
        i := i + 1;
      }
      assert tasks[..|tasks|] == tasks;
    }

    /** `addOrUpdateTask`: `editing` is `editingTaskId`, `freshId` stands for the
        timestamp id a create takes. */
    method AddOrUpdateTask(editing: Option<Id>, form: TaskForm, freshId: Id, now: int)
      requires Valid()
      requires freshId !in TaskIds(tasks)
      modifies this
      ensures Valid()
      ensures Snapshot() == SubmitTask(old(Snapshot()), editing, form, freshId, now)
      ensures UniqueTaskIds(old(tasks)) ==> UniqueTaskIds(tasks)
    {
      var name := Trim(form.name);
      var category := form.category;
      var datetime := form.due;
      var priority := form.priority;
      var description := Trim(form.description);
      if name == [] || category == [] || datetime.None? {
        return;
      }
      if IsEditing(editing) {
        var idx := TaskIndex(tasks, editing.value);
        if idx > -1 {
          var edited := tasks[idx].(name := name, category := category, due := datetime.value,
                                    priority := priority, description := description);
          ReplaceKeepsIds(tasks, idx, edited);
          tasks := tasks[idx := edited];
          ScheduleNotification(tasks[idx], now);
        }
      } else {
        var newTask := Task(freshId, name, category, datetime.value, priority, description, false);
        AppendTask(tasks, newTask);
        tasks := tasks + [newTask];
        ScheduleNotification(newTask, now);
      }
    }

    /** `toggleTaskCompletion(id)`. */
    method ToggleTaskCompletion(id: Id, now: int)
      requires Valid()
      modifies this
      ensures Valid()
      ensures Snapshot() == ToggleTask(old(Snapshot()), id, now)
      ensures UniqueTaskIds(old(tasks)) ==> UniqueTaskIds(tasks)
    {
      var idx := TaskIndex(tasks, id);
      if idx > -1 {
        var toggled := tasks[idx].(completed := !tasks[idx].completed);
        ReplaceKeepsIds(tasks, idx, toggled);
        tasks := tasks[idx := toggled];
        ScheduleNotification(tasks[idx], now);
      }
    }

    /** `deleteTask(id)`. */
    method DeleteTask(id: Id)
      requires Valid()
      modifies this
      ensures Valid()
      ensures Snapshot() == Repository.DeleteTask(old(Snapshot()), id)
      ensures UniqueTaskIds(old(tasks)) ==> UniqueTaskIds(tasks)
    {
      DeleteTaskRemoves(Snapshot(), id);
      var idx := TaskIndex(tasks, id);
      if idx > -1 {
        var key := tasks[idx].id;
        if key in timers.table {
          // clearTimeout, then delete the entry
          timers := timers.(pending := timers.pending - {timers.table[key]});
          timers := timers.(table := timers.table - {key});
        }
        tasks := tasks[..idx] + tasks[idx + 1..];
      }
    }

    /** `addOrUpdateGoal`: `editing` is `editingGoalId`, `freshId` stands for the
        timestamp id a create takes. */
    method AddOrUpdateGoal(editing: Option<Id>, form: GoalForm, freshId: Id)
      requires Valid()
      modifies this
      ensures Valid()
      ensures Snapshot() == SubmitGoal(old(Snapshot()), editing, form, freshId)
    {
      var name := Trim(form.name);
      var progress := form.progress;
      var dueDate := form.dueDate;
      var description := Trim(form.description);
      if name == [] {
        return;
      }
      if IsEditing(editing) {
        var idx := GoalIndex(goals, editing.value);
        if idx > -1 {
          goals := goals[idx := goals[idx].(name := name, progress := progress,
                                            dueDate := dueDate, description := description)];
        }
      } else {
        goals := goals + [Goal(freshId, name, progress, dueDate, description)];
      }
    }

    /** `deleteGoal(id)`. */
    method DeleteGoal(id: Id)
      requires Valid()
      modifies this
      ensures Valid()
      ensures Snapshot() == Repository.DeleteGoal(old(Snapshot()), id)
    {
      var idx := GoalIndex(goals, id);
      if idx > -1 {
        goals := goals[..idx] + goals[idx + 1..];
      }
    }

    /** A pending timer elapses: the reminder for the returned task id is shown; the
        table entry stays behind. */
    method TimerFires(h: Handle) returns (reminded: Id)
      requires Valid()
      requires h in timers.pending
      modifies this
      ensures Valid()
      ensures reminded == old(timers.pending[h].task)
      ensures tasks == old(tasks) && goals == old(goals)
      ensures timers == Elapse(old(timers), h)
    {
      ElapseDisarms(timers, h);
      reminded := timers.pending[h].task;
      timers := timers.(pending := timers.pending - {h});
    }
  }
}

/** The planner's state and what each task and goal operation does to it, stated as
    functions from the state before to the state after. */
module Repository {
  import opened Collections
  import opened Text
  import opened Records
  import opened Scheduler

  /** The tasks, the goals and the reminder timers. */
  datatype Store = Store(tasks: seq<Task>, goals: seq<Goal>, timers: Timers)

  /** The timers are consistent and the table only holds ids of tasks that exist. */
  ghost predicate StoreValid(s: Store) {
    && Valid(s.timers)
    && forall id :: id in s.timers.table ==> id in TaskIds(s.tasks)
  }

  /** Rescheduling a task of the collection keeps the store consistent. */
  lemma ScheduleKeepsStore(s: Store, task: Task, now: int)
    requires StoreValid(s)
    requires task.id in TaskIds(s.tasks)
    ensures StoreValid(s.(timers := Schedule(s.timers, task, now)))
  {
    ScheduleFrame(s.timers, task, now);
  }

  /** The page's startup: the stored collections, with the reminders rebuilt. */
  function Boot(tasks: seq<Task>, goals: seq<Goal>, now: int): (r: Store)
    ensures r.tasks == tasks && r.goals == goals
    ensures 1 <= r.timers.next <= 1 + |tasks|
  {
    Store(tasks, goals, ScheduleAll(NoTimers, tasks, now))
  }

  /** A form submission edits when the modal was opened on a record: `editingTaskId`
      (or `editingGoalId`) is a non-empty string. */
  predicate IsEditing(editing: Option<Id>)
    ensures !IsEditing(editing) <==> editing == None || editing == Some("")
  {
    editing.Some? && editing.value != ""
  }

  /** Task validation: a non-blank trimmed name, a non-empty category, a non-empty date-time. */
  predicate AcceptsTask(form: TaskForm)
    ensures AcceptsTask(form) <==>
      && (exists k :: 0 <= k < |form.name| && !IsJsSpace(form.name[k]))
      && form.category != [] && form.due.Some?
  {
    Trim(form.name) != [] && form.category != [] && form.due.Some?
  }

  /** The record a create submission appends. */
  function NewTask(id: Id, form: TaskForm): Task
    requires form.due.Some?
  {
    Task(id, Trim(form.name), form.category, form.due.value, form.priority, Trim(form.description), false)
  }

  /** An edit submission overwrites the five form fields and keeps id and completion. */
  function EditedTask(prior: Task, form: TaskForm): Task
    requires form.due.Some?
  {
    prior.(name := Trim(form.name), category := form.category, due := form.due.value,
           priority := form.priority, description := Trim(form.description))
  }

  /** `addOrUpdateTask`. `freshId` stands for `Date.now().toString()`. */
  function SubmitTask(s: Store, editing: Option<Id>, form: TaskForm, freshId: Id, now: int): (r: Store)
    ensures r.goals == s.goals
    ensures |s.tasks| <= |r.tasks| <= |s.tasks| + 1
  {
    if !AcceptsTask(form) then s
    else if IsEditing(editing) then
      var idx := TaskIndex(s.tasks, editing.value);
      if idx < 0 then s
      else
        var task := EditedTask(s.tasks[idx], form);
        s.(tasks := s.tasks[idx := task], timers := Schedule(s.timers, task, now))
    else
      var task := NewTask(freshId, form);
      s.(tasks := s.tasks + [task], timers := Schedule(s.timers, task, now))
  }

  /** `toggleTaskCompletion(id)`: flip the first task with that id and reschedule it. */
  function ToggleTask(s: Store, id: Id, now: int): (r: Store)
    ensures r.goals == s.goals && |r.tasks| == |s.tasks|
  {
    var idx := TaskIndex(s.tasks, id);
    if idx < 0 then s
    else
      var task := s.tasks[idx].(completed := !s.tasks[idx].completed);
      s.(tasks := s.tasks[idx := task], timers := Schedule(s.timers, task, now))
  }

  /** `deleteTask(id)`: forget the first task with that id and its timer entry. */
  function DeleteTask(s: Store, id: Id): (r: Store)
    ensures r.goals == s.goals
    ensures |r.tasks| <= |s.tasks| <= |r.tasks| + 1
  {
    var idx := TaskIndex(s.tasks, id);
    if idx < 0 then s
    else s.(tasks := s.tasks[..idx] + s.tasks[idx + 1..], timers := Forget(s.timers, s.tasks[idx].id))
  }

  /** Goal validation: a non-blank trimmed name. */
  predicate AcceptsGoal(form: GoalForm)
    ensures AcceptsGoal(form) <==> exists k :: 0 <= k < |form.name| && !IsJsSpace(form.name[k])
  {
    Trim(form.name) != []
  }

  /** `addOrUpdateGoal`. `freshId` stands for `Date.now().toString()`. */
  function SubmitGoal(s: Store, editing: Option<Id>, form: GoalForm, freshId: Id): (r: Store)
    ensures r.tasks == s.tasks && r.timers == s.timers
    ensures |s.goals| <= |r.goals| <= |s.goals| + 1
  {
    if !AcceptsGoal(form) then s
    else if IsEditing(editing) then
      var idx := GoalIndex(s.goals, editing.value);
      if idx < 0 then s
      else
        var goal := s.goals[idx].(name := Trim(form.name), progress := form.progress,
                                  dueDate := form.dueDate, description := Trim(form.description));
        s.(goals := s.goals[idx := goal])
    else
      s.(goals := s.goals + [Goal(freshId, Trim(form.name), form.progress, form.dueDate, Trim(form.description))])
  }

  /** `deleteGoal(id)`: remove the first goal with that id. */
  function DeleteGoal(s: Store, id: Id): (r: Store)
    ensures r.tasks == s.tasks && r.timers == s.timers
    ensures |r.goals| <= |s.goals| <= |r.goals| + 1
  {
    var idx := GoalIndex(s.goals, id);
    if idx < 0 then s else s.(goals := s.goals[..idx] + s.goals[idx + 1..])
  }

  /** Startup leaves a consistent state; with unique ids every task has exactly its
      `Reminder` armed and no other id has one. */
  lemma BootArmsReminders(tasks: seq<Task>, goals: seq<Goal>, now: int)
    ensures StoreValid(Boot(tasks, goals, now))
    ensures UniqueTaskIds(tasks) ==>
      forall k :: 0 <= k < |tasks| ==> ArmedAt(Boot(tasks, goals, now).timers, tasks[k].id) == Reminder(tasks[k], now)
    ensures UniqueTaskIds(tasks) ==>
      forall id :: id !in TaskIds(tasks) ==> ArmedAt(Boot(tasks, goals, now).timers, id) == None
  {
    NoTimersValid();
    ScheduleAllValid(NoTimers, tasks, now);
    if UniqueTaskIds(tasks) {
      ScheduleAllReminders(NoTimers, tasks, now);
    }
  }

  /** A rejected submission, or an edit of an id that is no longer there, changes nothing. */
  lemma SubmitTaskNoChange(s: Store, editing: Option<Id>, form: TaskForm, freshId: Id, now: int)
    requires !AcceptsTask(form) || (IsEditing(editing) && TaskIndex(s.tasks, editing.value) < 0)
    ensures SubmitTask(s, editing, form, freshId, now) == s
  {
  }

  /** Replacing the task at a found index by one with the same id keeps the state consistent
      and the ids unique. */
  lemma {:induction false} ReplaceKeepsIds(tasks: seq<Task>, idx: int, task: Task)
    requires 0 <= idx < |tasks| && task.id == tasks[idx].id
    ensures TaskIds(tasks[idx := task]) == TaskIds(tasks)
    ensures UniqueTaskIds(tasks) ==> UniqueTaskIds(tasks[idx := task])
  {
    var r := tasks[idx := task];
    forall id | id in TaskIds(tasks) ensures id in TaskIds(r) {
      var k :| 0 <= k < |tasks| && tasks[k].id == id;
      assert r[k].id == id;
    }
    forall id | id in TaskIds(r) ensures id in TaskIds(tasks) {
      var k :| 0 <= k < |r| && r[k].id == id;
      assert tasks[k].id == id;
    }
  }

  /** A create appends exactly one record, incomplete and carrying the submitted fields,
      leaves the earlier records alone, arms its reminder as `Reminder` says and leaves
      every other id's reminder as it was. */
  lemma SubmitTaskCreates(s: Store, editing: Option<Id>, form: TaskForm, freshId: Id, now: int)
    requires StoreValid(s)
    requires AcceptsTask(form) && !IsEditing(editing)
    requires freshId !in TaskIds(s.tasks)
    ensures var r := SubmitTask(s, editing, form, freshId, now);
      && StoreValid(r)
      && |r.tasks| == |s.tasks| + 1
      && r.tasks[..|s.tasks|] == s.tasks
      && TaskIndex(r.tasks, freshId) == |s.tasks|
      && r.tasks[|s.tasks|] == Task(freshId, Trim(form.name), form.category, form.due.value,
                                    form.priority, Trim(form.description), false)
      && r.goals == s.goals
      && ArmedAt(r.timers, freshId) == Reminder(r.tasks[|s.tasks|], now)
      && (forall id :: id != freshId ==> ArmedAt(r.timers, id) == ArmedAt(s.timers, id))
      && (UniqueTaskIds(s.tasks) ==> UniqueTaskIds(r.tasks))
  {
    var task := NewTask(freshId, form);
    var r := SubmitTask(s, editing, form, freshId, now);
    assert r == s.(tasks := s.tasks + [task], timers := Schedule(s.timers, task, now));
    AppendTask(s.tasks, task);
    ScheduleArms(s.timers, task, now);
    ScheduleKeepsStore(s.(tasks := r.tasks), task, now);
    ScheduleFrame(s.timers, task, now);
  }

  /** Appending a task whose id is new: it is found at the end, the earlier records stay,
      and unique ids stay unique. */
  lemma AppendTask(tasks: seq<Task>, task: Task)
    requires task.id !in TaskIds(tasks)
    ensures TaskIds(tasks + [task]) == TaskIds(tasks) + {task.id}
    ensures TaskIndex(tasks + [task], task.id) == |tasks|
    ensures (tasks + [task])[..|tasks|] == tasks
    ensures UniqueTaskIds(tasks) ==> UniqueTaskIds(tasks + [task])
  {
    var r := tasks + [task];
    assert TaskIds(r) == TaskIds(tasks) + {task.id};
    TaskIndexFinds(tasks, task.id);
    TaskIndexFinds(r, task.id);
    assert r[..|tasks|] == tasks;
  }

  /** An edit of a found id overwrites name, category, due instant, priority and description,
      keeps id and completion, leaves every other record alone and re-evaluates that task's
      reminder from scratch: afterwards it has at most one pending timer, armed exactly as
      `Reminder` says. */
  lemma SubmitTaskEdits(s: Store, editing: Option<Id>, form: TaskForm, freshId: Id, now: int)
    requires StoreValid(s)
    requires AcceptsTask(form) && IsEditing(editing)
    requires TaskIndex(s.tasks, editing.value) >= 0
    ensures var idx := TaskIndex(s.tasks, editing.value);
      var r := SubmitTask(s, editing, form, freshId, now);
      && StoreValid(r)
      && |r.tasks| == |s.tasks|
      && (forall k :: 0 <= k < |s.tasks| && k != idx ==> r.tasks[k] == s.tasks[k])
      && r.tasks[idx].id == s.tasks[idx].id == editing.value
      && r.tasks[idx].completed == s.tasks[idx].completed
      && r.tasks[idx].name == Trim(form.name)
      && r.tasks[idx].category == form.category
      && r.tasks[idx].due == form.due.value
      && r.tasks[idx].priority == form.priority
      && r.tasks[idx].description == Trim(form.description)
      && r.goals == s.goals
      && ArmedAt(r.timers, editing.value) == Reminder(r.tasks[idx], now)
      && |PendingFor(r.timers, editing.value)| <= 1
      && (forall id :: id != editing.value ==> ArmedAt(r.timers, id) == ArmedAt(s.timers, id))
      && (UniqueTaskIds(s.tasks) ==> UniqueTaskIds(r.tasks))
  {
    var idx := TaskIndex(s.tasks, editing.value);
    var task := EditedTask(s.tasks[idx], form);
    var r := SubmitTask(s, editing, form, freshId, now);
    ScheduleArms(s.timers, task, now);
    ScheduleFrame(s.timers, task, now);
    ReplaceKeepsIds(s.tasks, idx, task);
    TaskIndexFinds(s.tasks, editing.value);
    AtMostOnePending(r.timers, editing.value);
  }

  /** Toggling a found id flips the completion of the first task with that id only and
      re-evaluates its reminder; a missing id changes nothing. */
  lemma ToggleTaskFlips(s: Store, id: Id, now: int)
    requires StoreValid(s)
    ensures var idx := TaskIndex(s.tasks, id);
      var r := ToggleTask(s, id, now);
      && StoreValid(r)
      && (UniqueTaskIds(s.tasks) ==> UniqueTaskIds(r.tasks))
      && (idx < 0 ==> r == s)
      && (idx >= 0 ==>
            && |r.tasks| == |s.tasks|
            && r.tasks[idx] == s.tasks[idx].(completed := !s.tasks[idx].completed)
            && (forall k :: 0 <= k < |s.tasks| && k != idx ==> r.tasks[k] == s.tasks[k])
            && r.goals == s.goals
            && ArmedAt(r.timers, id) == Reminder(r.tasks[idx], now)
            && (forall other :: other != id ==> ArmedAt(r.timers, other) == ArmedAt(s.timers, other)))
  {
    var idx := TaskIndex(s.tasks, id);
    if idx >= 0 {
      var task := s.tasks[idx].(completed := !s.tasks[idx].completed);
      ScheduleArms(s.timers, task, now);
      ScheduleFrame(s.timers, task, now);
      ReplaceKeepsIds(s.tasks, idx, task);
      TaskIndexFinds(s.tasks, id);
    }
  }

  /** Toggling twice restores every task, and the reminder then is the one the original
      task has at the second instant: un-completing before the reminder instant re-arms it
      for the same fire instant. */
  lemma ToggleTwiceRestores(s: Store, id: Id, now1: int, now2: int)
    requires StoreValid(s)
    ensures var r := ToggleTask(ToggleTask(s, id, now1), id, now2);
      && r.tasks == s.tasks
      && r.goals == s.goals
      && StoreValid(r)
      && (TaskIndex(s.tasks, id) >= 0 ==> ArmedAt(r.timers, id) == Reminder(s.tasks[TaskIndex(s.tasks, id)], now2))
  {
    var idx := TaskIndex(s.tasks, id);
    var mid := ToggleTask(s, id, now1);
    ToggleTaskFlips(s, id, now1);
    if idx >= 0 {
      TaskIndexFinds(s.tasks, id);
      assert TaskIndex(mid.tasks, id) == idx;
      ToggleTaskFlips(mid, id, now2);
      assert ToggleTask(mid, id, now2).tasks == s.tasks;
    }
  }

  /** Deleting a found id removes that one record, keeps the others in their relative
      order, and leaves neither a table entry nor a pending reminder for the id; a missing
      id changes nothing. */
  lemma DeleteTaskRemoves(s: Store, id: Id)
    requires StoreValid(s)
    ensures var idx := TaskIndex(s.tasks, id);
      var r := DeleteTask(s, id);
      && StoreValid(r)
      && (idx < 0 ==> r == s)
      && (idx >= 0 ==>
            && |r.tasks| == |s.tasks| - 1
            && (forall k :: 0 <= k < |r.tasks| ==> r.tasks[k] == s.tasks[if k < idx then k else k + 1])
            && multiset(r.tasks) + multiset{s.tasks[idx]} == multiset(s.tasks)
            && r.goals == s.goals
            && id !in r.timers.table
            && PendingFor(r.timers, id) == {}
            && (forall other :: other != id ==> ArmedAt(r.timers, other) == ArmedAt(s.timers, other))
            && (UniqueTaskIds(s.tasks) ==> UniqueTaskIds(r.tasks) && id !in TaskIds(r.tasks)))
  {
    var idx := TaskIndex(s.tasks, id);
    if idx >= 0 {
      TaskIndexFinds(s.tasks, id);
      ForgetClears(s.timers, id);
      RemoveTaskAt(s.tasks, idx);
      var r := DeleteTask(s, id);
      assert r.tasks == s.tasks[..idx] + s.tasks[idx + 1..];
      assert r.timers == Forget(s.timers, id);
      forall x | x in r.timers.table ensures x in TaskIds(r.tasks) {
        assert x in TaskIds(s.tasks) - {s.tasks[idx].id};
      }
    }
  }

  /** Splicing out one task keeps the others in order and every other id present; with
      unique ids the removed id is gone. */
  lemma RemoveTaskAt(tasks: seq<Task>, idx: int)
    requires 0 <= idx < |tasks|
    ensures var r := tasks[..idx] + tasks[idx + 1..];
      && |r| == |tasks| - 1
      && (forall k :: 0 <= k < |r| ==> r[k] == tasks[if k < idx then k else k + 1])
      && multiset(r) + multiset{tasks[idx]} == multiset(tasks)
      && TaskIds(tasks) - {tasks[idx].id} <= TaskIds(r)
      && (UniqueTaskIds(tasks) ==> UniqueTaskIds(r) && tasks[idx].id !in TaskIds(r))
  {
    assert tasks == tasks[..idx] + [tasks[idx]] + tasks[idx + 1..];
    RemoveTaskIds(tasks, idx);
  }

  /** The id part of `RemoveTaskAt`. */
  lemma RemoveTaskIds(tasks: seq<Task>, idx: int)
    requires 0 <= idx < |tasks|
    ensures var r := tasks[..idx] + tasks[idx + 1..];
      && TaskIds(tasks) - {tasks[idx].id} <= TaskIds(r)
      && (UniqueTaskIds(tasks) ==> UniqueTaskIds(r) && tasks[idx].id !in TaskIds(r))
  {
    var r := tasks[..idx] + tasks[idx + 1..];
    assert forall k :: 0 <= k < |r| ==> r[k] == tasks[if k < idx then k else k + 1];
    forall other | other in TaskIds(tasks) - {tasks[idx].id} ensures other in TaskIds(r) {
      var k :| 0 <= k < |tasks| && tasks[k].id == other;
      assert r[if k < idx then k else k - 1] == tasks[k];
    }
    if UniqueTaskIds(tasks) {
      forall t | t in r ensures t.id != tasks[idx].id {
        var k :| 0 <= k < |r| && r[k] == t;
        assert r[k] == tasks[if k < idx then k else k + 1];
      }
    }
  }

  /** A rejected goal submission, or an edit of an id that is no longer there, changes
      nothing. */
  lemma SubmitGoalNoChange(s: Store, editing: Option<Id>, form: GoalForm, freshId: Id)
    requires !AcceptsGoal(form) || (IsEditing(editing) && GoalIndex(s.goals, editing.value) < 0)
    ensures SubmitGoal(s, editing, form, freshId) == s
  {
  }

  /** A goal create appends exactly one record holding the submitted fields, progress
      unclamped; a goal edit keeps the id and overwrites the four form fields; neither
      touches the tasks or the timers. */
  lemma SubmitGoalEffect(s: Store, editing: Option<Id>, form: GoalForm, freshId: Id)
    requires AcceptsGoal(form)
    ensures var r := SubmitGoal(s, editing, form, freshId);
      var idx := if IsEditing(editing) then GoalIndex(s.goals, editing.value) else -1;
      && r.tasks == s.tasks && r.timers == s.timers
      && (UniqueGoalIds(s.goals) && (IsEditing(editing) || freshId !in GoalIds(s.goals)) ==> UniqueGoalIds(r.goals))
      && (!IsEditing(editing) ==>
            && r.goals == s.goals + [Goal(freshId, Trim(form.name), form.progress, form.dueDate, Trim(form.description))]
            && (freshId !in GoalIds(s.goals) ==> GoalIndex(r.goals, freshId) == |s.goals|))
      && (idx >= 0 ==>
            && |r.goals| == |s.goals|
            && r.goals[idx].id == s.goals[idx].id == editing.value
            && r.goals[idx] == Goal(editing.value, Trim(form.name), form.progress, form.dueDate, Trim(form.description))
            && (forall k :: 0 <= k < |s.goals| && k != idx ==> r.goals[k] == s.goals[k]))
  {
    var r := SubmitGoal(s, editing, form, freshId);
    if !IsEditing(editing) && freshId !in GoalIds(s.goals) {
      forall k | 0 <= k < |s.goals| ensures r.goals[k].id != freshId {
        assert r.goals[k] == s.goals[k];
      }
      assert r.goals[|s.goals|].id == freshId;
    }
  }

  /** Deleting a found goal removes that one record and keeps the others in their relative
      order; a missing id changes nothing. */
  lemma DeleteGoalRemoves(s: Store, id: Id)
    ensures var idx := GoalIndex(s.goals, id);
      var r := DeleteGoal(s, id);
      && r.tasks == s.tasks && r.timers == s.timers
      && (UniqueGoalIds(s.goals) ==> UniqueGoalIds(r.goals))
      && (idx < 0 ==> r == s)
      && (idx >= 0 ==>
            && s.goals[idx].id == id
            && |r.goals| == |s.goals| - 1
            && (forall k :: 0 <= k < |r.goals| ==> r.goals[k] == s.goals[if k < idx then k else k + 1])
            && multiset(r.goals) + multiset{s.goals[idx]} == multiset(s.goals))
  {
    var idx := GoalIndex(s.goals, id);
    if idx >= 0 {
      assert s.goals == s.goals[..idx] + [s.goals[idx]] + s.goals[idx + 1..];
    }
  }
}

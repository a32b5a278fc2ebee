# MyDay Pro planner core, in Dafny

MyDay Pro is a single-page daily planner. Its script keeps three pieces of state:

- an array of tasks (name, category, due date-time, priority, description, completion flag);
- an array of goals (name, progress percentage, due date, description);
- a `notificationTimers` dictionary from task id to the handle of the `setTimeout` that shows
  a reminder five minutes before the task is due.

The form and button handlers create, edit, toggle and delete records. Every change reschedules
the affected reminder. The dashboard, task list and profile pages derive counts, the next
three tasks and a per-category timeline from the arrays.

This project models that core:

- `collections.dfy` (`Collections`): `findIndex` and `filter` as functions.
- `text.dfy` (`Text`): `String.prototype.trim` with ECMAScript's whitespace set.
- `records.dfy` (`Records`): the task and goal records, the form contents, the seven known
  categories and the id lookups.
- `scheduler.dfy` (`Scheduler`): the reminder timers. `Timers` pairs the page's
  `notificationTimers` table with the browser's side of the timers: the handles still
  pending and the next handle `setTimeout` returns. `Valid` states the invariant the
  handlers keep: no pending timer is orphaned, so each task has at most one reminder pending.
  `Schedule`, `Forget` and `Elapse` are the three ways the timers change.
- `repository.dfy` (`Repository`): each handler as a function from the state before to the
  state after (`SubmitTask`, `ToggleTask`, `DeleteTask`, `SubmitGoal`, `DeleteGoal`, `Boot`),
  with lemmas about what each one does.
- `planner.dfy` (`Planner`): the page state as a class whose methods change the arrays and
  the timer table in place, step by step as the handlers do. Each method is proved to
  produce exactly the state the matching `Repository` function describes.
- `views.dfy` (`Views`): the dashboard and profile figures, the stable sort by due instant
  and the next three tasks.
- `timeline.dfy` (`Timeline`): the task list's grouping by category and the profile's
  per-category counts.

Browser values are abstracted as follows:

- A task's `datetime` is an integer instant in milliseconds.
- `Date.now()` is a `now` parameter.
- The timestamp id of a newly created record is a `freshId` parameter.
- "Same calendar day" is a `day` function parameter.
- An empty date-time field is `None`.
- A timer handle is a positive integer. The browser hands out positive handles, so a table
  entry tests as set exactly when it is present.

Some behaviours of the code are kept on purpose:

- A cleared timer keeps its table entry.
- A timer that fires keeps its table entry.
- Only `deleteTask` removes an entry.
- Goal progress is stored unclamped.
- Task validation only asks for a non-empty category, not one of the seven.

## Model

| member | source | states |
|---|---|---|
| Collections.FindIndex | script.js:416 | `findIndex`: -1 exactly when nothing matches; otherwise the index of a match with no match before it |
| Collections.Filter | script.js:152-159 | `filter`: no longer than its input; keeps only elements that satisfy the predicate, and keeps every one of them |
| Text.Trim | script.js:408-412 | `trim`: the input with a whitespace prefix and a whitespace suffix removed; empty exactly when the input is all whitespace; otherwise no whitespace at either end |
| Text.TrimIdempotent | script.js:408 | trimming a trimmed string changes nothing |
| Records.CategoriesDistinct | script.js:9-17 | the seven known categories are pairwise different |
| Records.TaskIndex | script.js:454 | the id lookup returns -1 or the position of a task with that id, and no task before that position, nor any task at all when it returns -1, has the id; `TaskIndexFinds` states the -1 case as absence from the id set |
| Records.GoalIndex | script.js:516 | the goal lookup returns -1 or the position of a goal with that id, and no goal before that position, nor any goal at all when it returns -1, has the id |
| Records.TaskIndexFinds | script.js:441 | the lookup by id succeeds exactly when some task has that id, and then finds a task with that id |
| Scheduler.AtMostOnePending | script.js:113-128 | under the invariant, an id has at most one pending reminder: the one its table entry holds, if that one is still pending |
| Scheduler.NoTimersValid | script.js:64 | the empty table satisfies the invariant and has nothing armed |
| Scheduler.Reminder | script.js:118-122 | a completed task gets no reminder; a reminder lies strictly after `now` and exactly five minutes before the due instant; `ScheduleArms` ties it to what `Schedule` arms |
| Scheduler.Schedule | script.js:113-128 | one call hands out at most one new timer handle and never removes a table entry; what it arms and keeps is stated by `ScheduleArms`, `ScheduleFrame`, `ScheduleValid` and `ScheduleIdempotent` |
| Scheduler.Forget | script.js:457-460 | exactly the id's table entry goes, timers are only cleared, never created, and no handle is handed out; `ForgetClears` states the rest |
| Scheduler.Elapse | script.js:122-124 | the fired timer is no longer pending, nothing new becomes pending, the table and the handle counter stay; `ElapseDisarms` states the rest |
| Scheduler.ScheduleAll | script.js:130-132 | rescheduling a list hands out at most one handle per task and removes no table entry; `ScheduleAllReminders` and `ScheduleAllValid` state the rest |
| Scheduler.ScheduleArms | script.js:113-128 | after scheduling, the task's reminder is armed exactly when it is incomplete and `due - 300000 - now > 0`, for instant `due - 300000`; its entry exists afterwards iff it existed or a timer was armed |
| Scheduler.ScheduleFrame | script.js:113-128 | scheduling keeps the invariant, adds a table key only when it arms, and leaves every other id's entry and reminder unchanged |
| Scheduler.ScheduleValid | script.js:114-127 | clearing the old timer before arming the new one keeps the invariant |
| Scheduler.ScheduleIdempotent | script.js:113-128 | scheduling the same task twice at the same instant gives the same table keys and armed reminders as once |
| Scheduler.ForgetClears | script.js:457-460 | after delete's clear-and-delete the id has no entry and no pending reminder; other ids are unaffected; the invariant holds |
| Scheduler.ElapseDisarms | script.js:122-124 | a firing timer disarms its task's reminder, leaves the table as it was and leaves other reminders alone |
| Scheduler.ScheduleAllReminders | script.js:130-132 | rescheduling tasks with unique ids gives every listed task exactly its `Reminder` and leaves other ids as they were |
| Scheduler.ScheduleAllValid | script.js:130-132 | rescheduling any list keeps the invariant and only adds table entries for ids of the listed tasks |
| Repository.ScheduleKeepsStore | script.js:113-128 | rescheduling a task of the collection keeps the table within the collection's ids |
| Repository.Boot | script.js:621-641 | startup keeps the loaded arrays as they are and hands out at most one timer per task; `BootArmsReminders` states the reminders |
| Repository.IsEditing | script.js:414 | the edit branch is skipped exactly for the falsy ids, `null` and the empty string (also script.js:495) |
| Repository.AcceptsTask | script.js:408-413 | a task submission is accepted exactly when the name has a non-whitespace character, the category is non-empty and the date-time is filled; `SubmitTaskNoChange` states that a rejected one changes nothing |
| Repository.SubmitTask | script.js:406-438 | a task submission never touches the goals and adds at most one task; `SubmitTaskNoChange`, `SubmitTaskCreates` and `SubmitTaskEdits` state each branch |
| Repository.ToggleTask | script.js:440-451 | a toggle never touches the goals and keeps the number of tasks; `ToggleTaskFlips` and `ToggleTwiceRestores` state the rest |
| Repository.DeleteTask | script.js:453-467 | a delete never touches the goals and removes at most one task; `DeleteTaskRemoves` states the rest |
| Repository.AcceptsGoal | script.js:490-494 | a goal submission is accepted exactly when the name has a non-whitespace character |
| Repository.SubmitGoal | script.js:488-513 | a goal submission never touches the tasks or the timers and adds at most one goal; `SubmitGoalNoChange` and `SubmitGoalEffect` state each branch |
| Repository.DeleteGoal | script.js:515-524 | a goal delete never touches the tasks or the timers and removes at most one goal; `DeleteGoalRemoves` states the rest |
| Repository.BootArmsReminders | script.js:621-641 | startup yields a consistent state; with unique ids each task has exactly its `Reminder` armed and no other id has one |
| Repository.SubmitTaskNoChange | script.js:406-417 | a blank trimmed name, an empty category or an empty date-time, or an edit of an id no longer present, changes nothing |
| Repository.ReplaceKeepsIds | script.js:418-423 | overwriting a record in place without changing its id keeps the set of ids |
| Repository.SubmitTaskCreates | script.js:426-432 | a create appends one incomplete record with the submitted fields and the fresh id, keeps earlier records, arms its reminder per `Reminder`, touches no other reminder, keeps ids unique |
| Repository.AppendTask | script.js:430 | a pushed task with a new id is found at the end, the earlier records stay, unique ids stay unique |
| Repository.SubmitTaskEdits | script.js:414-425 | an edit of a found id overwrites the five form fields, keeps id and completion, leaves other records and reminders alone and leaves that id at most one pending reminder, armed per `Reminder` |
| Repository.ToggleTaskFlips | script.js:440-451 | toggling flips completion of the first task with the id only, keeps ids unique and re-evaluates its reminder; a missing id changes nothing |
| Repository.ToggleTwiceRestores | script.js:440-451 | toggling twice restores every task, and the reminder is then the original task's reminder at the second instant |
| Repository.DeleteTaskRemoves | script.js:453-467 | deleting a found id removes that one record, keeps the others in order, leaves no entry and no pending reminder for the id and leaves other reminders alone; a missing id changes nothing |
| Repository.RemoveTaskAt | script.js:461 | the splice keeps the other records in order and as a multiset, and keeps every other id |
| Repository.RemoveTaskIds | script.js:461 | after the splice every other id is still present; with unique ids the removed id is gone |
| Repository.SubmitGoalNoChange | script.js:488-501 | a blank trimmed goal name, or an edit of a missing id, changes nothing |
| Repository.SubmitGoalEffect | script.js:488-507 | a goal create appends one record with the submitted fields and unclamped progress; an edit keeps the id and overwrites the four fields; tasks and timers are untouched; unique goal ids stay unique when a create takes a fresh id |
| Repository.DeleteGoalRemoves | script.js:515-524 | deleting a found goal removes that one record and keeps the rest in order, so unique goal ids stay unique; a missing id changes nothing |
| Planner.Planner.Load | script.js:621-641 | the loaded page holds the stored arrays with every reminder rebuilt, as `Boot` says, and is consistent |
| Planner.Planner.ScheduleNotification | script.js:113-128 | clears the task's timer, keeping its entry, then arms a new one when due; the result is `Schedule` of the old timers |
| Planner.Planner.ScheduleAllNotifications | script.js:130-132 | schedules every task in order, giving `ScheduleAll` of the old timers |
| Planner.Planner.AddOrUpdateTask | script.js:406-438 | the new state is `SubmitTask` of the old one and stays consistent; unique task ids stay unique |
| Planner.Planner.ToggleTaskCompletion | script.js:440-451 | the new state is `ToggleTask` of the old one and stays consistent; unique task ids stay unique |
| Planner.Planner.DeleteTask | script.js:453-467 | the new state is `DeleteTask` of the old one and stays consistent; unique task ids stay unique |
| Planner.Planner.AddOrUpdateGoal | script.js:488-513 | the new state is `SubmitGoal` of the old one and stays consistent |
| Planner.Planner.DeleteGoal | script.js:515-524 | the new state is `DeleteGoal` of the old one and stays consistent |
| Planner.Planner.TimerFires | script.js:122-124 | a pending reminder fires for its own task, the arrays stay, the table entry stays |
| Views.InsertByDue | script.js:177 | inserting into an ascending list gives an ascending list with one more element and the same elements plus the new one |
| Views.SortedCons | script.js:177 | an element due no later than everything in an ascending list can go in front |
| Views.SortByDue | script.js:177 | the sort's result is ascending by due instant and a permutation of its input |
| Views.Incomplete | script.js:176 | the tasks still to do: no more than the tasks, each one a task of the array and not completed; `Filter` adds that none is dropped |
| Views.CompletedCount | script.js:153 | the completed count is at most the number of tasks and positive when some task is completed; `DashboardOf` bounds it with the due-today count |
| Views.DueTodayCount | script.js:154-157 | the due-today count is at most the number of tasks; `DashboardOf` bounds it together with the completed count |
| Views.AchievedCount | script.js:159 | the achieved count is at most the number of goals and positive when some goal has progress 100 or more; `AchievedCountsProgress` and `AchievedDependsOnProgressOnly` state how it moves |
| Views.DashboardOf | script.js:152-159 | the counters: the totals are the array lengths; completed and due-today tasks never exceed the total; achieved goals never exceed the goals |
| Views.ProfileOf | script.js:352-355 | the profile's four figures, bounded by their totals and equal to the dashboard's counts |
| Views.Upcoming | script.js:176-178 | the next tasks: at most three, and three unless fewer are incomplete; ascending; drawn from the incomplete tasks |
| Views.SortedPrefixEarliest | script.js:178 | the first elements of an ascending list are due no later than the rest |
| Views.UpcomingEarliest | script.js:176-178 | every listed task is an incomplete task of the array, and no incomplete task left out is due before a listed one |
| Views.AchievedCountsProgress | script.js:159 | raising one goal's progress from below 100 to 100 or more adds exactly one to the achieved count |
| Views.AchievedDependsOnProgressOnly | script.js:159 | the achieved count depends on the progress values only |
| Timeline.Extras | script.js:192-195 | the keys added after the seven known ones are distinct, unknown, carried by some task, and include every unknown category |
| Timeline.InCategory | script.js:192-195 | a category's list is drawn from the tasks and holds only tasks of that category; `Filter` adds that it holds all of them in array order |
| Timeline.GroupKeys | script.js:190-195 | the dictionary keys start with the seven known categories in their fixed order; `GroupKeysDistinct` and `Extras` state the rest |
| Timeline.Collect | script.js:190-195 | the filled dictionary's keys start with the seven known categories; `CollectMeaning` states the rest |
| Timeline.Layout | script.js:197-199 | at most one group per key; `LayoutShape`, `LayoutStep` and `LayoutGroup` state which groups and in which order |
| Timeline.LayoutWithoutTasks | script.js:199 | with no task, every list is empty and nothing is rendered |
| Timeline.TimelineOf | script.js:186-199 | at most one group per dictionary key, and none at all for an empty task array; `TimelineCategories`, `TimelineCoversTasks`, `TimelineMembersBelong` and `TaskGroupIff` state the rest |
| Timeline.InCategoryGrows | script.js:194 | pushing a task extends exactly its own category's list |
| Timeline.CarriedCategoryHasTasks | script.js:193-194 | a category some task carries has a non-empty list |
| Timeline.GroupKeysGrow | script.js:193 | a task adds its category as a new last key exactly when it is not a key yet |
| Timeline.NoKeyNoTasks | script.js:193 | a category that is not a key yet has no task so far |
| Timeline.CollectedSeed | script.js:191 | the seeded dictionary has the seven known keys, each with no task |
| Timeline.CollectStep | script.js:192-195 | one push keeps keys in insertion order and each list equal to its category's tasks |
| Timeline.CollectMeaning | script.js:190-195 | the filled dictionary has the known categories first, then the others in order of first appearance, and maps each key to its category's tasks in array order |
| Timeline.CollectGroups | script.js:190-195 | the filling loop computes the dictionary `Collect` describes |
| Timeline.LayoutStep | script.js:197-199 | one more key adds one group at the end exactly when that key has tasks |
| Timeline.RenderGroups | script.js:197-199 | the rendering loop emits one sorted group per key with tasks, in key order |
| Timeline.GroupByCategory | script.js:190-199 | the grouping computes `TimelineOf` |
| Timeline.LayoutShape | script.js:197-199 | the headers are the keys that have tasks, in key order; each group is non-empty, ascending and holds exactly its category's tasks |
| Timeline.GroupKeysDistinct | script.js:190-195 | no key appears twice |
| Timeline.TimelineCategories | script.js:190-199 | the headers are the known categories with tasks in their fixed order, then the others in order of first appearance, none twice; every group is well formed |
| Timeline.TaskCategoryRendered | script.js:190-199 | a task's category is a key with tasks |
| Timeline.HeaderShown | script.js:197-199 | a key with tasks gets a header |
| Timeline.GroupShowsTask | script.js:198 | the group rendered for a category shows every task of that category |
| Timeline.LayoutGroup | script.js:197-199 | each rendered group is the sorted list of its header's category |
| Timeline.TaskInItsGroup | script.js:190-199 | each task appears in the group headed by its own category |
| Timeline.TimelineCoversTasks | script.js:190-199 | every task appears in the group of its own category |
| Timeline.TimelineMembersBelong | script.js:190-199 | a group holds only tasks of the array whose category is its header |
| Timeline.TaskGroupIff | script.js:190-199 | a task is in a group exactly when the group's header is its category, so with the distinct headers of `TimelineCategories` each task is in exactly one group |
| Timeline.CategoryCounts | script.js:356-358 | the counts have exactly the seven known categories as keys, each with its number of tasks; other categories are not counted |
| Timeline.KnownCategoryRendered | script.js:191 | a known category with tasks is a rendered key |
| Timeline.GroupSize | script.js:198 | a group is as long as its category's task list |
| Timeline.CountMatchesGroup | script.js:356-358 | a known category's count equals the size of its group in the task list |

## Left out

- Rendering, modals, navigation, the theme, the user name and the event wiring are left out: they are presentation only.
- `localStorage` save and load (script.js:67-83) and the reset handler (script.js:591-599) are browser I/O. What is saved is the user name, the theme and the two arrays, never the timers. The submit handlers and the delete handlers save after changing the arrays; `toggleTaskCompletion` saves at script.js:444, after the flip and before it reschedules at script.js:449. So the stored arrays always equal the model's arrays after the handler, and the reminders are rebuilt from them at every load.
- The Notification API (script.js:95-111) is left out; `TimerFires` returns the id whose reminder is shown.
- Real timer scheduling is not modelled either: timers are entries in a map.
- Scheduler.Schedule: `fireAt` is the requested instant `due - 300000`. Browsers take the `setTimeout` delay as a signed 32-bit integer, so a delay of 2^31 ms or more (a task due more than about 24.8 days ahead) runs the timer at once instead; the model does not capture that early reminder, on create, edit, toggle or load.
- Scheduler.Reminder: states the requested reminder instant, not the early firing of delays of 2^31 ms or more.
- Scheduler.Valid: handles are assumed never reused. `next` only grows, as in the major browsers; the HTML standard only asks a new handle to differ from the active ones. With reuse, the stale handles the table keeps could make a later `clearTimeout` (script.js:116, script.js:458) cancel another task's reminder; `Valid`, `ScheduleFrame` and `ForgetClears` rely on the assumption.
- Scheduler.ScheduleAll: one `now` stands for the clock readings of the whole loop. The script reads `Date.now()` once per task (script.js:121), and the readings may differ by the time the loop takes.
- Object aliasing is not modelled. A timer callback captures the task object, so a later edit of that object changes the text the reminder shows. The model reports only the task id.
- Date parsing and formatting are not modelled. A filled date-time field is taken to parse to an instant; an unparsable one, which makes the JavaScript arithmetic produce NaN, is not modelled.
- Comparator results are taken as integers: NaN comparator results in the sort are not modelled.
- Progress is an integer: `parseInt` returning NaN for an empty progress field is not modelled.
- Timestamp ids are not generated. A create takes a `freshId` that is not already an id, because two creates in the same millisecond would collide in the script.
- The progress-line ratio (script.js:273-282) is floating-point CSS arithmetic and is left out.
- Timeline.GroupByCategory: JavaScript object key order is modelled as insertion order. A category spelled as an array index (`"1"`, say) would be listed before the others in the script, and one naming an `Object.prototype` member (`"toString"`, say) would make the script fail. Neither is modelled.
- Timeline.CategoryCounts: a category naming an `Object.prototype` member would be counted as NaN by the script; the model ignores it like any unknown category.
- Views.SortByDue: the sort is stable, as ECMAScript requires, and is written as a stable insertion sort, but stability is not stated as a lemma.
- In-place sorting of each group's array (script.js:198) is modelled as a sorted copy, since the array is not read again afterwards.

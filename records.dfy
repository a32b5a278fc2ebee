/** The planner's two record kinds, the form submissions that create or edit them, and the
    fixed category list. */
module Records {
  import opened Collections

  /** Record identities are the decimal strings of the creation timestamp. */
  type Id = string

  /** A task. `due` is the instant, in milliseconds, that the stored `datetime` text denotes;
      `priority` is the raw select value ("" when none was chosen). */
  datatype Task = Task(
    id: Id,
    name: string,
    category: string,
    due: int,
    priority: string,
    description: string,
    completed: bool)

  /** A goal. `progress` is kept exactly as the slider value was parsed, with no clamping. */
  datatype Goal = Goal(
    id: Id,
    name: string,
    progress: int,
    dueDate: string,
    description: string)

  /** The task form's field values at submission. `due == None` is an empty date-time field. */
  datatype TaskForm = TaskForm(
    name: string,
    category: string,
    due: Option<int>,
    priority: string,
    description: string)

  /** The goal form's field values at submission. */
  datatype GoalForm = GoalForm(
    name: string,
    progress: int,
    dueDate: string,
    description: string)

  /** The categories the task form offers, in display order. */
  const Categories: seq<string> :=
    ["D\U{E9}jeuner", "Hygi\U{E8}ne", "Musculation", "Lecture", "Business", "M\U{E9}nage", "Sommeil"]

  /** The seven categories are pairwise different. */
  lemma CategoriesDistinct()
    ensures Distinct(Categories)
  {
    forall i, j | 0 <= i < j < |Categories| ensures Categories[i] != Categories[j] {
      assert Categories[i][0] != Categories[j][0] || |Categories[i]| != |Categories[j]|;
    }
  }

  /** `tasks.findIndex(t => t.id === id)`: the position of the first task with that id, or
      -1 when there is none. */
  function TaskIndex(tasks: seq<Task>, id: Id): (r: int)
    ensures -1 <= r < |tasks|
    ensures r >= 0 ==> tasks[r].id == id
    ensures forall k :: 0 <= k < |tasks| && tasks[k].id == id ==> 0 <= r <= k
  {
    FindIndex(tasks, (t: Task) => t.id == id)
  }

  /** `goals.findIndex(g => g.id === id)`: the position of the first goal with that id, or
      -1 when there is none. */
  function GoalIndex(goals: seq<Goal>, id: Id): (r: int)
    ensures -1 <= r < |goals|
    ensures r >= 0 ==> goals[r].id == id
    ensures forall k :: 0 <= k < |goals| && goals[k].id == id ==> 0 <= r <= k
  {
    FindIndex(goals, (g: Goal) => g.id == id)
  }

  function TaskIds(tasks: seq<Task>): set<Id> {
    set t | t in tasks :: t.id
  }

  function GoalIds(goals: seq<Goal>): set<Id> {
    set g | g in goals :: g.id
  }

  /** The identity-uniqueness invariant of the task collection. */
  predicate UniqueTaskIds(tasks: seq<Task>) {
    forall i, j :: 0 <= i < j < |tasks| ==> tasks[i].id != tasks[j].id
  }

  /** The identity-uniqueness invariant of the goal collection. */
  predicate UniqueGoalIds(goals: seq<Goal>) {
    forall i, j :: 0 <= i < j < |goals| ==> goals[i].id != goals[j].id
  }

  /** `TaskIndex` finds an id exactly when some task carries it. */
  lemma TaskIndexFinds(tasks: seq<Task>, id: Id)
    ensures TaskIndex(tasks, id) >= 0 <==> id in TaskIds(tasks)
    ensures TaskIndex(tasks, id) >= 0 ==> tasks[TaskIndex(tasks, id)].id == id
  {
    var idx := TaskIndex(tasks, id);
    if id in TaskIds(tasks) {
      var t :| t in tasks && t.id == id;
      var k :| 0 <= k < |tasks| && tasks[k] == t;
      assert tasks[k].id == id;
    }
  }
}

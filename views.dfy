/** The figures the dashboard and the profile compute from the collections, and the
    ordering by due instant they display. */
module Views {
  import opened Collections
  import opened Records

  predicate SortedByDue(s: seq<Task>) {
    forall i, j :: 0 <= i < j < |s| ==> s[i].due <= s[j].due
  }

  /** Insert `x` after every element whose due instant is not later than its own. */
  function InsertByDue(x: Task, s: seq<Task>): (r: seq<Task>)
    requires SortedByDue(s)
    ensures |r| == |s| + 1
    ensures forall k :: 0 <= k < |r| ==> r[k] == x || r[k] in s
    ensures SortedByDue(r)
    ensures multiset(r) == multiset(s) + multiset{x}
  {
    if s == [] then [x]
    else if x.due < s[0].due then
      SortedCons(x, s);
      [x] + s
    else
      var rest := InsertByDue(x, s[1..]);
      assert s == [s[0]] + s[1..];
      forall k | 0 <= k < |rest| ensures s[0].due <= rest[k].due {
        if rest[k] != x {
          var j :| 0 <= j < |s[1..]| && s[1..][j] == rest[k];
          assert s[1 + j] == rest[k];
        }
      }
      SortedCons(s[0], rest);
      [s[0]] + rest
  }

  /** An element due no later than every element of a sorted sequence can go in front. */
  lemma SortedCons(a: Task, rest: seq<Task>)
    requires SortedByDue(rest)
    requires forall k :: 0 <= k < |rest| ==> a.due <= rest[k].due
    ensures SortedByDue([a] + rest)
  {
    var r := [a] + rest;
    forall i, j | 0 <= i < j < |r| ensures r[i].due <= r[j].due {
      assert r[j] == rest[j - 1];
      if i > 0 {
        assert r[i] == rest[i - 1];
      }
    }
  }

  /** `list.sort((a, b) => new Date(a.datetime) - new Date(b.datetime))`: ascending by due
      instant; the sort is stable, as ECMAScript requires, so tasks due at the same instant
      keep their collection order. */
  function SortByDue(s: seq<Task>): (r: seq<Task>)
    ensures SortedByDue(r)
    ensures multiset(r) == multiset(s)
    ensures |r| == |s|
  {
    if s == [] then []
    else
      var init := s[..|s| - 1];
      assert s == init + [s[|s| - 1]];
      InsertByDue(s[|s| - 1], SortByDue(init))
  }

  /** The tasks still to do, in collection order. */
  function Incomplete(tasks: seq<Task>): (r: seq<Task>)
    ensures |r| <= |tasks|
    ensures forall k :: 0 <= k < |r| ==> r[k] in tasks && !r[k].completed
  {
    Filter(tasks, (t: Task) => !t.completed)
  }

  /** `tasks.filter(t => t.completed).length`. */
  function CompletedCount(tasks: seq<Task>): (n: nat)
    ensures n <= |tasks|
    ensures (exists k :: 0 <= k < |tasks| && tasks[k].completed) ==> n > 0
  {
    |Filter(tasks, (t: Task) => t.completed)|
  }

  /** `tasks.filter(t => !t.completed && sameDay(t.datetime, now)).length`; `day` maps an
      instant to its calendar day in the local time zone. */
  function DueTodayCount(tasks: seq<Task>, now: int, day: int -> int): (n: nat)
    ensures n <= |tasks|
  {
    |Filter(tasks, (t: Task) => !t.completed && day(t.due) == day(now))|
  }

  /** `goals.filter(g => g.progress >= 100).length`. */
  function AchievedCount(goals: seq<Goal>): (n: nat)
    ensures n <= |goals|
    ensures (exists k :: 0 <= k < |goals| && goals[k].progress >= 100) ==> n > 0
  {
    |Filter(goals, (g: Goal) => g.progress >= 100)|
  }

  /** The three dashboard counters and the goal ratio. */
  datatype Dashboard = Dashboard(
    totalTasks: nat,
    completedTasks: nat,
    dueToday: nat,
    totalGoals: nat,
    completedGoals: nat)

  /** The counters of `updateDashboard`. Completed tasks and incomplete tasks due today are
      disjoint, so together they never exceed the total; achieved goals never exceed the
      goals. */
  function DashboardOf(tasks: seq<Task>, goals: seq<Goal>, now: int, day: int -> int): (d: Dashboard)
    ensures d.totalTasks == |tasks| && d.totalGoals == |goals|
    ensures d.completedTasks + d.dueToday <= d.totalTasks
    ensures d.completedGoals <= d.totalGoals
  {
    FilterDisjoint(tasks, (t: Task) => t.completed, (t: Task) => !t.completed && day(t.due) == day(now));
    Dashboard(|tasks|, CompletedCount(tasks), DueTodayCount(tasks, now, day), |goals|, AchievedCount(goals))
  }

  /** The four figures of the profile page. */
  datatype Profile = Profile(createdTasks: nat, completedTasks: nat, goals: nat, achievedGoals: nat)

  /** The figures of `updateProfile`: the same task and goal counts as the dashboard, so
      the two pages never disagree; completed tasks and achieved goals never exceed their
      totals. */
  function ProfileOf(tasks: seq<Task>, goals: seq<Goal>): (p: Profile)
    ensures p.createdTasks == |tasks| && p.goals == |goals|
    ensures p.completedTasks <= p.createdTasks && p.achievedGoals <= p.goals
    ensures forall now: int, day: int -> int ::
      p.completedTasks == DashboardOf(tasks, goals, now, day).completedTasks &&
      p.achievedGoals == DashboardOf(tasks, goals, now, day).completedGoals
  {
    Profile(|tasks|, CompletedCount(tasks), |goals|, AchievedCount(goals))
  }

  /** The dashboard's "next tasks": the incomplete tasks by due instant, the first three.
      The list is as long as it can be without exceeding three, it is ascending, and it
      takes no incomplete task more often than the collection holds it. */
  function Upcoming(tasks: seq<Task>): (r: seq<Task>)
    ensures |r| == (if |Incomplete(tasks)| < 3 then |Incomplete(tasks)| else 3)
    ensures SortedByDue(r)
    ensures multiset(r) <= multiset(Incomplete(tasks))
  {
    var sorted := SortByDue(Incomplete(tasks));
    var r := if |sorted| <= 3 then sorted else sorted[..3];
    assert sorted == r + sorted[|r|..];
    r
  }

  /** In an ascending sequence, the first `n` elements are due no later than any of the
      rest, and the rest is what remains once the first `n` are taken out. */
  lemma SortedPrefixEarliest(sorted: seq<Task>, n: nat)
    requires SortedByDue(sorted) && n <= |sorted|
    ensures multiset(sorted) - multiset(sorted[..n]) == multiset(sorted[n..])
    ensures forall x, y :: x in sorted[..n] && y in multiset(sorted[n..]) ==> x.due <= y.due
  {
    assert sorted == sorted[..n] + sorted[n..];
    forall x, y | x in sorted[..n] && y in multiset(sorted[n..]) ensures x.due <= y.due {
      var i :| 0 <= i < n && sorted[..n][i] == x;
      var j :| 0 <= j < |sorted| - n && sorted[n..][j] == y;
      assert sorted[i] == x && sorted[n + j] == y;
    }
  }

  /** Every upcoming task is an incomplete task of the collection, and no incomplete task
      left out of the list is due before one in it. */
  lemma UpcomingEarliest(tasks: seq<Task>)
    ensures forall k :: 0 <= k < |Upcoming(tasks)| ==> Upcoming(tasks)[k] in tasks && !Upcoming(tasks)[k].completed
    ensures forall x, y :: x in Upcoming(tasks) && y in multiset(Incomplete(tasks)) - multiset(Upcoming(tasks)) ==> x.due <= y.due
  {
    var incomplete := Incomplete(tasks);
    var sorted := SortByDue(incomplete);
    var r := Upcoming(tasks);
    var n := |r|;
    assert r == sorted[..n];
    forall k | 0 <= k < n ensures r[k] in tasks && !r[k].completed {
      assert r[k] in sorted;
      assert r[k] in multiset(incomplete);
      var i :| 0 <= i < |incomplete| && incomplete[i] == r[k];
    }
    SortedPrefixEarliest(sorted, n);
    assert multiset(incomplete) - multiset(r) == multiset(sorted[n..]);
    forall x, y | x in r && y in multiset(incomplete) - multiset(r) ensures x.due <= y.due {
      assert x in sorted[..n];
      assert y in multiset(sorted[n..]);
    }
  }

  /** Moving one goal's progress from below 100 to 100 or more adds exactly one to the
      achieved count; no other field of any goal affects it. */
  lemma {:induction false} AchievedCountsProgress(goals: seq<Goal>, idx: int, progress: int)
    requires 0 <= idx < |goals|
    requires goals[idx].progress < 100 <= progress
    ensures AchievedCount(goals[idx := goals[idx].(progress := progress)]) == AchievedCount(goals) + 1
  {
    var updated := goals[idx := goals[idx].(progress := progress)];
    var p := (g: Goal) => g.progress >= 100;
    assert goals == goals[..idx] + [goals[idx]] + goals[idx + 1..];
    assert updated == goals[..idx] + [updated[idx]] + goals[idx + 1..];
    FilterAppend(goals[..idx] + [goals[idx]], goals[idx + 1..], p);
    FilterAppend(goals[..idx], [goals[idx]], p);
    FilterAppend(goals[..idx] + [updated[idx]], goals[idx + 1..], p);
    FilterAppend(goals[..idx], [updated[idx]], p);
    assert Filter([goals[idx]], p) == [];
    assert Filter([updated[idx]], p) == [updated[idx]];
  }

  /** Two goal lists whose progress values agree position by position have the same
      achieved count. */
  lemma {:induction false} AchievedDependsOnProgressOnly(a: seq<Goal>, b: seq<Goal>)
    requires |a| == |b|
    requires forall k :: 0 <= k < |a| ==> a[k].progress == b[k].progress
    ensures AchievedCount(a) == AchievedCount(b)
  {
    if a != [] {
      AchievedDependsOnProgressOnly(a[..|a| - 1], b[..|b| - 1]);
    }
  }
}

/** The task list view groups the tasks by category, and the profile counts the tasks of
    each known category. */
module Timeline {
  import opened Collections
  import opened Records
  import opened Views

  /** One rendered category group: its header and its tasks, ascending by due instant. */
  datatype Group = Group(category: string, members: seq<Task>)

  /** The tasks of category `c`, in collection order. */
  function InCategory(tasks: seq<Task>, c: string): (r: seq<Task>)
    ensures |r| <= |tasks|
    ensures forall k :: 0 <= k < |r| ==> r[k] in tasks && r[k].category == c
  {
    Filter(tasks, (t: Task) => t.category == c)
  }

  /** Some task has category `c`. */
  predicate HasCategory(tasks: seq<Task>, c: string) {
    |InCategory(tasks, c)| > 0
  }

  /** `HasCategory` as a predicate on categories, for filtering keys. */
  function HasTasks(tasks: seq<Task>): string -> bool {
    (c: string) => HasCategory(tasks, c)
  }

  /** The categories the tasks carry. */
  function CategorySet(tasks: seq<Task>): set<string> {
    set t | t in tasks :: t.category
  }

  /** The categories of `tasks` outside `Categories`, each once, in order of first
      appearance: the keys the grouping adds after the seven known ones. */
  function Extras(tasks: seq<Task>): (r: seq<string>)
    ensures Distinct(r)
    ensures forall k :: 0 <= k < |r| ==> r[k] !in Categories && r[k] in CategorySet(tasks)
    ensures forall k :: 0 <= k < |tasks| && tasks[k].category !in Categories ==> tasks[k].category in r
  {
    if tasks == [] then []
    else
      var init, last := tasks[..|tasks| - 1], tasks[|tasks| - 1];
      var before := Extras(init);
      assert tasks == init + [last];
      assert CategorySet(tasks) == CategorySet(init) + {last.category};
      if last.category in Categories || last.category in before then before else before + [last.category]
  }

  /** Appending a task extends exactly the list of its own category. */
  lemma InCategoryGrows(tasks: seq<Task>, task: Task, c: string)
    ensures InCategory(tasks + [task], c) == InCategory(tasks, c) + (if task.category == c then [task] else [])
  {
    assert (tasks + [task])[..|tasks|] == tasks;
  }

  /** A category some task carries has a non-empty list. */
  lemma CarriedCategoryHasTasks(tasks: seq<Task>, c: string)
    requires c in CategorySet(tasks)
    ensures HasCategory(tasks, c)
  {
    var t :| t in tasks && t.category == c;
    var k :| 0 <= k < |tasks| && tasks[k] == t;
    assert tasks[k] in InCategory(tasks, c);
  }

  /** The keys of the grouping dictionary in insertion order: the seven known categories,
      then the unknown ones as the tasks bring them. */
  function GroupKeys(tasks: seq<Task>): (r: seq<string>)
    ensures |Categories| <= |r| && r[..|Categories|] == Categories
  {
    Categories + Extras(tasks)
  }

  /** The group rendered for category `c`: its tasks, ascending by due instant. */
  function GroupOf(tasks: seq<Task>, c: string): Group {
    Group(c, SortByDue(InCategory(tasks, c)))
  }

  /** The groups for `keys`: one per key that has tasks, in key order. */
  function Layout(keys: seq<string>, tasks: seq<Task>): (r: seq<Group>)
    ensures |r| <= |keys|
  {
    var shown := Filter(keys, HasTasks(tasks));
    seq(|shown|, i requires 0 <= i < |shown| => GroupOf(tasks, shown[i]))
  }

  /** Adding a key renders one more group at the end exactly when that key has tasks. */
  lemma LayoutStep(keys: seq<string>, c: string, tasks: seq<Task>)
    ensures Layout(keys + [c], tasks) == Layout(keys, tasks) + (if HasCategory(tasks, c) then [GroupOf(tasks, c)] else [])
  {
    assert (keys + [c])[..|keys|] == keys;
  }

  /** `LayoutStep` for the prefixes of one key sequence, with the emptiness test on the
      sorted list as the rendering loop writes it. */
  lemma LayoutPrefixStep(keys: seq<string>, j: int, tasks: seq<Task>)
    requires 0 <= j < |keys|
    ensures var list := SortByDue(InCategory(tasks, keys[j]));
            Layout(keys[..j + 1], tasks) == Layout(keys[..j], tasks) + (if |list| != 0 then [Group(keys[j], list)] else [])
  {
    assert keys[..j + 1] == keys[..j] + [keys[j]];
    LayoutStep(keys[..j], keys[j], tasks);
  }

  /** With no task, no key has tasks, so nothing is rendered. */
  lemma LayoutWithoutTasks(keys: seq<string>)
    ensures Layout(keys, []) == []
  {
    FilterNone(keys, HasTasks([]));
  }

  /** What `updateTasksUI` renders, group by group. */
  function TimelineOf(tasks: seq<Task>): (r: seq<Group>)
    ensures |r| <= |GroupKeys(tasks)|
    ensures tasks == [] ==> r == []
  {
    LayoutWithoutTasks(GroupKeys(tasks));
    Layout(GroupKeys(tasks), tasks)
  }

  /** The group headers, in order. */
  function CategoriesOf(groups: seq<Group>): seq<string> {
    seq(|groups|, i requires 0 <= i < |groups| => groups[i].category)
  }

  /** A rendered group is never empty, is ascending by due instant, and holds exactly the
      tasks of its category. */
  predicate WellFormedGroup(g: Group, tasks: seq<Task>) {
    && |g.members| > 0
    && SortedByDue(g.members)
    && multiset(g.members) == multiset(InCategory(tasks, g.category))
  }

  /** `keys` lists the grouping dictionary's keys in insertion order after `tasks` have
      been pushed, and `groups[c]` holds the tasks of category `c` in order. */
  ghost predicate Collected(keys: seq<string>, groups: map<string, seq<Task>>, tasks: seq<Task>) {
    && keys == GroupKeys(tasks)
    && (forall c :: c in groups <==> c in keys)
    && (forall c :: c in groups ==> groups[c] == InCategory(tasks, c))
  }

  /** Appending a task adds its category to the keys iff it is not a key yet. */
  lemma GroupKeysGrow(prefix: seq<Task>, task: Task)
    ensures GroupKeys(prefix + [task]) ==
      if task.category in GroupKeys(prefix) then GroupKeys(prefix) else GroupKeys(prefix) + [task.category]
  {
    assert (prefix + [task])[..|prefix|] == prefix;
  }

  /** The seeded dictionary: the seven known categories, each with no task. */
  lemma CollectedSeed()
    ensures Collected(Categories, map c | c in Categories :: [], [])
  {
    assert GroupKeys([]) == Categories;
    forall c | c in Categories ensures InCategory([], c) == [] {
      FilterNone([], (t: Task) => t.category == c);
    }
  }

  /** One step of the filling loop keeps `Collected`. */
  lemma CollectStep(keys: seq<string>, groups: map<string, seq<Task>>, prefix: seq<Task>, task: Task,
                    keys': seq<string>, groups': map<string, seq<Task>>)
    requires Collected(keys, groups, prefix)
    requires keys' == if task.category in groups then keys else keys + [task.category]
    requires var seeded := if task.category in groups then groups else groups[task.category := []];
             groups' == seeded[task.category := seeded[task.category] + [task]]
    ensures Collected(keys', groups', prefix + [task])
  {
    var c := task.category;
    var seeded := if c in groups then groups else groups[c := []];
    CollectKeysStep(keys, groups, prefix, task);
    if c !in groups {
      NoKeyNoTasks(prefix, c);
    }
    CollectListsStep(groups, seeded, prefix, task);
  }

  lemma CollectKeysStep(keys: seq<string>, groups: map<string, seq<Task>>, prefix: seq<Task>, task: Task)
    requires Collected(keys, groups, prefix)
    ensures var c := task.category;
            var keys' := if c in groups then keys else keys + [c];
            && keys' == GroupKeys(prefix + [task])
            && forall d :: d in groups || d == c <==> d in keys'
  {
    GroupKeysGrow(prefix, task);
  }

  lemma CollectListsStep(groups: map<string, seq<Task>>, seeded: map<string, seq<Task>>, prefix: seq<Task>, task: Task)
    requires forall c :: c in groups ==> groups[c] == InCategory(prefix, c)
    requires task.category !in groups ==> InCategory(prefix, task.category) == []
    requires seeded == if task.category in groups then groups else groups[task.category := []]
    ensures var after := seeded[task.category := seeded[task.category] + [task]];
            forall d :: d in after ==> after[d] == InCategory(prefix + [task], d)
  {
    var after := seeded[task.category := seeded[task.category] + [task]];
    forall d | d in after ensures after[d] == InCategory(prefix + [task], d) {
      InCategoryGrows(prefix, task, d);
    }
  }

  /** The dictionary `updateTasksUI` fills, with its keys in insertion order: seeded with
      an empty list for each known category, then every task pushed onto its category's
      list, a new key being added the first time an unknown category appears. */
  function Collect(tasks: seq<Task>): (r: (seq<string>, map<string, seq<Task>>))
    ensures |Categories| <= |r.0| && r.0[..|Categories|] == Categories
  {
    if tasks == [] then (Categories, map c | c in Categories :: [])
    else
      var (keys, groups) := Collect(tasks[..|tasks| - 1]);
      var task := tasks[|tasks| - 1];
      var c := task.category;
      var seeded := if c in groups then groups else groups[c := []];
      (if c in groups then keys else keys + [c], seeded[c := seeded[c] + [task]])
  }

  /** The filled dictionary lists every key once, the seven known ones first, and maps
      each key to the tasks of that category in collection order. */
  lemma {:induction false} CollectMeaning(tasks: seq<Task>)
    ensures Collected(Collect(tasks).0, Collect(tasks).1, tasks)
  {
    if tasks == [] {
      CollectedSeed();
    } else {
      var init := tasks[..|tasks| - 1];
      CollectMeaning(init);
      var (keys, groups) := Collect(init);
      var task := tasks[|tasks| - 1];
      assert tasks == init + [task];
      CollectStep(keys, groups, init, task, Collect(tasks).0, Collect(tasks).1);
    }
  }

  /** The filling loop of `updateTasksUI`. */
  method CollectGroups(tasks: seq<Task>) returns (keys: seq<string>, groups: map<string, seq<Task>>)
    ensures (keys, groups) == Collect(tasks)
  {
    keys := Categories;
    groups := map c | c in Categories :: [];
    var i := 0;
    while i < |tasks|
      invariant 0 <= i <= |tasks|
      invariant (keys, groups) == Collect(tasks[..i])
    {
      var task := tasks[i];
      assert tasks[..i + 1][..i] == tasks[..i];
      if task.category !in groups {
        keys := keys + [task.category];
        groups := groups[task.category := []];
      }
      groups := groups[task.category := groups[task.category] + [task]];
      i := i + 1;
    }
    assert tasks[..|tasks|] == tasks;
  }

  /** The rendering loop of `updateTasksUI`: for each key in order, the key's list sorted
      by due instant, skipped when empty. */
  method RenderGroups(keys: seq<string>, groups: map<string, seq<Task>>, tasks: seq<Task>) returns (timeline: seq<Group>)
    requires forall c :: c in keys ==> c in groups && groups[c] == InCategory(tasks, c)
    ensures timeline == Layout(keys, tasks)
  {
    timeline := [];
    var j := 0;
    while j < |keys|
      invariant 0 <= j <= |keys|
      invariant timeline == Layout(keys[..j], tasks)
    {
      var category := keys[j];
      LayoutPrefixStep(keys, j, tasks);
      var list := SortByDue(groups[category]);
      if |list| != 0 {
        timeline := timeline + [Group(category, list)];
      }
      j := j + 1;
    }
    assert keys[..|keys|] == keys;
  }

  /** The grouping of `updateTasksUI`: collect the dictionary, then render its non-empty
      lists in key order. */
  method GroupByCategory(tasks: seq<Task>) returns (timeline: seq<Group>)
    ensures timeline == TimelineOf(tasks)
  {
    var keys, groups := CollectGroups(tasks);
    CollectMeaning(tasks);
    timeline := RenderGroups(keys, groups, tasks);
  }

  /** A category that is not among the keys yet has no task so far. */
  lemma NoKeyNoTasks(tasks: seq<Task>, c: string)
    requires c !in GroupKeys(tasks)
    ensures InCategory(tasks, c) == []
  {
    forall k | 0 <= k < |tasks| ensures tasks[k].category != c {
      if tasks[k].category !in Categories {
        assert tasks[k].category in Extras(tasks);
      }
    }
    FilterNone(tasks, (t: Task) => t.category == c);
  }

  /** The counts of the profile: every known category, with its number of tasks; tasks of
      other categories are not counted. */
  method CategoryCounts(tasks: seq<Task>) returns (counts: map<string, nat>)
    ensures counts.Keys == set c | c in Categories
    ensures forall c :: c in counts ==> counts[c] == |InCategory(tasks, c)|
  {
    counts := map c | c in Categories :: 0;
    for i := 0 to |tasks|
      invariant counts.Keys == set c | c in Categories
      invariant forall c :: c in counts ==> counts[c] == |InCategory(tasks[..i], c)|
    {
      var task := tasks[i];
      assert tasks[..i + 1] == tasks[..i] + [task];
      if task.category in counts {
        counts := counts[task.category := counts[task.category] + 1];
      }
      forall c | c in counts ensures counts[c] == |InCategory(tasks[..i + 1], c)| {
        InCategoryGrows(tasks[..i], task, c);
      }
    }
    assert tasks[..|tasks|] == tasks;
  }

  /** `Layout` renders, in key order, a group for exactly those keys that have tasks, and
      every group it renders is well formed. */
  lemma LayoutShape(keys: seq<string>, tasks: seq<Task>)
    ensures CategoriesOf(Layout(keys, tasks)) == Filter(keys, HasTasks(tasks))
    ensures forall i :: 0 <= i < |Layout(keys, tasks)| ==> WellFormedGroup(Layout(keys, tasks)[i], tasks)
  {
    var shown := Filter(keys, HasTasks(tasks));
    var layout := Layout(keys, tasks);
    forall i | 0 <= i < |layout| ensures WellFormedGroup(layout[i], tasks) {
      assert HasTasks(tasks)(shown[i]);
    }
  }

  /** The seven known categories and the extra ones never repeat a key. */
  lemma GroupKeysDistinct(tasks: seq<Task>)
    ensures Distinct(GroupKeys(tasks))
  {
    CategoriesDistinct();
    DistinctConcat(Categories, Extras(tasks));
  }

  /** The task list shows the known categories that have tasks, in their fixed order, then
      the other categories in order of first appearance; no header appears twice. */
  lemma TimelineCategories(tasks: seq<Task>)
    ensures CategoriesOf(TimelineOf(tasks)) == Filter(Categories, HasTasks(tasks)) + Extras(tasks)
    ensures Distinct(CategoriesOf(TimelineOf(tasks)))
    ensures forall i :: 0 <= i < |TimelineOf(tasks)| ==> WellFormedGroup(TimelineOf(tasks)[i], tasks)
  {
    var p := HasTasks(tasks);
    var extras := Extras(tasks);
    LayoutShape(GroupKeys(tasks), tasks);
    FilterAppend(Categories, extras, p);
    forall k | 0 <= k < |extras| ensures p(extras[k]) {
      CarriedCategoryHasTasks(tasks, extras[k]);
    }
    FilterAll(extras, p);
    GroupKeysDistinct(tasks);
    FilterDistinct(GroupKeys(tasks), p);
  }

  /** A task's category is a key of the grouping and has tasks. */
  lemma TaskCategoryRendered(tasks: seq<Task>, k: int)
    requires 0 <= k < |tasks|
    ensures tasks[k].category in Filter(GroupKeys(tasks), HasTasks(tasks))
  {
    var c := tasks[k].category;
    var keys := GroupKeys(tasks);
    assert tasks[k] in InCategory(tasks, c);
    assert HasTasks(tasks)(c);
    if c in Categories {
      var j :| 0 <= j < |Categories| && Categories[j] == c;
      assert keys[j] == c;
    } else {
      var extras := Extras(tasks);
      assert c in extras;
      var j :| 0 <= j < |extras| && extras[j] == c;
      assert keys[|Categories| + j] == c;
    }
  }

  /** Some group of `timeline` has `t`'s category as its header and shows `t`. */
  predicate ShownInItsGroup(timeline: seq<Group>, t: Task) {
    exists i :: 0 <= i < |timeline| && timeline[i].category == t.category && t in timeline[i].members
  }

  /** A key that has tasks gets a group header. */
  lemma HeaderShown(keys: seq<string>, tasks: seq<Task>, c: string)
    requires c in Filter(keys, HasTasks(tasks))
    ensures exists i :: 0 <= i < |Layout(keys, tasks)| && Layout(keys, tasks)[i].category == c
  {
    var layout := Layout(keys, tasks);
    LayoutShape(keys, tasks);
    var i :| 0 <= i < |layout| && CategoriesOf(layout)[i] == c;
    assert layout[i].category == c;
  }

  /** The group rendered for a category shows every task of that category. */
  lemma GroupShowsTask(tasks: seq<Task>, c: string, k: int)
    requires 0 <= k < |tasks| && tasks[k].category == c
    ensures tasks[k] in GroupOf(tasks, c).members
  {
    assert tasks[k] in InCategory(tasks, c);
    assert tasks[k] in multiset(GroupOf(tasks, c).members);
  }

  /** Each rendered group is the group of its header's category. */
  lemma LayoutGroup(keys: seq<string>, tasks: seq<Task>, i: int)
    requires 0 <= i < |Layout(keys, tasks)|
    ensures Layout(keys, tasks)[i] == GroupOf(tasks, Layout(keys, tasks)[i].category)
  {
  }

  /** Task `k` appears in the group of its own category. */
  lemma TaskInItsGroup(tasks: seq<Task>, k: int)
    requires 0 <= k < |tasks|
    ensures ShownInItsGroup(TimelineOf(tasks), tasks[k])
  {
    var keys := GroupKeys(tasks);
    TaskCategoryRendered(tasks, k);
    HeaderShown(keys, tasks, tasks[k].category);
    var i :| 0 <= i < |Layout(keys, tasks)| && Layout(keys, tasks)[i].category == tasks[k].category;
    LayoutGroup(keys, tasks, i);
    GroupShowsTask(tasks, tasks[k].category, k);
  }

  /** Every task appears in the task list, in the group of its own category. */
  lemma TimelineCoversTasks(tasks: seq<Task>)
    ensures forall k :: 0 <= k < |tasks| ==> ShownInItsGroup(TimelineOf(tasks), tasks[k])
  {
    forall k | 0 <= k < |tasks| ensures ShownInItsGroup(TimelineOf(tasks), tasks[k]) {
      TaskInItsGroup(tasks, k);
    }
  }

  /** A group holds only tasks of the collection whose category is the group's. */
  lemma TimelineMembersBelong(tasks: seq<Task>)
    ensures forall i, x :: 0 <= i < |TimelineOf(tasks)| && x in TimelineOf(tasks)[i].members ==>
      x in tasks && x.category == TimelineOf(tasks)[i].category
  {
    var timeline := TimelineOf(tasks);
    LayoutShape(GroupKeys(tasks), tasks);
    forall i, x | 0 <= i < |timeline| && x in timeline[i].members
      ensures x in tasks && x.category == timeline[i].category
    {
      var own := InCategory(tasks, timeline[i].category);
      assert WellFormedGroup(timeline[i], tasks);
      assert x in multiset(own);
      var j :| 0 <= j < |own| && own[j] == x;
    }
  }

  /** A known category that has tasks is a rendered key. */
  lemma KnownCategoryRendered(tasks: seq<Task>, c: string)
    requires c in Categories && HasCategory(tasks, c)
    ensures c in Filter(GroupKeys(tasks), HasTasks(tasks))
  {
    var keys := GroupKeys(tasks);
    var j :| 0 <= j < |Categories| && Categories[j] == c;
    assert keys[j] == c;
    assert HasTasks(tasks)(keys[j]);
  }

  /** A rendered group is as long as its category's list. */
  lemma GroupSize(keys: seq<string>, tasks: seq<Task>, i: int)
    requires 0 <= i < |Layout(keys, tasks)|
    ensures |Layout(keys, tasks)[i].members| == |InCategory(tasks, Layout(keys, tasks)[i].category)|
  {
  }

  /** The profile's count for a known category that has tasks is the size of that
      category's group in the task list. */
  lemma CountMatchesGroup(tasks: seq<Task>, c: string)
    requires c in Categories && HasCategory(tasks, c)
    ensures exists i :: 0 <= i < |TimelineOf(tasks)| && TimelineOf(tasks)[i].category == c
                        && |TimelineOf(tasks)[i].members| == |InCategory(tasks, c)|
  {
    var keys := GroupKeys(tasks);
    KnownCategoryRendered(tasks, c);
    HeaderShown(keys, tasks, c);
    var layout := Layout(keys, tasks);
    var i :| 0 <= i < |layout| && layout[i].category == c;
    GroupSize(keys, tasks, i);
    assert TimelineOf(tasks) == layout;
    assert |layout[i].members| == |InCategory(tasks, c)|;
  }

  /** Task `k` is in group `i` exactly when the group's header is the task's category; as
      the headers are distinct, each task is in exactly one group. */
  lemma TaskGroupIff(tasks: seq<Task>, k: int, i: int)
    requires 0 <= k < |tasks| && 0 <= i < |TimelineOf(tasks)|
    ensures tasks[k] in TimelineOf(tasks)[i].members <==> TimelineOf(tasks)[i].category == tasks[k].category
  {
    if TimelineOf(tasks)[i].category == tasks[k].category {
      LayoutGroup(GroupKeys(tasks), tasks, i);
      GroupShowsTask(tasks, tasks[k].category, k);
    }
    TimelineMembersBelong(tasks);
  }
}

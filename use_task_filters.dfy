/** The filtered task list and the category options (src/hooks/useTaskFilters.ts). */
module UseTaskFilters {
  import opened Outcomes
  import opened Seqs
  import opened Sorting
  import opened Text
  import opened Tasks

  /** The filter criteria record (`TaskFilters`); every field is free text. */
  datatype Criteria = Criteria(
    search: string,
    priority: string,
    status: string,
    category: string,
    dueDateSort: string)

  /** The state the hook starts in. */
  const InitialCriteria := Criteria("", "all", "all", "all", "none")

  /** Case-insensitive search hit; `needle` is already lower-cased. A null description or
      category never matches. */
  predicate SearchHit(t: Task, needle: string) {
    || Includes(Lower(t.title), needle)
    || (t.description.Some? && Includes(Lower(t.description.value), needle))
    || (t.category.Some? && Includes(Lower(t.category.value), needle))
  }

  /** The four narrowing stages, each as it decides one task. */
  predicate PassesSearch(t: Task, search: string) {
    search == "" || SearchHit(t, Lower(search))
  }

  predicate PassesPriority(t: Task, priority: string) {
    priority == "all" || t.priority == priority
  }

  /** The status `switch` has no default case: an unknown status keeps everything. */
  predicate PassesStatus(t: Task, status: string, now: Timestamp) {
    if status == "completed" then t.completed
    else if status == "pending" then !t.completed
    else if status == "overdue" then IsOverdue(t, now)
    else true
  }

  predicate PassesCategory(t: Task, category: string) {
    category == "all" || t.category == Some(category)
  }

  /** The first `k` stages together. */
  predicate PassesFirst(t: Task, f: Criteria, now: Timestamp, k: nat) {
    && (k < 1 || PassesSearch(t, f.search))
    && (k < 2 || PassesPriority(t, f.priority))
    && (k < 3 || PassesStatus(t, f.status, now))
    && (k < 4 || PassesCategory(t, f.category))
  }

  function StageFn(f: Criteria, now: Timestamp, k: nat): Task -> bool {
    t => PassesFirst(t, f, now, k)
  }

  predicate Passes(t: Task, f: Criteria, now: Timestamp) {
    PassesFirst(t, f, now, 4)
  }

  /** The list after the four narrowing stages, before any sorting. */
  function Narrowed(tasks: seq<Task>, f: Criteria, now: Timestamp): seq<Task> {
    Filter(tasks, StageFn(f, now, 4))
  }

  /** The due-date comparator as a key: dated tasks first, by time ascending for 'soonest'
      and descending for any other sort value; undated tasks last and equal to each other. */
  function DueKey(t: Task, soonest: bool): Key {
    match t.dueDate
    case None => Key(1, 0)
    case Some(d) => Key(0, if soonest then d else -d)
  }

  /** The comparator passed to `sort`: both undated tie, an undated task goes after a dated
      one, and dated tasks compare by the difference of their due times. */
  function DueCompare(a: Task, b: Task, soonest: bool): int {
    if a.dueDate.None? && b.dueDate.None? then 0
    else if a.dueDate.None? then 1
    else if b.dueDate.None? then -1
    else if soonest then a.dueDate.value - b.dueDate.value
    else b.dueDate.value - a.dueDate.value
  }

  /** The key order is the comparator's order: a task's key is smaller exactly when the
      comparator puts it first, and two keys are equal exactly when the comparator ties. */
  lemma DueKeyMatchesComparator(a: Task, b: Task, soonest: bool)
    ensures KeyLess(DueKey(a, soonest), DueKey(b, soonest)) <==> DueCompare(a, b, soonest) < 0
    ensures DueKey(a, soonest) == DueKey(b, soonest) <==> DueCompare(a, b, soonest) == 0
  {
  }

  function DueKeyFn(soonest: bool): Task -> Key {
    t => DueKey(t, soonest)
  }

  /** What the sort promises: no undated task before a dated one, and dated tasks in
      ascending ('soonest') or descending order of due time. */
  ghost predicate DueOrdered(s: seq<Task>, soonest: bool) {
    && (forall i, j :: 0 <= i < j < |s| && s[i].dueDate.None? ==> s[j].dueDate.None?)
    && (forall i, j :: 0 <= i < j < |s| && s[i].dueDate.Some? && s[j].dueDate.Some? ==>
          if soonest then s[i].dueDate.value <= s[j].dueDate.value
          else s[i].dueDate.value >= s[j].dueDate.value)
  }

  lemma DueSortOrders(s: seq<Task>, soonest: bool)
    ensures DueOrdered(SortByKey(s, DueKeyFn(soonest)), soonest)
  {
    var r := SortByKey(s, DueKeyFn(soonest));
    SortSorts(s, DueKeyFn(soonest));
    assert forall i, j :: 0 <= i < j < |r| ==> KeyLe(DueKey(r[i], soonest), DueKey(r[j], soonest));
  }

  /** The tasks with due date `d` (undated when `d` is `None`). */
  function DueIs(d: Option<Timestamp>): Task -> bool {
    (t: Task) => t.dueDate == d
  }

  /** `Array.prototype.sort` is stable: tasks the comparator ties, those with the same due time
      and the undated ones, keep their relative order. */
  lemma DueSortStable(s: seq<Task>, soonest: bool, d: Option<Timestamp>)
    ensures Filter(SortByKey(s, DueKeyFn(soonest)), DueIs(d)) == Filter(s, DueIs(d))
  {
    var k := match d case None => Key(1, 0) case Some(v) => Key(0, if soonest then v else -v);
    var key := DueKeyFn(soonest);
    SortStable(s, key, k);
    FilterExt(SortByKey(s, key), KeyIs(key, k), DueIs(d));
    FilterExt(s, KeyIs(key, k), DueIs(d));
  }

  /** One narrowing stage applied to the output of the previous ones. */
  lemma StageStep(tasks: seq<Task>, prev: seq<Task>, f: Criteria, now: Timestamp, k: nat, p: Task -> bool)
    requires 1 <= k && prev == Filter(tasks, StageFn(f, now, k - 1))
    requires forall t :: PassesFirst(t, f, now, k) == (PassesFirst(t, f, now, k - 1) && p(t))
    ensures Filter(prev, p) == Filter(tasks, StageFn(f, now, k))
  {
    FilterFilter(tasks, StageFn(f, now, k - 1), p, StageFn(f, now, k));
  }

  /** A stage whose criterion is neutral keeps everything. */
  lemma StageSkipped(tasks: seq<Task>, prev: seq<Task>, f: Criteria, now: Timestamp, k: nat)
    requires 1 <= k && prev == Filter(tasks, StageFn(f, now, k - 1))
    requires forall t :: PassesFirst(t, f, now, k) == PassesFirst(t, f, now, k - 1)
    ensures prev == Filter(tasks, StageFn(f, now, k))
  {
    FilterExt(tasks, StageFn(f, now, k - 1), StageFn(f, now, k));
  }

  /** `filteredTasks`: copy, narrow by search, priority, status and category, then sort the
      copy in place by due date unless the sort is 'none'. */
  method FilteredTasks(tasks: seq<Task>, f: Criteria, now: Timestamp) returns (r: seq<Task>)
    ensures forall t :: t in r <==> t in tasks && Passes(t, f, now)
    ensures multiset(r) == multiset(Narrowed(tasks, f, now))
    ensures f.dueDateSort == "none" ==> r == Narrowed(tasks, f, now) && IsSubsequence(r, tasks)
    ensures f.dueDateSort != "none" ==> r == SortByKey(Narrowed(tasks, f, now), DueKeyFn(f.dueDateSort == "soonest"))
    ensures f.dueDateSort != "none" ==> DueOrdered(r, f.dueDateSort == "soonest")
    ensures forall d :: Filter(r, DueIs(d)) == Filter(Narrowed(tasks, f, now), DueIs(d))
  {
    var filtered := NarrowStages(tasks, f, now);
    FilterAll(tasks, StageFn(f, now, 4));
    if f.dueDateSort != "none" {
      var soonest := f.dueDateSort == "soonest";
      var a := new Task[|filtered|](i requires 0 <= i < |filtered| => filtered[i]);
      assert a[..] == filtered;
      SortInPlace(a, DueKeyFn(soonest));
      r := a[..];
      SortPermutes(filtered, DueKeyFn(soonest));
      DueSortOrders(filtered, soonest);
      forall d ensures Filter(r, DueIs(d)) == Filter(filtered, DueIs(d)) {
        DueSortStable(filtered, soonest, d);
      }
      forall t ensures t in r <==> t in filtered {
        assert t in r <==> t in multiset(r);
        assert t in filtered <==> t in multiset(filtered);
      }
    } else {
      r := filtered;
      FilterIsSubsequence(tasks, StageFn(f, now, 4));
    }
  }

  /** The predicates the stages filter by. */
  function SearchFn(needle: string): Task -> bool {
    t => SearchHit(t, needle)
  }

  function PriorityFn(priority: string): Task -> bool {
    (t: Task) => t.priority == priority
  }

  function OverdueFn(now: Timestamp): Task -> bool {
    t => IsOverdue(t, now)
  }

  function CategoryFn(category: string): Task -> bool {
    (t: Task) => t.category == Some(category)
  }

  /** The four narrowing stages of `filteredTasks`, each a `filter` of the previous result. */
  method NarrowStages(tasks: seq<Task>, f: Criteria, now: Timestamp) returns (filtered: seq<Task>)
    ensures filtered == Narrowed(tasks, f, now)
  {
    filtered := tasks;
    FilterTrue(tasks, StageFn(f, now, 0));
    if f.search != "" {
      var searchLower := Lower(f.search);
      StageStep(tasks, filtered, f, now, 1, SearchFn(searchLower));
      filtered := Filter(filtered, SearchFn(searchLower));
    } else {
      StageSkipped(tasks, filtered, f, now, 1);
    }
    if f.priority != "all" {
      StageStep(tasks, filtered, f, now, 2, PriorityFn(f.priority));
      filtered := Filter(filtered, PriorityFn(f.priority));
    } else {
      StageSkipped(tasks, filtered, f, now, 2);
    }
    if f.status != "all" {
      if f.status == "completed" {
        StageStep(tasks, filtered, f, now, 3, IsCompleted);
        filtered := Filter(filtered, IsCompleted);
      } else if f.status == "pending" {
        StageStep(tasks, filtered, f, now, 3, IsPending);
        filtered := Filter(filtered, IsPending);
      } else if f.status == "overdue" {
        StageStep(tasks, filtered, f, now, 3, OverdueFn(now));
        filtered := Filter(filtered, OverdueFn(now));
      } else {
        StageSkipped(tasks, filtered, f, now, 3);
      }
    } else {
      StageSkipped(tasks, filtered, f, now, 3);
    }
    if f.category != "all" {
      StageStep(tasks, filtered, f, now, 4, CategoryFn(f.category));
      filtered := Filter(filtered, CategoryFn(f.category));
    } else {
      StageSkipped(tasks, filtered, f, now, 4);
    }
  }

  /** No narrowing stage reorders: the narrowed list is an ordered subsequence of the input. */
  lemma NarrowedIsSubsequence(tasks: seq<Task>, f: Criteria, now: Timestamp)
    ensures forall t :: t in Narrowed(tasks, f, now) <==> t in tasks && Passes(t, f, now)
    ensures IsSubsequence(Narrowed(tasks, f, now), tasks)
    ensures |Narrowed(tasks, f, now)| <= |tasks|
  {
    FilterAll(tasks, StageFn(f, now, 4));
    FilterIsSubsequence(tasks, StageFn(f, now, 4));
    FilterLength(tasks, StageFn(f, now, 4));
  }

  /** The initial criteria keep every task, in order. */
  lemma InitialCriteriaKeepAll(tasks: seq<Task>, now: Timestamp)
    ensures Narrowed(tasks, InitialCriteria, now) == tasks
  {
    FilterTrue(tasks, StageFn(InitialCriteria, now, 4));
  }

  /** An empty search passes every task; otherwise a task passes iff the lower-cased search
      text occurs in its lower-cased title, description or category. */
  lemma SearchStage(t: Task, search: string)
    ensures search == "" ==> PassesSearch(t, search)
    ensures search != "" ==>
      (PassesSearch(t, search) <==>
        || (exists i :: OccursAt(Lower(t.title), Lower(search), i))
        || (t.description.Some? && exists i :: OccursAt(Lower(t.description.value), Lower(search), i))
        || (t.category.Some? && exists i :: OccursAt(Lower(t.category.value), Lower(search), i)))
  {
    var needle := Lower(search);
    IncludesIff(Lower(t.title), needle);
    if t.description.Some? { IncludesIff(Lower(t.description.value), needle); }
    if t.category.Some? { IncludesIff(Lower(t.category.value), needle); }
  }

  /** What each of the other criteria guarantees about every task that passes. */
  lemma PassingTaskMatchesCriteria(t: Task, f: Criteria, now: Timestamp)
    requires Passes(t, f, now)
    ensures f.priority != "all" ==> t.priority == f.priority
    ensures f.category != "all" ==> t.category == Some(f.category)
    ensures f.status == "completed" ==> t.completed
    ensures f.status == "pending" ==> !t.completed
    ensures f.status == "overdue" ==> !t.completed && t.dueDate.Some? && t.dueDate.value < now
  {
  }

  /** A status outside the four known values filters nothing. */
  lemma UnknownStatusKeepsAll(tasks: seq<Task>, f: Criteria, now: Timestamp)
    requires f.status !in {"all", "completed", "pending", "overdue"}
    ensures Narrowed(tasks, f, now) == Narrowed(tasks, f.(status := "all"), now)
  {
    FilterExt(tasks, StageFn(f, now, 4), StageFn(f.(status := "all"), now, 4));
  }

  // ---------------------------------------------------------------------------------------
  // The category options

  ghost predicate StrictlySorted(s: seq<string>) {
    forall i, j :: 0 <= i < j < |s| ==> StrLess(s[i], s[j])
  }

  /** Adds `c` to an ascending list of distinct strings, keeping it ascending and distinct. */
  function InsertCategory(c: string, s: seq<string>): (r: seq<string>)
    requires StrictlySorted(s)
    ensures StrictlySorted(r)
    ensures forall x :: x in r <==> x in s || x == c
    decreases |s|
  {
    if s == [] then [c]
    else if c == s[0] then s
    else if StrLess(c, s[0]) then
      StrictBelowHead(c, s);
      [c] + s
    else
      StrLessTotal(c, s[0]);
      var rest := InsertCategory(c, s[1..]);
      HeadBelowRest(s, c, rest);
      [s[0]] + rest
  }

  lemma StrictBelowHead(c: string, s: seq<string>)
    requires StrictlySorted(s) && s != [] && StrLess(c, s[0])
    ensures StrictlySorted([c] + s)
  {
    forall j | 0 < j < |s| ensures StrLess(c, s[j]) { StrLessTransitive(c, s[0], s[j]); }
    var r := [c] + s;
    forall i, j | 0 <= i < j < |r| ensures StrLess(r[i], r[j]) {
      if i == 0 { assert r[j] == s[j - 1]; } else { assert r[i] == s[i - 1] && r[j] == s[j - 1]; }
    }
  }

  lemma HeadBelowRest(s: seq<string>, c: string, rest: seq<string>)
    requires StrictlySorted(s) && s != [] && StrLess(s[0], c)
    requires StrictlySorted(rest) && forall x :: x in rest <==> x in s[1..] || x == c
    ensures StrictlySorted([s[0]] + rest)
  {
    var r := [s[0]] + rest;
    forall j | 0 <= j < |rest| ensures StrLess(s[0], rest[j]) {
      if rest[j] != c {
        assert rest[j] in s[1..];
        var k :| 0 <= k < |s[1..]| && s[1..][k] == rest[j];
        assert s[k + 1] == rest[j];
      }
    }
    forall i, j | 0 <= i < j < |r| ensures StrLess(r[i], r[j]) {
      if i == 0 { assert r[j] == rest[j - 1]; } else { assert r[i] == rest[i - 1] && r[j] == rest[j - 1]; }
    }
  }

  /** `categories`: the distinct non-empty categories of all tasks, sorted ascending. A null or
      empty category is falsy and is left out. */
  function Categories(tasks: seq<Task>): (r: seq<string>)
    ensures StrictlySorted(r)
    ensures forall c :: c in r <==> exists i :: 0 <= i < |tasks| && tasks[i].category == Some(c) && c != ""
    decreases |tasks|
  {
    if tasks == [] then []
    else
      var init, last := tasks[..|tasks| - 1], tasks[|tasks| - 1];
      var prev := Categories(init);
      var r := if last.category.Some? && last.category.value != "" then InsertCategory(last.category.value, prev) else prev;
      assert forall i :: 0 <= i < |init| ==> init[i] == tasks[i];
      r
  }

  /** A strictly ascending list has no duplicates. */
  lemma StrictlySortedDistinct(s: seq<string>)
    requires StrictlySorted(s)
    ensures forall i, j :: 0 <= i < j < |s| ==> s[i] != s[j]
  {
    forall i, j | 0 <= i < j < |s| ensures s[i] != s[j] {
      if s[i] == s[j] { StrLessIrreflexive(s[i]); }
    }
  }

  // ---------------------------------------------------------------------------------------
  // Worked examples

  function ExampleTask(id: string, title: string, priority: string, due: Timestamp, completed: bool): Task {
    Task(id, title, None, completed, priority, Some(due), None, 0, 0, "u")
  }

  /** A high-priority open task due yesterday and a completed low-priority one due tomorrow:
      only the first is overdue ... */
  lemma OverdueExample(now: Timestamp)
    ensures var a, b := ExampleTask("1", "A", High, now - DayLength, false), ExampleTask("2", "B", Low, now + DayLength, true);
            Narrowed([a, b], Criteria("", "all", "overdue", "all", "none"), now) == [a]
  {
    var a, b := ExampleTask("1", "A", High, now - DayLength, false), ExampleTask("2", "B", Low, now + DayLength, true);
    var f := Criteria("", "all", "overdue", "all", "none");
    assert [a, b][..1] == [a];
    assert [a][..0] == [];
    assert Filter([a], StageFn(f, now, 4)) == [a];
  }

  /** ... and sorting both by 'soonest' keeps yesterday's task first. */
  lemma SoonestExample(now: Timestamp)
    ensures var a, b := ExampleTask("1", "A", High, now - DayLength, false), ExampleTask("2", "B", Low, now + DayLength, true);
            SortByKey(Narrowed([a, b], Criteria("", "all", "all", "all", "soonest"), now), DueKeyFn(true)) == [a, b]
  {
    var a, b := ExampleTask("1", "A", High, now - DayLength, false), ExampleTask("2", "B", Low, now + DayLength, true);
    InitialCriteriaKeepAll([a, b], now);
    FilterExt([a, b], StageFn(Criteria("", "all", "all", "all", "soonest"), now, 4), StageFn(InitialCriteria, now, 4));
    assert [a, b][1..] == [b];
    assert SortByKey([b], DueKeyFn(true)) == [b];
  }

  function CategoryTask(category: Option<string>): Task {
    Task("id", "title", None, false, Medium, None, category, 0, 0, "u")
  }

  /** Categories "Work", "", "Work", "Home" and null give the options ["Home", "Work"]. */
  lemma CategoriesExample()
    ensures Categories([CategoryTask(Some("Work")), CategoryTask(Some("")), CategoryTask(Some("Work")),
                        CategoryTask(Some("Home")), CategoryTask(None)]) == ["Home", "Work"]
  {
    var ts := [CategoryTask(Some("Work")), CategoryTask(Some("")), CategoryTask(Some("Work")),
               CategoryTask(Some("Home")), CategoryTask(None)];
    assert ts[..1] == [CategoryTask(Some("Work"))];
    assert ts[..1][..0] == [];
    assert Categories(ts[..1]) == ["Work"];
    assert ts[..2][..1] == ts[..1];
    assert Categories(ts[..2]) == ["Work"];
    assert ts[..3][..2] == ts[..2];
    assert Categories(ts[..3]) == ["Work"];
    assert ts[..4][..3] == ts[..3];
    assert StrLess("Home", "Work");
    assert Categories(ts[..4]) == ["Home", "Work"];
    assert ts[..4] == ts[..|ts| - 1];
  }
}

/** The month calendar of src/components/CalendarView.tsx: the grid of days, the tasks grouped by
    due day, the per-day indicators and the month's quick statistics. The month on display is
    given by the day numbers of its first and last day. */
module CalendarView {
  import opened Outcomes
  import opened Seqs
  import opened Sorting
  import opened Tasks

  // ---------------------------------------------------------------------------------------
  // The grid

  /** Days `start, start + 1, …` have weekdays `0, 1, …` when `start` is a Sunday. */
  lemma WeekdayOffset(start: Day, i: nat)
    requires Weekday(start) == 0
    ensures Weekday(start + i) == i % 7
  {
    var q := (start + 4) / 7;
    assert start + 4 == 7 * q;
    assert start + i + 4 == 7 * q + i;
  }

  /** `calendarDays`: every day from the Sunday starting the week of the first day of the month
      to the Saturday ending the week of its last day. */
  method CalendarDays(monthStart: Day, monthEnd: Day) returns (days: seq<Day>)
    ensures forall i :: 0 <= i < |days| ==> days[i] == StartOfWeek(monthStart) + i
    ensures forall d :: d in days <==> StartOfWeek(monthStart) <= d <= EndOfWeek(monthEnd)
    ensures |days| % 7 == 0
    ensures forall i :: 0 <= i < |days| ==> Weekday(days[i]) == i % 7
    ensures monthStart <= monthEnd ==> monthStart in days && monthEnd in days
  {
    var startDate := StartOfWeek(monthStart);
    var endDate := EndOfWeek(monthEnd);
    days := [];
    var day := startDate;
    while day <= endDate
      invariant startDate <= day
      invariant day <= endDate + 1 || days == []
      invariant |days| == day - startDate
      invariant forall i :: 0 <= i < |days| ==> days[i] == startDate + i
      decreases endDate - day
    {
      days := days + [day];
      day := day + 1;
    }
    assert forall d :: d in days <==> startDate <= d < day by {
      forall d | startDate <= d < day ensures d in days {
        assert days[d - startDate] == d;
      }
    }
    if startDate <= endDate {
      assert day == endDate + 1;
      assert (endDate + 1 - startDate) == (StartOfWeek(monthEnd) - startDate) + 7;
      assert (StartOfWeek(monthEnd) + 4) % 7 == 0 && (startDate + 4) % 7 == 0;
      DifferenceOfWeekStarts(startDate, StartOfWeek(monthEnd));
    }
    forall i | 0 <= i < |days| ensures Weekday(days[i]) == i % 7 {
      WeekdayOffset(startDate, i);
    }
  }

  lemma DifferenceOfWeekStarts(a: Day, b: Day)
    requires Weekday(a) == 0 && Weekday(b) == 0 && a <= b + 6
    ensures (b + 7 - a) % 7 == 0
  {
    var qa := (a + 4) / 7;
    var qb := (b + 4) / 7;
    assert a + 4 == 7 * qa && b + 4 == 7 * qb;
    assert b + 7 - a == 7 * (qb - qa + 1);
  }

  // ---------------------------------------------------------------------------------------
  // Grouping by due day

  function DueOnFn(day: Day): Task -> bool {
    t => DueOn(t, day)
  }

  /** The tasks due on `day`, in list order. */
  function Bucket(tasks: seq<Task>, day: Day): seq<Task> {
    Filter(tasks, DueOnFn(day))
  }

  /** `grouped` keys exactly the days some task is due on, each to that day's tasks. */
  ghost predicate GroupedByDueDay(grouped: map<Day, seq<Task>>, tasks: seq<Task>) {
    (forall d :: d in grouped <==> Bucket(tasks, d) != [])
    && (forall d :: d in grouped ==> grouped[d] == Bucket(tasks, d))
  }

  /** `tasksByDate`: each dated task pushed onto the list under its due day. */
  method TasksByDate(tasks: seq<Task>) returns (grouped: map<Day, seq<Task>>)
    ensures GroupedByDueDay(grouped, tasks)
  {
    grouped := map[];
    for i := 0 to |tasks|
      invariant GroupedByDueDay(grouped, tasks[..i])
    {
      var task := tasks[i];
      assert tasks[..i + 1] == tasks[..i] + [task];
      forall d ensures Bucket(tasks[..i + 1], d) == Bucket(tasks[..i], d) + (if DueOn(task, d) then [task] else []) {
        assert (tasks[..i] + [task])[..i] == tasks[..i];
      }
      if task.dueDate.Some? {
        var dateKey := DayOf(task.dueDate.value);
        if dateKey !in grouped {
          grouped := grouped[dateKey := []];
        }
        grouped := grouped[dateKey := grouped[dateKey] + [task]];
      }
    }
    assert tasks[..|tasks|] == tasks;
  }

  /** `getDayTasks` and `todayTasks`: the list under the day, or an empty list. */
  function DayTasks(grouped: map<Day, seq<Task>>, day: Day): seq<Task> {
    if day in grouped then grouped[day] else []
  }

  /** Looking a day up in the grouping gives that day's tasks, whether or not it has a key. */
  lemma DayTasksIsBucket(grouped: map<Day, seq<Task>>, tasks: seq<Task>, day: Day)
    requires GroupedByDueDay(grouped, tasks)
    ensures DayTasks(grouped, day) == Bucket(tasks, day)
    ensures IsSubsequence(DayTasks(grouped, day), tasks)
  {
    FilterIsSubsequence(tasks, DueOnFn(day));
  }

  /** A dated task is in the bucket of its due day and in no other; an undated one is in none. */
  lemma BucketOfTask(tasks: seq<Task>, t: Task, day: Day)
    requires t in tasks
    ensures t in Bucket(tasks, day) <==> t.dueDate.Some? && DayOf(t.dueDate.value) == day
  {
    FilterMembership(tasks, DueOnFn(day), t);
  }

  // ---------------------------------------------------------------------------------------
  // Indicators

  /** `priorityOrder`; any other priority is ranked after low. */
  function PriorityRank(priority: string): (r: nat)
    ensures priority == High <==> r == 0
    ensures priority == Medium <==> r == 1
    ensures priority == Low <==> r == 2
    ensures r <= 3
  {
    if priority == High then 0
    else if priority == Medium then 1
    else if priority == Low then 2
    else 3
  }

  /** The comparator of `getTaskIndicators` as a key: incomplete first, then by priority. */
  function IndicatorKey(t: Task): Key {
    Key(if t.completed then 1 else 0, PriorityRank(t.priority))
  }

  /** The comparator of `getTaskIndicators`: a completed task after an incomplete one, otherwise
      the difference of the `priorityOrder` entries. A priority outside the table has no entry,
      so the difference is not a number; that case is `None`. */
  function IndicatorCompare(a: Task, b: Task): Option<int> {
    if a.completed && !b.completed then Some(1)
    else if !a.completed && b.completed then Some(-1)
    else if PriorityRank(a.priority) == 3 || PriorityRank(b.priority) == 3 then None
    else Some(PriorityRank(a.priority) - PriorityRank(b.priority))
  }

  /** Wherever the comparator gives a number, the key order agrees with it: a smaller key
      exactly when the number is negative, and equal keys exactly when it is zero. */
  lemma IndicatorKeyMatchesComparator(a: Task, b: Task)
    ensures IndicatorCompare(a, b).Some? ==>
              (KeyLess(IndicatorKey(a), IndicatorKey(b)) <==> IndicatorCompare(a, b).value < 0)
    ensures IndicatorCompare(a, b).Some? ==>
              (IndicatorKey(a) == IndicatorKey(b) <==> IndicatorCompare(a, b).value == 0)
  {
  }

  ghost predicate IncompleteFirst(s: seq<Task>) {
    forall i, j :: 0 <= i < j < |s| && s[i].completed ==> s[j].completed
  }

  ghost predicate PriorityOrdered(s: seq<Task>) {
    forall i, j :: 0 <= i < j < |s| && s[i].completed == s[j].completed ==>
      PriorityRank(s[i].priority) <= PriorityRank(s[j].priority)
  }

  /** The sorted bucket has every incomplete task before every completed one, and high before
      medium before low among tasks of equal completion. */
  lemma IndicatorSortOrders(s: seq<Task>)
    ensures IncompleteFirst(SortByKey(s, IndicatorKey))
    ensures PriorityOrdered(SortByKey(s, IndicatorKey))
    ensures multiset(SortByKey(s, IndicatorKey)) == multiset(s)
  {
    SortSorts(s, IndicatorKey);
    SortPermutes(s, IndicatorKey);
  }

  const MaxIndicators := 3

  /** One rendered indicator: a dot for a task, `top` pixels down, or the "+N more" badge. */
  datatype Indicator = Dot(taskId: string, completed: bool, priority: string, top: int) | More(count: nat)

  function Min(a: int, b: int): int {
    if a < b then a else b
  }

  /** `getTaskIndicators`: sorts the day's list in place, then renders its indicators. */
  method TaskIndicators(dayTasks: array<Task>) returns (indicators: seq<Indicator>)
    modifies dayTasks
    ensures dayTasks[..] == SortByKey(old(dayTasks[..]), IndicatorKey)
    ensures IncompleteFirst(dayTasks[..]) && PriorityOrdered(dayTasks[..])
    ensures multiset(dayTasks[..]) == multiset(old(dayTasks[..]))
    ensures IndicatorsFor(dayTasks[..], indicators)
  {
    IndicatorSortOrders(dayTasks[..]);
    SortInPlace(dayTasks, IndicatorKey);
    indicators := Indicators(dayTasks[..]);
  }

  /** The indicators of a sorted day: a dot for each of the first three tasks, then a
      "+N more" badge exactly when there are more than three. */
  ghost predicate IndicatorsFor(sortedTasks: seq<Task>, indicators: seq<Indicator>) {
    var shown := Min(MaxIndicators, |sortedTasks|);
    |indicators| == shown + (if |sortedTasks| > MaxIndicators then 1 else 0)
    && (forall i :: 0 <= i < shown ==>
          indicators[i] == Dot(sortedTasks[i].id, sortedTasks[i].completed, sortedTasks[i].priority, 8 + i * 6))
    && (|sortedTasks| > MaxIndicators ==> indicators[shown] == More(|sortedTasks| - MaxIndicators))
  }

  /** The `for` loop over the first `min(3, length)` tasks and the badge after it. */
  method Indicators(sortedTasks: seq<Task>) returns (indicators: seq<Indicator>)
    ensures IndicatorsFor(sortedTasks, indicators)
    ensures |indicators| <= MaxIndicators + 1
    ensures |sortedTasks| > MaxIndicators <==> exists i :: 0 <= i < |indicators| && indicators[i].More?
  {
    indicators := [];
    var shown := Min(MaxIndicators, |sortedTasks|);
    for i := 0 to shown
      invariant |indicators| == i
      invariant forall k :: 0 <= k < i ==>
                  indicators[k] == Dot(sortedTasks[k].id, sortedTasks[k].completed, sortedTasks[k].priority, 8 + k * 6)
    {
      var task := sortedTasks[i];
      indicators := indicators + [Dot(task.id, task.completed, task.priority, 8 + i * 6)];
    }
    if |sortedTasks| > MaxIndicators {
      indicators := indicators + [More(|sortedTasks| - MaxIndicators)];
    }
  }

  /** One cell of the grid: the day's list is sorted in place for its indicators, and the titles
      listed below them are taken from that same, now sorted, list. */
  method DayCell(dayTasks: array<Task>, isCurrentMonth: bool)
    returns (indicators: seq<Indicator>, preview: Option<seq<Task>>)
    modifies dayTasks
    ensures dayTasks[..] == SortByKey(old(dayTasks[..]), IndicatorKey)
    ensures IndicatorsFor(dayTasks[..], indicators)
    ensures preview == DayPreview(dayTasks[..], isCurrentMonth)
    ensures preview.Some? ==> IncompleteFirst(preview.value) && PriorityOrdered(preview.value)
  {
    indicators := TaskIndicators(dayTasks);
    preview := DayPreview(dayTasks[..], isCurrentMonth);
    if preview.Some? {
      var shown, sorted := preview.value, dayTasks[..];
      forall i, j | 0 <= i < j < |shown| ensures shown[i] == sorted[i] && shown[j] == sorted[j] {
      }
    }
  }

  /** The titles listed in a day cell: the first two tasks of the (already sorted) day, only for
      days of the month on display that have tasks. */
  function DayPreview(dayTasks: seq<Task>, isCurrentMonth: bool): (r: Option<seq<Task>>)
    ensures r.Some? <==> isCurrentMonth && |dayTasks| > 0
    ensures r.Some? ==> 1 <= |r.value| <= 2 && |r.value| <= |dayTasks| && r.value == dayTasks[..|r.value|]
    ensures r.Some? && |dayTasks| >= 2 ==> |r.value| == 2
  {
    if isCurrentMonth && |dayTasks| > 0 then Some(dayTasks[..Min(2, |dayTasks|)]) else None
  }

  // ---------------------------------------------------------------------------------------
  // Quick statistics of the month

  predicate DueInMonth(t: Task, monthStart: Day, monthEnd: Day) {
    t.dueDate.Some? && monthStart <= DayOf(t.dueDate.value) <= monthEnd
  }

  function InMonthFn(monthStart: Day, monthEnd: Day): Task -> bool {
    t => DueInMonth(t, monthStart, monthEnd)
  }

  /** The filter of the "Completed" figure: completed and due in the month. */
  function CompletedInMonthFn(monthStart: Day, monthEnd: Day): Task -> bool {
    (t: Task) => t.completed && DueInMonth(t, monthStart, monthEnd)
  }

  /** The filter of the "High Priority" figure: high priority, open and due in the month. */
  function HighInMonthFn(monthStart: Day, monthEnd: Day): Task -> bool {
    (t: Task) => t.priority == High && !t.completed && DueInMonth(t, monthStart, monthEnd)
  }

  datatype MonthStats = MonthStats(tasks: nat, completed: nat, highPriority: nat)

  /** "This Month", "Completed" and "High Priority": dated tasks due in the month, those of them
      completed, and those open with high priority. */
  function MonthQuickStats(tasks: seq<Task>, monthStart: Day, monthEnd: Day): (r: MonthStats)
    ensures r.completed <= r.tasks && r.highPriority <= r.tasks
    ensures r.completed + r.highPriority <= r.tasks
    ensures r.tasks <= |Filter(tasks, IsDated)|
  {
    var inMonth := Filter(tasks, InMonthFn(monthStart, monthEnd));
    var completed := Filter(inMonth, IsCompleted);
    var high := Filter(inMonth, IsOpenHighPriority);
    FilterComplement(inMonth, IsCompleted, IsPending);
    FilterMono(inMonth, IsOpenHighPriority, IsPending);
    FilterMono(tasks, InMonthFn(monthStart, monthEnd), IsDated);
    MonthStats(|inMonth|, |completed|, |high|)
  }

  /** The grouping's lists joined in the order of `keys`: `Object.values(…).flat()` when `keys`
      are the grouping's keys in the order the object enumerates them. */
  function Flat(grouped: map<Day, seq<Task>>, keys: seq<Day>): seq<Task>
    requires forall i :: 0 <= i < |keys| ==> keys[i] in grouped
    decreases |keys|
  {
    if keys == [] then [] else grouped[keys[0]] + Flat(grouped, keys[1..])
  }

  /** Joining the lists of distinct keys holds each dated task of the list as often as the list
      does, provided its due day is one of the keys. */
  lemma {:induction false} FlatMultiplicity(grouped: map<Day, seq<Task>>, tasks: seq<Task>, keys: seq<Day>, x: Task)
    requires GroupedByDueDay(grouped, tasks)
    requires forall i :: 0 <= i < |keys| ==> keys[i] in grouped
    requires forall i, j :: 0 <= i < j < |keys| ==> keys[i] != keys[j]
    ensures multiset(Flat(grouped, keys))[x]
            == if x.dueDate.Some? && DayOf(x.dueDate.value) in keys then multiset(tasks)[x] else 0
    decreases |keys|
  {
    if keys != [] {
      var rest := keys[1..];
      forall i, j | 0 <= i < j < |rest| ensures rest[i] != rest[j] {
        assert rest[i] == keys[i + 1] && rest[j] == keys[j + 1];
      }
      forall j | 0 <= j < |rest| ensures rest[j] != keys[0] {
        assert rest[j] == keys[j + 1];
      }
      FlatMultiplicity(grouped, tasks, rest, x);
      FilterMultiplicity(tasks, DueOnFn(keys[0]), x);
      assert forall k :: k in keys <==> k == keys[0] || k in rest;
    }
  }

  /** A dated task is as often in the joined lists as in the list of dated tasks, once every key
      of the grouping is listed. */
  lemma FlatCountOf(tasks: seq<Task>, grouped: map<Day, seq<Task>>, keys: seq<Day>, x: Task)
    requires GroupedByDueDay(grouped, tasks)
    requires forall i :: 0 <= i < |keys| ==> keys[i] in grouped
    requires forall d :: d in grouped ==> d in keys
    requires forall i, j :: 0 <= i < j < |keys| ==> keys[i] != keys[j]
    ensures multiset(Flat(grouped, keys))[x] == multiset(Filter(tasks, IsDated))[x]
  {
    FlatMultiplicity(grouped, tasks, keys, x);
    FilterMultiplicity(tasks, IsDated, x);
    if x.dueDate.Some? && x in tasks {
      FilterMembership(tasks, DueOnFn(DayOf(x.dueDate.value)), x);
    }
  }

  /** Joining the lists of every key of the grouping, in any order, gives the dated tasks of the
      list, in some order. */
  lemma FlatIsDated(tasks: seq<Task>, grouped: map<Day, seq<Task>>, keys: seq<Day>)
    requires GroupedByDueDay(grouped, tasks)
    requires forall i :: 0 <= i < |keys| ==> keys[i] in grouped
    requires forall d :: d in grouped ==> d in keys
    requires forall i, j :: 0 <= i < j < |keys| ==> keys[i] != keys[j]
    ensures multiset(Flat(grouped, keys)) == multiset(Filter(tasks, IsDated))
  {
    forall x ensures multiset(Flat(grouped, keys))[x] == multiset(Filter(tasks, IsDated))[x] {
      FlatCountOf(tasks, grouped, keys, x);
    }
    MultisetExt(multiset(Flat(grouped, keys)), multiset(Filter(tasks, IsDated)));
  }

  /** The three figures counted over the joined lists of the grouping, as the component does,
      equal the counts of `MonthQuickStats` over the task list, whatever order the keys come in. */
  lemma MonthQuickStatsOverGrouping(tasks: seq<Task>, grouped: map<Day, seq<Task>>, keys: seq<Day>,
                                    monthStart: Day, monthEnd: Day)
    requires GroupedByDueDay(grouped, tasks)
    requires forall i :: 0 <= i < |keys| ==> keys[i] in grouped
    requires forall d :: d in grouped ==> d in keys
    requires forall i, j :: 0 <= i < j < |keys| ==> keys[i] != keys[j]
    ensures |Filter(Flat(grouped, keys), InMonthFn(monthStart, monthEnd))|
            == MonthQuickStats(tasks, monthStart, monthEnd).tasks
    ensures |Filter(Flat(grouped, keys), CompletedInMonthFn(monthStart, monthEnd))|
            == MonthQuickStats(tasks, monthStart, monthEnd).completed
    ensures |Filter(Flat(grouped, keys), HighInMonthFn(monthStart, monthEnd))|
            == MonthQuickStats(tasks, monthStart, monthEnd).highPriority
  {
    var flat, dated := Flat(grouped, keys), Filter(tasks, IsDated);
    FlatIsDated(tasks, grouped, keys);
    var inMonth := InMonthFn(monthStart, monthEnd);
    var completed := CompletedInMonthFn(monthStart, monthEnd);
    var high := HighInMonthFn(monthStart, monthEnd);
    FilterSameMultiset(flat, dated, inMonth);
    FilterSameMultiset(flat, dated, completed);
    FilterSameMultiset(flat, dated, high);
    FilterFilter(tasks, IsDated, inMonth, inMonth);
    FilterFilter(tasks, IsDated, completed, completed);
    FilterFilter(tasks, IsDated, high, high);
    FilterFilter(tasks, inMonth, IsCompleted, completed);
    FilterFilter(tasks, inMonth, IsOpenHighPriority, high);
  }
}

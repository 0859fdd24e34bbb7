/** The statistics of the dashboard (src/components/Dashboard.tsx), recomputed from the whole,
    unfiltered task list. */
module Dashboard {
  import opened Outcomes
  import opened Seqs
  import opened Tasks

  function Count(tasks: seq<Task>, p: Task -> bool): nat {
    |Filter(tasks, p)|
  }

  /** Due within the current week: the interval runs
      from the first millisecond of Sunday to the last of Saturday, so it holds exactly the
      timestamps whose day lies in that week. */
  predicate DueInWeekOf(t: Task, day: Day) {
    t.dueDate.Some? && StartOfWeek(day) <= DayOf(t.dueDate.value) <= EndOfWeek(day)
  }

  /** `completionRate`: the percentage of completed tasks, 0 for an empty list. */
  function CompletionRate(completed: nat, total: nat): (r: real)
    requires completed <= total
    ensures total == 0 ==> r == 0.0
    ensures total > 0 ==> r * total as real == completed as real * 100.0
    ensures 0.0 <= r <= 100.0
  {
    if total > 0 then (completed as real / total as real) * 100.0 else 0.0
  }

  datatype Stats = Stats(
    totalTasks: nat,
    completedTasks: nat,
    pendingTasks: nat,
    completionRate: real,
    todayTasks: nat,
    todayCompleted: nat,
    weekTasks: nat,
    weekCompleted: nat,
    overdueTasks: nat,
    highPriorityTasks: nat,
    streak: nat)

  // ---------------------------------------------------------------------------------------
  // Completions per day

  predicate UpdatedOn(t: Task, day: Day) {
    DayOf(t.updatedAt) == day
  }

  predicate CompletedOn(t: Task, day: Day) {
    t.completed && UpdatedOn(t, day)
  }

  /** The number of completed tasks last updated on `day`: completion is dated by
      `updated_at`, not by the due date. */
  function CompletionsOn(tasks: seq<Task>, day: Day): nat {
    Count(tasks, t => CompletedOn(t, day))
  }

  ghost function CompletionDays(tasks: seq<Task>): set<Day> {
    set t | t in tasks && t.completed :: DayOf(t.updatedAt)
  }

  /** The dictionary `completedTasksByDate` should hold: a count for every day with a
      completion, and no other key. */
  ghost function ByDate(tasks: seq<Task>): map<Day, nat> {
    map d | d in CompletionDays(tasks) :: CompletionsOn(tasks, d)
  }

  /** A set is empty or has an element. */
  lemma HasElement(s: set<Day>)
    ensures s == {} || exists x :: x in s
  {
    if forall x :: x !in s {
      assert s == {};
    }
  }

  /** The sum of the values of a map. */
  ghost function MapSum(m: map<Day, nat>): nat
    decreases |m|
  {
    HasElement(m.Keys);
    if m.Keys == {} then 0
    else
      var k :| k in m.Keys;
      m[k] + MapSum(m - {k})
  }

  lemma {:induction false} MapSumRemove(m: map<Day, nat>, k: Day)
    requires k in m
    ensures MapSum(m) == m[k] + MapSum(m - {k})
    decreases |m|
  {
    HasElement(m.Keys);
    var k' :| k' in m && MapSum(m) == m[k'] + MapSum(m - {k'});
    if k' != k {
      var both := m - {k} - {k'};
      MapSumRemove(m - {k'}, k);
      MapSumRemove(m - {k}, k');
      assert m - {k'} - {k} == both;
    }
  }

  /** One more completion on day `d`: its count starts at 0 when the day has no key yet. */
  function Bump(m: map<Day, nat>, d: Day): map<Day, nat> {
    m[d := (if d in m then m[d] else 0) + 1]
  }

  /** One increment adds one to the sum of the map. */
  lemma MapSumBump(m: map<Day, nat>, d: Day)
    ensures MapSum(Bump(m, d)) == MapSum(m) + 1
  {
    var m' := Bump(m, d);
    MapSumRemove(m', d);
    if d in m {
      MapSumRemove(m, d);
      assert m' - {d} == m - {d};
    } else {
      assert m' - {d} == m;
    }
  }

  function UpdatedOnFn(day: Day): Task -> bool {
    t => UpdatedOn(t, day)
  }

  /** `completedTasksByDate`: the completed tasks reduced into a dictionary keyed by the day of
      their `updated_at`. */
  method CompletedTasksByDate(tasks: seq<Task>) returns (acc: map<Day, nat>)
    ensures acc == ByDate(tasks)
    ensures forall d :: d in acc ==> acc[d] > 0
    ensures MapSum(acc) == Count(tasks, IsCompleted)
  {
    var done := Filter(tasks, IsCompleted);
    acc := CountByDay(done);
    ByDateOfCompleted(tasks, acc);
  }

  /** The dictionary the reduce has built after the tasks of `s`, one increment per task. */
  ghost function Tally(s: seq<Task>): map<Day, nat>
    decreases |s|
  {
    if s == [] then map[] else Bump(Tally(s[..|s| - 1]), DayOf(s[|s| - 1].updatedAt))
  }

  /** The reduce itself: one increment per task, under the day of its `updated_at`. */
  method CountByDay(done: seq<Task>) returns (acc: map<Day, nat>)
    ensures forall d :: d in acc <==> Count(done, UpdatedOnFn(d)) > 0
    ensures forall d :: d in acc ==> acc[d] == Count(done, UpdatedOnFn(d))
    ensures MapSum(acc) == |done|
  {
    acc := map[];
    for i := 0 to |done|
      invariant acc == Tally(done[..i])
    {
      assert done[..i + 1][..i] == done[..i];
      acc := Bump(acc, DayOf(done[i].updatedAt));
    }
    assert done[..|done|] == done;
    TallyCounts(done);
  }

  /** After the reduce, a day has a key exactly when some task was updated on it, that key holds
      the number of such tasks, and the values add up to the number of tasks. */
  lemma {:induction false} TallyCounts(s: seq<Task>)
    ensures forall d :: d in Tally(s) <==> Count(s, UpdatedOnFn(d)) > 0
    ensures forall d :: d in Tally(s) ==> Tally(s)[d] == Count(s, UpdatedOnFn(d))
    ensures MapSum(Tally(s)) == |s|
    decreases |s|
  {
    if s != [] {
      var init, x := s[..|s| - 1], s[|s| - 1];
      TallyCounts(init);
      assert s == init + [x];
      CountByDaySnoc(init, x);
      MapSumBump(Tally(init), DayOf(x.updatedAt));
    }
  }

  /** One more task adds one to the count of its own day and leaves every other day alone. */
  lemma CountByDaySnoc(s: seq<Task>, x: Task)
    ensures forall d :: Count(s + [x], UpdatedOnFn(d)) == Count(s, UpdatedOnFn(d)) + (if DayOf(x.updatedAt) == d then 1 else 0)
  {
    forall d
      ensures Count(s + [x], UpdatedOnFn(d)) == Count(s, UpdatedOnFn(d)) + (if DayOf(x.updatedAt) == d then 1 else 0)
    {
      CountSnoc(s, x, UpdatedOnFn(d));
    }
  }

  lemma CountSnoc(s: seq<Task>, x: Task, p: Task -> bool)
    ensures Count(s + [x], p) == Count(s, p) + (if p(x) then 1 else 0)
  {
    assert (s + [x])[..|s|] == s;
  }

  /** Counting per day over the completed tasks gives the completions of each day, and a key
      exactly for the days with a completion. */
  lemma ByDateOfCompleted(tasks: seq<Task>, acc: map<Day, nat>)
    requires forall d :: d in acc <==> Count(Filter(tasks, IsCompleted), UpdatedOnFn(d)) > 0
    requires forall d :: d in acc ==> acc[d] == Count(Filter(tasks, IsCompleted), UpdatedOnFn(d))
    ensures acc == ByDate(tasks)
  {
    var done := Filter(tasks, IsCompleted);
    forall d ensures Count(done, UpdatedOnFn(d)) == CompletionsOn(tasks, d) {
      FilterFilter(tasks, IsCompleted, UpdatedOnFn(d), t => CompletedOn(t, d));
    }
    forall d ensures d in acc <==> d in CompletionDays(tasks) {
      FilterAll(tasks, t => CompletedOn(t, d));
      if d in CompletionDays(tasks) {
        var t :| t in tasks && t.completed && DayOf(t.updatedAt) == d;
        assert t in Filter(tasks, t => CompletedOn(t, d));
      }
      if d in acc {
        var t := Filter(tasks, t => CompletedOn(t, d))[0];
        assert t in Filter(tasks, t => CompletedOn(t, d));
        assert d in CompletionDays(tasks);
      }
    }
  }

  // ---------------------------------------------------------------------------------------
  // The streak

  /** `completedTasksByDate[day]` is truthy. */
  predicate HasCompletions(m: map<Day, nat>, day: Day) {
    day in m && m[day] > 0
  }

  ghost function CompletionDaysUpTo(m: map<Day, nat>, day: Day): set<Day> {
    set k | k in m && m[k] > 0 && k <= day
  }

  lemma CompletionDaysStep(m: map<Day, nat>, day: Day)
    ensures HasCompletions(m, day) ==> |CompletionDaysUpTo(m, day - 1)| == |CompletionDaysUpTo(m, day)| - 1
    ensures !HasCompletions(m, day) ==> CompletionDaysUpTo(m, day - 1) == CompletionDaysUpTo(m, day)
  {
    if HasCompletions(m, day) {
      assert CompletionDaysUpTo(m, day - 1) == CompletionDaysUpTo(m, day) - {day};
    }
  }

  /** The streak walk from `day` back: a day with completions adds one and moves on; a day
      without them moves on only if it is today or yesterday, and otherwise ends the walk. */
  function Walk(m: map<Day, nat>, today: Day, day: Day): (r: nat)
    requires day <= today
    ensures r <= |CompletionDaysUpTo(m, day)|
    decreases |CompletionDaysUpTo(m, day)|, day - today + 2
  {
    CompletionDaysStep(m, day);
    if HasCompletions(m, day) then 1 + Walk(m, today, day - 1)
    else if day == today || day == today - 1 then Walk(m, today, day - 1)
    else 0
  }

  /** The `while (true)` loop of the dashboard, from today backwards. */
  method Streak(m: map<Day, nat>, today: Day) returns (streak: nat)
    ensures streak == Walk(m, today, today)
    ensures streak <= |CompletionDaysUpTo(m, today)|
  {
    streak := 0;
    var checkDate := today;
    while true
      invariant checkDate <= today
      invariant streak + Walk(m, today, checkDate) == Walk(m, today, today)
      decreases |CompletionDaysUpTo(m, checkDate)|, checkDate - today + 2
    {
      CompletionDaysStep(m, checkDate);
      if HasCompletions(m, checkDate) {
        streak := streak + 1;
        checkDate := checkDate - 1;
      } else if checkDate == today || checkDate == today - 1 {
        checkDate := checkDate - 1;
      } else {
        break;
      }
    }
  }

  /** Before yesterday, the walk counts the unbroken run of days with completions that ends at
      `day`, and stops at the first day without. */
  lemma {:induction false} WalkBeforeYesterday(m: map<Day, nat>, today: Day, day: Day)
    requires day <= today - 2
    ensures exists stop :: stop <= day && !HasCompletions(m, stop)
                           && (forall d :: stop < d <= day ==> HasCompletions(m, d))
                           && Walk(m, today, day) == day - stop
    decreases |CompletionDaysUpTo(m, day)|
  {
    CompletionDaysStep(m, day);
    if HasCompletions(m, day) {
      WalkBeforeYesterday(m, today, day - 1);
      var stop :| stop <= day - 1 && !HasCompletions(m, stop)
                  && (forall d :: stop < d <= day - 1 ==> HasCompletions(m, d))
                  && Walk(m, today, day - 1) == day - 1 - stop;
      assert forall d :: stop < d <= day ==> HasCompletions(m, d);
    } else {
      assert Walk(m, today, day) == 0;
    }
  }

  /** The whole walk: today and yesterday count if they have completions and are skipped if
      not; then every earlier day counts up to the first one without completions. */
  lemma StreakShape(m: map<Day, nat>, today: Day)
    ensures exists stop :: stop <= today - 2 && !HasCompletions(m, stop)
                           && (forall d :: stop < d <= today - 2 ==> HasCompletions(m, d))
                           && Walk(m, today, today) == (today - 2 - stop)
                                + (if HasCompletions(m, today - 1) then 1 else 0)
                                + (if HasCompletions(m, today) then 1 else 0)
  {
    WalkBeforeYesterday(m, today, today - 2);
    assert Walk(m, today, today - 1) == (if HasCompletions(m, today - 1) then 1 else 0) + Walk(m, today, today - 2);
  }

  /** Completions today and yesterday only: a streak of 2. */
  lemma StreakTodayAndYesterday(today: Day)
    ensures Walk(map[today := 1, today - 1 := 1], today, today) == 2
  {
    var m := map[today := 1, today - 1 := 1];
    assert !HasCompletions(m, today - 2);
    assert Walk(m, today, today - 2) == 0;
  }

  /** A completion today and two days ago but none yesterday: yesterday is skipped, so both
      completions count. */
  lemma StreakSkipsYesterday(today: Day)
    ensures Walk(map[today := 1, today - 2 := 1], today, today) == 2
  {
    var m := map[today := 1, today - 2 := 1];
    assert !HasCompletions(m, today - 1) && !HasCompletions(m, today - 3);
    assert Walk(m, today, today - 3) == 0;
    assert Walk(m, today, today - 2) == 1;
  }

  /** Nothing today or yesterday is not a break: the streak is the run ending two days ago. */
  lemma StreakGraceDays(m: map<Day, nat>, today: Day)
    requires !HasCompletions(m, today) && !HasCompletions(m, today - 1)
    ensures Walk(m, today, today) == Walk(m, today, today - 2)
  {
  }

  // ---------------------------------------------------------------------------------------
  // All statistics

  /** The `stats` memo. `now` is the current instant; today is its calendar day. */
  method ComputeStats(tasks: seq<Task>, now: Timestamp) returns (s: Stats)
    ensures s.totalTasks == |tasks|
    ensures s.completedTasks == Count(tasks, IsCompleted)
    ensures s.pendingTasks == Count(tasks, IsPending)
    ensures s.pendingTasks + s.completedTasks == s.totalTasks
    ensures s.completionRate == CompletionRate(s.completedTasks, s.totalTasks)
    ensures s.todayTasks == Count(tasks, t => DueOn(t, DayOf(now)))
    ensures s.todayCompleted == Count(Filter(tasks, t => DueOn(t, DayOf(now))), IsCompleted)
    ensures s.todayCompleted <= s.todayTasks <= Count(tasks, IsDated)
    ensures s.weekTasks == Count(tasks, t => DueInWeekOf(t, DayOf(now)))
    ensures s.weekCompleted == Count(Filter(tasks, t => DueInWeekOf(t, DayOf(now))), IsCompleted)
    ensures s.weekCompleted <= s.weekTasks <= Count(tasks, IsDated)
    ensures s.todayTasks <= s.weekTasks
    ensures s.overdueTasks == Count(tasks, t => IsOverdue(t, now))
    ensures s.overdueTasks <= s.pendingTasks
    ensures s.highPriorityTasks == Count(tasks, IsOpenHighPriority)
    ensures s.highPriorityTasks <= s.pendingTasks
    ensures s.streak == Walk(ByDate(tasks), DayOf(now), DayOf(now))
    ensures s.streak <= |CompletionDays(tasks)|
  {
    var today := DayOf(now);
    var total := |tasks|;
    var completed := |Filter(tasks, IsCompleted)|;
    FilterComplement(tasks, IsCompleted, IsPending);
    var pending := total - completed;
    var rate := CompletionRate(completed, total);

    var todayTasks := Filter(tasks, t => DueOn(t, today));
    var todayCompleted := |Filter(todayTasks, IsCompleted)|;
    FilterLength(todayTasks, IsCompleted);
    FilterMono(tasks, t => DueOn(t, today), IsDated);

    var weekTasks := Filter(tasks, t => DueInWeekOf(t, today));
    var weekCompleted := |Filter(weekTasks, IsCompleted)|;
    FilterLength(weekTasks, IsCompleted);
    FilterMono(tasks, t => DueInWeekOf(t, today), IsDated);
    FilterMono(tasks, t => DueOn(t, today), t => DueInWeekOf(t, today));

    var overdue := |Filter(tasks, t => IsOverdue(t, now))|;
    FilterMono(tasks, t => IsOverdue(t, now), IsPending);
    var high := |Filter(tasks, IsOpenHighPriority)|;
    FilterMono(tasks, IsOpenHighPriority, IsPending);

    var byDate := CompletedTasksByDate(tasks);
    var streak := Streak(byDate, today);
    assert CompletionDaysUpTo(byDate, today) <= CompletionDays(tasks);
    SubsetCardinality(CompletionDaysUpTo(byDate, today), CompletionDays(tasks));

    s := Stats(total, completed, pending, rate, |todayTasks|, todayCompleted,
               |weekTasks|, weekCompleted, overdue, high, streak);
  }

  lemma {:induction false} SubsetCardinality(a: set<Day>, b: set<Day>)
    requires a <= b
    ensures |a| <= |b|
    decreases |b|
  {
    HasElement(b);
    if b != {} {
      var x :| x in b;
      SubsetCardinality(a - {x}, b - {x});
    }
  }

  /** An undated task changes neither today's nor this week's counts. */
  lemma UndatedNotCounted(tasks: seq<Task>, t: Task, today: Day)
    requires t.dueDate.None?
    ensures Count(tasks + [t], u => DueOn(u, today)) == Count(tasks, u => DueOn(u, today))
    ensures Count(tasks + [t], u => DueInWeekOf(u, today)) == Count(tasks, u => DueInWeekOf(u, today))
  {
    assert (tasks + [t])[..|tasks|] == tasks;
  }
}

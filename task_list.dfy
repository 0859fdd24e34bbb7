/** The task list of src/components/TaskList.tsx: the pending/completed split, the open
    high-priority subset, and what the list shows. */
module TaskList {
  import opened Outcomes
  import opened Seqs
  import opened Tasks

  function CompletedTasks(tasks: seq<Task>): (r: seq<Task>)
    ensures forall t :: t in r <==> t in tasks && t.completed
  {
    FilterAll(tasks, IsCompleted);
    Filter(tasks, IsCompleted)
  }

  function PendingTasks(tasks: seq<Task>): (r: seq<Task>)
    ensures forall t :: t in r <==> t in tasks && !t.completed
  {
    FilterAll(tasks, IsPending);
    Filter(tasks, IsPending)
  }

  /** The pending tasks whose priority is high, in list order. */
  function HighPriorityTasks(tasks: seq<Task>): (r: seq<Task>)
    ensures forall t :: t in r <==> t in tasks && !t.completed && t.priority == High
  {
    FilterAll(PendingTasks(tasks), IsHighPriority);
    Filter(PendingTasks(tasks), IsHighPriority)
  }

  /** The contents of the pending or completed tab: a placeholder line when empty. */
  datatype TabContent = Placeholder | Items(items: seq<Task>)

  /** What the component renders: the empty state, or the badges and the three tabs. */
  datatype ListView =
    | EmptyState
    | Tabs(pendingCount: nat, completedCount: nat, highPriorityBadge: Option<nat>,
           allCount: nat, pendingTabCount: nat, completedTabCount: nat,
           all: seq<Task>, pending: TabContent, completed: TabContent)

  function Tab(items: seq<Task>): TabContent {
    if items == [] then Placeholder else Items(items)
  }

  function View(tasks: seq<Task>): (r: ListView)
    ensures r.EmptyState? <==> tasks == []
    ensures r.Tabs? ==> r.allCount == |tasks| && r.all == tasks
    ensures r.Tabs? ==> r.pendingCount == r.pendingTabCount == |PendingTasks(tasks)|
    ensures r.Tabs? ==> r.completedCount == r.completedTabCount == |CompletedTasks(tasks)|
    ensures r.Tabs? ==> r.pendingCount + r.completedCount == r.allCount
    ensures r.Tabs? ==> (r.highPriorityBadge.Some? <==> HighPriorityTasks(tasks) != [])
    ensures r.Tabs? ==>
              r.highPriorityBadge == (if HighPriorityTasks(tasks) == [] then None else Some(|HighPriorityTasks(tasks)|))
    ensures r.Tabs? && r.highPriorityBadge.Some? ==> 0 < r.highPriorityBadge.value <= r.pendingCount
    ensures r.Tabs? ==> r.pending == Tab(PendingTasks(tasks)) && r.completed == Tab(CompletedTasks(tasks))
    ensures r.Tabs? ==> (r.pending.Placeholder? <==> forall t :: t in tasks ==> t.completed)
    ensures r.Tabs? ==> (r.completed.Placeholder? <==> forall t :: t in tasks ==> !t.completed)
  {
    if |tasks| == 0 then EmptyState
    else
      var completed := CompletedTasks(tasks);
      var pending := PendingTasks(tasks);
      var high := HighPriorityTasks(tasks);
      Partition(tasks);
      HighPriorityIsPendingAndHigh(tasks);
      NoneLeft(tasks, IsCompleted);
      NoneLeft(tasks, IsPending);
      Tabs(|pending|, |completed|, if |high| > 0 then Some(|high|) else None,
           |tasks|, |pending|, |completed|, tasks, Tab(pending), Tab(completed))
  }

  lemma NoneLeft(tasks: seq<Task>, p: Task -> bool)
    ensures Filter(tasks, p) == [] <==> forall t :: t in tasks ==> !p(t)
  {
    FilterAll(tasks, p);
    if Filter(tasks, p) != [] {
      assert Filter(tasks, p)[0] in Filter(tasks, p);
    }
  }

  /** Completed and pending split the list: every task lands in exactly one of them, each in the
      list's order. */
  lemma Partition(tasks: seq<Task>)
    ensures |CompletedTasks(tasks)| + |PendingTasks(tasks)| == |tasks|
    ensures multiset(CompletedTasks(tasks)) + multiset(PendingTasks(tasks)) == multiset(tasks)
    ensures IsSubsequence(CompletedTasks(tasks), tasks) && IsSubsequence(PendingTasks(tasks), tasks)
  {
    FilterComplement(tasks, IsCompleted, IsPending);
    FilterIsSubsequence(tasks, IsCompleted);
    FilterIsSubsequence(tasks, IsPending);
  }

  /** The high-priority badge counts open high-priority tasks, in order, never more than the
      pending ones. */
  lemma HighPriorityIsPendingAndHigh(tasks: seq<Task>)
    ensures HighPriorityTasks(tasks) == Filter(tasks, IsOpenHighPriority)
    ensures IsSubsequence(HighPriorityTasks(tasks), PendingTasks(tasks))
    ensures |HighPriorityTasks(tasks)| <= |PendingTasks(tasks)|
  {
    FilterIsSubsequence(PendingTasks(tasks), IsHighPriority);
    FilterLength(PendingTasks(tasks), IsHighPriority);
    FilterFilter(tasks, IsPending, IsHighPriority, IsOpenHighPriority);
  }
}

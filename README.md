# Task manager core, modelled in Dafny

This project models the client-side logic of a small task-manager web application. The
application keeps a signed-in user's tasks in a hosted database and shows them in a task list, a
dashboard of statistics, a month calendar and an entry form. Every view is derived from one
in-memory list of `Task` records. The sources also hold a filter hook and a filter bar, but no
page mounts them: the task list is given the whole, unfiltered list. The model covers:

- the store that holds that list and rewrites it after each remote call (`useTasks`);
- the filter-and-sort pipeline and the category list (`useTaskFilters`);
- the dashboard statistics, including the completion streak (`Dashboard`);
- the calendar grid, the grouping of tasks by due day and the per-day indicators (`CalendarView`);
- the filter bar's reset, single-field update and active-filter count (`TaskFilters`);
- the list's pending/completed split (`TaskList`);
- the entry form (`TaskForm`) and the edit state of a task card (`TaskItem`).

Each source file is one module. Where the source changes state step by step, the model does too:
- the store, the form and the task card are classes whose methods replace their fields;
- the streak, the calendar grid, the grouping and the indicators are `while`/`for` loops with
  invariants;
- both sorts work in place on an `array`.

Each such method is proved against a specification function. The filters, counts and payload
builders are functions.

Shared modules:
- `Outcomes`: `Option`, and the reply of a remote call (`Ok`/`Failed`).
- `Seqs`: `Filter` and its laws.
- `Sorting`: a stable insertion sort on a two-level key, as a function and in place on an array.
- `Text`: ASCII lower-casing, `includes`, the default string order of `sort`, and JavaScript
  `trim`.
- `Tasks`: the task record, the request bodies, and calendar arithmetic on day numbers.

Time is an integer:
- a timestamp is milliseconds in local time;
- a day is `timestamp / 86400000`;
- day 0 is Thursday 1970-01-01, so a Sunday-first week runs from `d - (d + 4) % 7` to six days on.

Modelling choices:
- Each remote call and the signed-in user are parameters of the operation that uses them.
- The current instant `now` is a parameter.
- The month on display is given by the day numbers of its first and last day.
- The `toISOString` formatting of a due date for the edit input is a function parameter.

The filter pipeline works on a copy. The input of `FilteredTasks` is a sequence value, and the
due-date sort runs on a fresh array. The caller's list therefore cannot change.

## Model

| member | source | states |
|---|---|---|
| UseTasks.FindById | src/hooks/useTasks.ts:143 | `find` returns nothing iff no task has the id; otherwise the first task with the id |
| UseTasks.TogglePatch | src/hooks/useTasks.ts:146 | the toggle update carries only `completed`, negated |
| UseTasks.TaskStore.constructor | src/hooks/useTasks.ts:36-37 | the store starts with no tasks and loading |
| UseTasks.TaskStore.FetchTasks | src/hooks/useTasks.ts:40-59 | success sets the list to the returned rows, or to empty for a null reply; failure keeps the list; loading is off afterwards either way |
| UseTasks.TaskStore.CreateTask | src/hooks/useTasks.ts:61-90 | without a user nothing is sent and it throws `NotAuthenticated`; otherwise the form data is sent with the user's id; success prepends the returned row; failure keeps the list and throws |
| UseTasks.TaskStore.UpdateTask | src/hooks/useTasks.ts:92-116 | success replaces by id with the returned row; failure keeps the list and throws |
| UseTasks.TaskStore.DeleteTask | src/hooks/useTasks.ts:118-140 | success removes by id; failure keeps the list and throws |
| UseTasks.TaskStore.ToggleTaskComplete | src/hooks/useTasks.ts:142-147 | an unknown id sends nothing and changes nothing; otherwise it sends the negated-`completed` patch and updates as `UpdateTask` does |
| UseTasks.ReplaceById | src/hooks/useTasks.ts:102 | the list after an update has the same length as before |
| UseTasks.RemoveById | src/hooks/useTasks.ts:126 | the list after a delete is no longer than before |
| UseTasks.FindFirstMatch | src/hooks/useTasks.ts:143 | the lookup returns the task at the first index that holds the id |
| UseTasks.ReplaceByIdPointwise | src/hooks/useTasks.ts:102 | update keeps length and order: each position keeps its task unless its id matches, and then holds the returned row |
| UseTasks.ReplaceAbsentId | src/hooks/useTasks.ts:102 | updating an id that is not present changes nothing |
| UseTasks.FindAfterReplace | src/hooks/useTasks.ts:102 | after an update of a present id, lookup finds the returned row |
| UseTasks.ReplaceLeavesOthers | src/hooks/useTasks.ts:102 | tasks with other ids are untouched, in the same order |
| UseTasks.RemoveByIdSpec | src/hooks/useTasks.ts:126 | delete keeps exactly the tasks with another id, as an order-preserving subsequence, and leaves no task with the id |
| UseTasks.RemoveByIdIdempotent | src/hooks/useTasks.ts:126 | deleting twice equals deleting once |
| UseTasks.RemoveAbsentId | src/hooks/useTasks.ts:126 | deleting an id that is not present changes nothing |
| UseTasks.CreateThenDelete | src/hooks/useTasks.ts:76-126 | prepending a row with a new id and deleting that id restores the list |
| UseTasks.CreateUpdateDeleteRoundTrip | src/hooks/useTasks.ts:61-140 | create, update of the created id, then delete gives back the original list, so the same length |
| UseTasks.ToggleTwiceRestores | src/hooks/useTasks.ts:142-147 | two toggles the service applies restore the task's `completed` value |
| UseTaskFilters.FilteredTasks | src/hooks/useTaskFilters.ts:29-86 | result membership iff the task passes all four stages; a permutation of the narrowed list; with sort 'none' exactly the narrowed, order-preserving subsequence; otherwise exactly the stable key sort of the narrowed list, so due-date ordered; in every case the tasks sharing a due date (or all undated) keep their narrowed order |
| UseTaskFilters.NarrowStages | src/hooks/useTaskFilters.ts:30-69 | the stages applied one after another, each skipped when its criterion is neutral, equal the combined filter |
| UseTaskFilters.NarrowedIsSubsequence | src/hooks/useTaskFilters.ts:30-69 | a task survives narrowing iff it is in the list and passes every stage; narrowing only removes tasks and keeps the rest in order |
| UseTaskFilters.SearchStage | src/hooks/useTaskFilters.ts:33-40 | an empty search passes every task; otherwise a task passes iff the lowered search text occurs in its lowered title, description or category |
| UseTaskFilters.PassingTaskMatchesCriteria | src/hooks/useTaskFilters.ts:43-69 | a passing task has the selected priority and category; status 'completed', 'pending' and 'overdue' pass only completed, incomplete, and incomplete past-due tasks |
| UseTaskFilters.UnknownStatusKeepsAll | src/hooks/useTaskFilters.ts:48-64 | a status outside the switch's cases filters nothing |
| UseTaskFilters.InitialCriteriaKeepAll | src/hooks/useTaskFilters.ts:14-20 | the initial criteria keep every task in order |
| UseTaskFilters.DueKeyMatchesComparator | src/hooks/useTaskFilters.ts:72-81 | the due key of one task is smaller than another's iff the source comparator returns a negative number, and the keys are equal iff it returns 0 |
| UseTaskFilters.DueSortStable | src/hooks/useTaskFilters.ts:72-83 | the sort keeps the relative order of tasks with the same due date, and of the undated tasks |
| UseTaskFilters.DueSortOrders | src/hooks/useTaskFilters.ts:72-83 | after the sort no undated task precedes a dated one; due times ascend for 'soonest' and descend otherwise |
| UseTaskFilters.Categories | src/hooks/useTaskFilters.ts:22-27 | strictly ascending without duplicates; holds exactly the non-empty, non-null categories of the tasks |
| UseTaskFilters.InsertCategory | src/hooks/useTaskFilters.ts:23-26 | adding a category to the sorted distinct list keeps it strictly sorted, with the old members plus the new one |
| UseTaskFilters.StrictlySortedDistinct | src/hooks/useTaskFilters.ts:23-26 | a strictly sorted list has no duplicates |
| UseTaskFilters.OverdueExample | src/hooks/useTaskFilters.ts:56-61 | A (high, due yesterday, open) and B (low, due tomorrow, done) under status 'overdue' give exactly [A] |
| UseTaskFilters.SoonestExample | src/hooks/useTaskFilters.ts:72-83 | the same two tasks sorted 'soonest' give [A, B] |
| UseTaskFilters.CategoriesExample | src/hooks/useTaskFilters.ts:22-27 | categories Work, '', Work, Home, null give ["Home", "Work"] |
| Sorting.SortInPlace | src/hooks/useTaskFilters.ts:73-82 | the in-place insertion sort leaves the array equal to the sort function of its old contents |
| Sorting.InsertAt | src/hooks/useTaskFilters.ts:73-82 | one insertion pass places the element into the sorted suffix |
| Sorting.SortByKey | src/hooks/useTaskFilters.ts:73-82 | the sorted list has the input's length |
| Sorting.SortStable | src/hooks/useTaskFilters.ts:73-82 | stability: the elements with any one key appear in the sorted list in their input order |
| Sorting.InsertStable | src/hooks/useTaskFilters.ts:73-82 | an inserted element goes in front of every element with its own key and leaves their order alone |
| Sorting.SortSorts | src/hooks/useTaskFilters.ts:73-82 | the sorted list is ordered by the key |
| Sorting.SortPermutes | src/hooks/useTaskFilters.ts:73-82 | the sorted list is a permutation of the input |
| Sorting.InsertSplits | src/hooks/useTaskFilters.ts:73-82 | insertion lands after the prefix of smaller keys |
| Text.Lower | src/hooks/useTaskFilters.ts:31-38 | lower-casing keeps the length and maps each character on its own |
| Text.IncludesIff | src/hooks/useTaskFilters.ts:36-38 | `includes` holds iff the needle occurs at some index |
| Text.StrLessTotal | src/hooks/useTaskFilters.ts:26 | the default string order of `sort` is total |
| Text.StrLessTransitive | src/hooks/useTaskFilters.ts:26 | that order is transitive |
| Text.Trim | src/components/TaskForm.tsx:26 | the trimmed text is no longer than the input, and neither starts nor ends with white space |
| Text.TrimShape | src/components/TaskForm.tsx:26 | `trim` removes exactly the leading and trailing white space |
| Text.TrimEmptyIff | src/components/TaskForm.tsx:26 | a text trims to empty iff it is all white space |
| Dashboard.CompletionRate | src/components/Dashboard.tsx:23 | 0 for no tasks; otherwise rate × total = completed × 100; always within [0, 100] |
| Dashboard.ComputeStats | src/components/Dashboard.tsx:14-86 | pending + completed = total; today's and the week's completed counts are the completed tasks among the tasks due today and this week, at most their task counts, which at most the dated tasks; overdue and open-high counts at most pending; the streak is the walk over completions per day, at most the number of distinct completion days |
| Dashboard.CompletedTasksByDate | src/components/Dashboard.tsx:50-56 | keys exactly the days of `updated_at` of completed tasks; each value is that day's count of completions; the values sum to the completed count |
| Dashboard.CountByDay | src/components/Dashboard.tsx:52-56 | the reduce counts every task under its day, and the values sum to the number of tasks |
| Dashboard.TallyCounts | src/components/Dashboard.tsx:52-56 | after one increment per task, a day has a key iff some task was updated on it, holds that number of tasks, and the values sum to the number of tasks |
| Dashboard.ByDateOfCompleted | src/components/Dashboard.tsx:50-56 | counting only completed tasks by `updated_at` day gives the per-day completions |
| Dashboard.MapSumBump | src/components/Dashboard.tsx:54 | adding one under a key adds one to the sum of the map |
| Dashboard.Streak | src/components/Dashboard.tsx:58-71 | the `while (true)` loop terminates with the walk's value, at most the number of days with completions |
| Dashboard.Walk | src/components/Dashboard.tsx:58-71 | the walk never counts more than the days with completions |
| Dashboard.WalkBeforeYesterday | src/components/Dashboard.tsx:63-70 | before yesterday the walk counts the unbroken run of completion days and stops at the first day without |
| Dashboard.StreakShape | src/components/Dashboard.tsx:58-71 | the streak is today and yesterday if they have completions, plus the unbroken run that ends two days ago |
| Dashboard.StreakGraceDays | src/components/Dashboard.tsx:66-67 | no completions today and yesterday does not end the streak |
| Dashboard.StreakTodayAndYesterday | src/components/Dashboard.tsx:58-71 | completions on today and yesterday only give a streak of 2 |
| Dashboard.StreakSkipsYesterday | src/components/Dashboard.tsx:58-71 | completions today and two days ago, none yesterday, give 2 |
| Dashboard.UndatedNotCounted | src/components/Dashboard.tsx:26-34 | a task without a due date changes neither today's nor the week's count |
| Tasks.StartOfWeek | src/components/Dashboard.tsx:16 | the week's first day is a Sunday on or before the day, within six days |
| Tasks.EndOfWeek | src/components/Dashboard.tsx:17 | the week's last day is a Saturday on or after the day, within six days |
| CalendarView.CalendarDays | src/components/CalendarView.tsx:29-44 | consecutive days from the Sunday before the month's start to the Saturday after its end, inclusive; the length is a multiple of 7 and position i falls on weekday i mod 7 |
| CalendarView.WeekdayOffset | src/components/CalendarView.tsx:129 | the i-th day from a Sunday is weekday i mod 7 |
| CalendarView.TasksByDate | src/components/CalendarView.tsx:47-61 | keys exactly the due days; each value is the tasks due that day, in list order |
| CalendarView.DayTasksIsBucket | src/components/CalendarView.tsx:64-78 | a day's lookup is that day's tasks, empty when the day has no key, as an order-preserving subsequence |
| CalendarView.BucketOfTask | src/components/CalendarView.tsx:50-57 | a dated task is in its due day's bucket and no other; an undated one is in none |
| CalendarView.PriorityRank | src/components/CalendarView.tsx:89 | high 0, medium 1, low 2 |
| CalendarView.TaskIndicators | src/components/CalendarView.tsx:80-127 | sorts the bucket in place, then renders the indicators for the sorted bucket |
| CalendarView.IndicatorKeyMatchesComparator | src/components/CalendarView.tsx:85-92 | wherever the source comparator gives a number, the indicator key of one task is smaller iff that number is negative, and equal iff it is 0 |
| CalendarView.IndicatorSortOrders | src/components/CalendarView.tsx:85-92 | the sorted bucket has incomplete before complete, then high, medium, low, as a permutation |
| CalendarView.Indicators | src/components/CalendarView.tsx:94-124 | dots for the first min(3, n) tasks, offset 8 + 6i; a "+(n−3)" badge iff n > 3; at most 4 entries |
| CalendarView.DayCell | src/components/CalendarView.tsx:207-233 | a grid cell sorts the day's array in place, renders the indicators of the sorted list, and previews the first tasks of that same sorted list, so the preview keeps incomplete-first and priority order |
| CalendarView.DayPreview | src/components/CalendarView.tsx:229-231 | a preview exactly for in-month days with tasks; the first one or two tasks |
| CalendarView.MonthQuickStats | src/components/CalendarView.tsx:345-376 | the completed and open-high counts are each at most the month's task count, which is at most the dated tasks |
| CalendarView.FlatIsDated | src/components/CalendarView.tsx:348-349 | joining the lists of all the grouping's keys, in any order of distinct keys, holds exactly the dated tasks, each as often as the list does |
| CalendarView.MonthQuickStatsOverGrouping | src/components/CalendarView.tsx:345-376 | the three figures counted over the joined lists of the grouping, as the component counts them, equal the month's, completed and open-high counts of `MonthQuickStats`, whatever order the keys are enumerated in |
| TaskFilters.UpdateFilter | src/components/TaskFilters.tsx:26-28 | the chosen field takes the value; every other field is unchanged |
| TaskFilters.ClearFilters | src/components/TaskFilters.tsx:30-38 | search '', priority, status and category 'all', sort 'none'; the hook's initial criteria |
| TaskFilters.ActiveFilterCount | src/components/TaskFilters.tsx:40 | the count is at most 5 |
| TaskFilters.ActiveFilterCountByField | src/components/TaskFilters.tsx:40 | the count is the number of fields holding none of '', 'all', 'none' |
| TaskFilters.ClearedCountsNone | src/components/TaskFilters.tsx:30-40 | the reset criteria count 0 |
| TaskFilters.NeutralValueDoesNotCount | src/components/TaskFilters.tsx:40 | setting any field to '', 'all' or 'none' never raises the count |
| TaskFilters.ActiveValueCounts | src/components/TaskFilters.tsx:40 | setting a field to any other value makes the count at least 1 and never lowers it |
| TaskFilters.SearchForAllIsUncounted | src/components/TaskFilters.tsx:40-79 | search "all" counts 0 (no badge, no Clear) yet drops a task titled "x" |
| TaskFilters.AppliedFilterCount | src/components/TaskFilters.tsx:40 | counts the fields that differ from the reset value; 0 iff the criteria are the reset ones |
| TaskFilters.NoAppliedFilterKeepsAll | src/components/TaskFilters.tsx:30-40 | when the corrected count is 0 the pipeline keeps every task |
| TaskFilters.CountsAgreeOnOrdinaryValues | src/components/TaskFilters.tsx:40 | both counts agree whenever no field holds another field's neutral value |
| TaskList.View | src/components/TaskList.tsx:13-87 | the empty state iff no tasks; otherwise tab counts equal the list, pending and completed lengths, pending + completed = all, the high badge shows iff open high tasks exist and then holds their number, the pending and completed tabs hold exactly the pending and completed tasks in list order, and each tab's placeholder shows iff it has no tasks |
| TaskList.CompletedTasks | src/components/TaskList.tsx:14 | exactly the completed tasks of the list |
| TaskList.PendingTasks | src/components/TaskList.tsx:15 | exactly the incomplete tasks of the list |
| TaskList.HighPriorityTasks | src/components/TaskList.tsx:16 | exactly the incomplete high-priority tasks of the list |
| TaskList.Partition | src/components/TaskList.tsx:14-15 | completed and pending split the list: lengths and multisets add up, and both keep order |
| TaskList.HighPriorityIsPendingAndHigh | src/components/TaskList.tsx:16 | the same list as filtering the whole list by open and high priority; a subsequence of the pending ones, never more |
| TaskForm.Optional | src/components/TaskForm.tsx:31-33 | a blank input is left out; any other is sent as is; never null |
| TaskForm.Payload | src/components/TaskForm.tsx:29-34 | title and priority pass through; blank description, due date and category are left out |
| TaskForm.PayloadHasNoEmptyText | src/components/TaskForm.tsx:29-34 | the payload never carries empty optional text, and leaves a field out iff its input is blank |
| TaskForm.InitialFormCannotSubmit | src/components/TaskForm.tsx:118 | the initial form (title '', priority 'medium', the rest blank) has the submit button disabled |
| TaskForm.BlankTitle | src/components/TaskForm.tsx:26 | a title counts as blank iff it is all white space |
| TaskForm.TaskFormState.constructor | src/components/TaskForm.tsx:16-22 | the form starts in the initial state |
| TaskForm.TaskFormState.HandleSubmit | src/components/TaskForm.tsx:24-45 | a blank title sends nothing and keeps the form; otherwise sends the payload; it resets after success and retains the input after failure |
| TaskItem.PriorityColor | src/components/TaskItem.tsx:29-36 | high 'destructive', medium 'secondary', low 'outline', anything else 'secondary' |
| TaskItem.EditDataOf | src/components/TaskItem.tsx:22-27 | the inputs hold the title and priority; the description or ''; the formatted due date or '' |
| TaskItem.Nullable | src/components/TaskItem.tsx:42-44 | a blank input is sent as null; any other as is; never left out |
| TaskItem.SavePayload | src/components/TaskItem.tsx:40-45 | sends title, description, priority and due date only; blank description and due date become null; `completed` and category are never sent |
| TaskItem.TaskCard.constructor | src/components/TaskItem.tsx:21-27 | a card starts out of edit mode with the inputs filled from the task |
| TaskItem.TaskCard.StartEdit | src/components/TaskItem.tsx:154-155 | enters edit mode unless the task, as of the latest render, is completed |
| TaskItem.TaskCard.ClickSave | src/components/TaskItem.tsx:38-50 | offered only while editing (lines 135-148); disabled for a blank title (line 141); otherwise sends the payload for the task's id; leaves edit mode on success and stays on failure |
| TaskItem.TaskCard.Cancel | src/components/TaskItem.tsx:52-60 | offered only while editing (lines 135-148); refills the inputs from the task as of the latest render and leaves edit mode |
| TaskItem.TaskCard.Rerender | src/components/TaskList.tsx:47-52 | the keyed card receives the store's new row for its id and keeps its edit flag and inputs |

## Left out

- The hosted database, authentication and toast notifications are left out. Each remote call is
  a parameter holding its reply. The server-side `order('created_at', …)` of the fetch is not
  modelled; the rows are taken as returned.
- Thrown errors are modelled as an `Outcome` value. The console logging is not modelled.
- Async interleaving is not modelled, including `toggleTaskComplete` reading a stale `tasks`.
  Every operation runs to completion before the next.
- `date-fns` and `Date` are not modelled: time zones, daylight-saving days, `toDateString`,
  `format` and `toISOString`. Timestamps and days are integers. The week and month bounds come
  from day arithmetic or are parameters. Month navigation (`addMonths`/`subMonths`) is omitted.
- Dashboard.CompletionRate: the rate is an exact `real`. Floating-point rounding and the
  `Math.round` of the display are not modelled.
- Text.Lower: lower-cases ASCII letters only, not the full Unicode mapping of `toLowerCase`.
  Text.StrLess compares characters by code point, where `sort` compares UTF-16 code units; the
  two orders differ only outside the Basic Multilingual Plane.
- Both sorts are modelled as a stable insertion sort on a key. `Array.prototype.sort` is
  stable, and the key order agrees with each source comparator (`DueKeyMatchesComparator`,
  `IndicatorKeyMatchesComparator`), so the sorted result is the same. The model does not
  capture the engine's own algorithm or the number of comparisons it makes.
- CalendarView.IndicatorKey: a priority other than high, medium or low ranks after low. In the
  source the comparator then returns `NaN`, which `sort` treats as "equal" to everything; that
  is not a consistent order, and its result depends on the engine.
- CalendarView.TaskIndicators: the sort runs on an array holding the day's list. In the source,
  that array is the very list stored in the grouping, so the grid's later
  `dayTasks.slice(0, 2)` sees the sorted order. So does the sidebar list of today's tasks
  (src/components/CalendarView.tsx:64-67, rendered at line 278), which is the same stored list,
  once the grid has rendered today's cell. `DayCell` sorts a day's array and previews that same
  array, but the array is not tied to the grouping's stored list, and the sidebar's read of the
  sorted list is not modelled.
- The order in which JavaScript enumerates the grouping's keys for the quick statistics is not
  modelled: the keys are any list of the distinct days, and the counts are proved not to depend
  on their order.
- Dashboard.ComputeStats: the today and week ratios shown on the cards are not modelled; only
  their counts are.
- TaskForm.TaskFormState.HandleSubmit: the form's handler is modelled against any `onSubmit`
  reply. As the application wires it (src/pages/Index.tsx:49-58), the page's handler catches the
  error that `createTask` rethrows. So `onSubmit` never throws there; after a failed create the
  form resets, and the branch that keeps the input never runs. That wiring is not modelled.
- The filter bar is not connected to the filter hook, and the hook's result is not connected to
  the task list. No page of the application mounts either (src/pages/Index.tsx:71-77 passes the
  store's whole list to the task list), so the model states what each does on its own.
- Typing into the form and edit inputs is not modelled as methods: it assigns the field
  directly.
- JSX rendering, CSS class selection, icons and layout are left out, in every component.
- Every other component and page is not part of this model: the analytics page (random
  figures), the theme toggle (DOM and local storage), routing, the sign-in page, the sidebar,
  the header and the profile and welcome sections.

Two behaviours of the code are worth stating directly:
- `createTask` performs no title check of its own. Only the form guards against a blank title.
- With a completion today, none yesterday and one two days ago, the streak loop skips yesterday
  and reaches the day before. The streak is therefore 2 (`StreakSkipsYesterday`).

## Findings

| source | as written | input that shows it | evidently intended | confidence | as-written member | corrected member |
|---|---|---|---|---|---|---|
| src/components/TaskFilters.tsx:40 | a field counts as an active filter unless its value is '', 'all' or 'none', whichever field holds it | search text "all" (or "none"): the count is 0, so no badge and no Clear button is shown, and the search stage would drop every task not containing "all". The narrowing happens only once the bar drives the filter hook, which no page of the application wires | a field counts when it differs from its own reset value | medium, not executed | TaskFilters.SearchForAllIsUncounted | TaskFilters.AppliedFilterCount |

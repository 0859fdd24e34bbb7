/** The task record shared by every part of the application, and the calendar arithmetic on
    timestamps that the views use. */
module Tasks {
  import opened Outcomes

  /** Milliseconds since the epoch, in local time. */
  type Timestamp = int

  /** Calendar day number: day 0 is 1970-01-01. */
  type Day = int

  const DayLength: int := 86400000

  /** The calendar day a timestamp falls on (`toDateString`, `format(_, 'yyyy-MM-dd')`). */
  function DayOf(t: Timestamp): Day {
    t / DayLength
  }

  /** Day of the week, 0 for Sunday: 1970-01-01 was a Thursday. */
  function Weekday(d: Day): int {
    (d + 4) % 7
  }

  /** `startOfWeek` and `endOfWeek` with the default Sunday week start, on day numbers. */
  function StartOfWeek(d: Day): (r: Day)
    ensures r <= d < r + 7 && Weekday(r) == 0
  {
    d - Weekday(d)
  }

  function EndOfWeek(d: Day): (r: Day)
    ensures r - 7 < d <= r && Weekday(r) == 6
  {
    StartOfWeek(d) + 6
  }

  const High := "high"
  const Medium := "medium"
  const Low := "low"

  /** A row of the `tasks` table (src/hooks/useTasks.ts `Task`); `None` is SQL null. */
  datatype Task = Task(
    id: string,
    title: string,
    description: Option<string>,
    completed: bool,
    priority: string,
    dueDate: Option<Timestamp>,
    category: Option<string>,
    createdAt: Timestamp,
    updatedAt: Timestamp,
    userId: string)

  /** A field of a request body: left out (`undefined`), sent as `null`, or sent with a value. */
  datatype Field<+T> = Absent | Null | Value(value: T)

  /** The body of an insert (`CreateTaskData`); the due date is the text of the date input. */
  datatype CreateTaskData = CreateTaskData(
    title: string,
    description: Field<string>,
    priority: Field<string>,
    dueDate: Field<string>,
    category: Field<string>)

  /** The body of an update (`UpdateTaskData`). */
  datatype UpdateTaskData = UpdateTaskData(
    title: Field<string>,
    description: Field<string>,
    completed: Field<bool>,
    priority: Field<string>,
    dueDate: Field<string>,
    category: Field<string>)

  predicate IsCompleted(t: Task) { t.completed }

  predicate IsPending(t: Task) { !t.completed }

  predicate IsDated(t: Task) { t.dueDate.Some? }

  predicate IsHighPriority(t: Task) { t.priority == High }

  /** Open and of high priority: what every "high priority" count of the views counts. */
  predicate IsOpenHighPriority(t: Task) { IsPending(t) && IsHighPriority(t) }

  /** Incomplete, and due strictly before the instant `now` (`isPast`, or a comparison of the due date with `now`). */
  predicate IsOverdue(t: Task, now: Timestamp) {
    !t.completed && t.dueDate.Some? && t.dueDate.value < now
  }

  /** The task is due on that calendar day. */
  predicate DueOn(t: Task, day: Day) {
    t.dueDate.Some? && DayOf(t.dueDate.value) == day
  }
}

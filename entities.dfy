/** The persisted records (`User`, `Project`, `Task`) and the response records
    the services return. Creation timestamps are not modelled. */
module Entities {
  import opened Wrappers

  /** A `java.util.Date`, as milliseconds since the epoch. */
  type Date = int

  const MillisPerDay := 86_400_000

  /** The calendar day an instant falls on, counted from the epoch's day. */
  function Day(d: Date): int
  {
    d / MillisPerDay
  }

  /** Midnight of the instant's day. */
  function StartOfDay(d: Date): (r: Date)
    ensures r <= d < r + MillisPerDay
    ensures Day(r) == Day(d) && r % MillisPerDay == 0
  {
    Day(d) * MillisPerDay
  }

  /** The due date a task column of type `DATE` keeps: only the day. */
  function StoredDueDate(d: Option<Date>): (r: Option<Date>)
    ensures r.None? <==> d.None?
    ensures d.Some? ==> r.value <= d.value < r.value + MillisPerDay && Day(r.value) == Day(d.value)
  {
    if d.None? then None else Some(StartOfDay(d.value))
  }

  /** Midnights are ordered as their days are. */
  lemma StartOfDayMonotone(a: Date, b: Date)
    ensures StartOfDay(a) <= StartOfDay(b) <==> Day(a) <= Day(b)
  {
  }

  datatype User = User(id: nat, fullName: Option<string>, email: string, password: string)

  /** `owner` is the owning user's email, the key the ownership checks compare;
      `taskIds` is the project's task list (the one-to-many association). */
  datatype Project = Project(
    id: nat,
    title: Option<string>,
    description: Option<string>,
    owner: string,
    taskIds: seq<nat>)

  /** A stored task always belongs to a project; its due date is a day, kept
      as that day's midnight. */
  datatype Task = Task(
    id: nat,
    title: Option<string>,
    description: Option<string>,
    dueDate: Option<Date>,
    completed: bool,
    projectId: nat)

  datatype TaskResponse = TaskResponse(
    id: nat,
    title: Option<string>,
    description: Option<string>,
    isCompleted: bool,
    dueDate: Option<Date>,
    projectId: nat)

  datatype ProjectResponse = ProjectResponse(
    id: nat,
    title: Option<string>,
    description: Option<string>,
    totalTasks: nat,
    completedTasks: nat,
    progressPercentage: real)

  datatype AuthResponse = AuthResponse(accessToken: string, tokenType: string, userId: nat)
}

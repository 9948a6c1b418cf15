/** The Task entity, its two enumerations and the partial field record that create and update carry. */
module TaskModel {
  import opened Wrappers
  import opened Rules

  type TaskId = nat
  type UserId = nat

  datatype Status = Pending | InProgress | Completed
  datatype Priority = Low | Medium | High

  function StatusName(s: Status): string {
    match s
    case Pending => "pending"
    case InProgress => "in-progress"
    case Completed => "completed"
  }

  function PriorityName(p: Priority): string {
    match p
    case Low => "low"
    case Medium => "medium"
    case High => "high"
  }

  /** The status a string names, if it names one; the inverse of `StatusName`. */
  function ParseStatus(s: string): (r: Option<Status>)
    ensures forall x :: r == Some(x) <==> StatusName(x) == s
  {
    if s == "pending" then Some(Pending)
    else if s == "in-progress" then Some(InProgress)
    else if s == "completed" then Some(Completed)
    else None
  }

  /** The priority a string names, if it names one; the inverse of `PriorityName`. */
  function ParsePriority(s: string): (r: Option<Priority>)
    ensures forall x :: r == Some(x) <==> PriorityName(x) == s
  {
    if s == "low" then Some(Low)
    else if s == "medium" then Some(Medium)
    else if s == "high" then Some(High)
    else None
  }

  /** A due date is cleared (JSON null) or an ISO date kept in the form the request gave it. */
  datatype DueDate = NoDueDate | DueOn(date: Value)

  /** The schema fields of a task body, each present or absent; the typed value a schema accepts. */
  datatype TaskFields = TaskFields(
    title: Option<string>,
    description: Option<string>,
    status: Option<Status>,
    priority: Option<Priority>,
    dueDate: Option<DueDate>)

  const NoFields := TaskFields(None, None, None, None, None)

  datatype Task = Task(
    id: TaskId,
    title: string,
    description: Option<string>,
    status: Status,
    priority: Priority,
    dueDate: DueDate,
    createdBy: UserId,
    createdAt: int)

  /** The Task schema's documented defaults for a task created without these fields. */
  const DefaultStatus := Pending
  const DefaultPriority := Medium

  /** The task the store creates from `f`: `createdBy` is always `owner`, whatever the body said. */
  function NewTask(id: TaskId, f: TaskFields, owner: UserId, now: int): (t: Task)
    requires f.title.Some?
    ensures t.id == id && t.createdBy == owner && t.createdAt == now
    ensures Some(t.title) == f.title && t.description == f.description
    ensures f.status.Some? ==> t.status == f.status.value
    ensures f.status.None? ==> t.status == Pending
    ensures f.priority.Some? ==> t.priority == f.priority.value
    ensures f.priority.None? ==> t.priority == Medium
    ensures f.dueDate.Some? ==> t.dueDate == f.dueDate.value
    ensures f.dueDate.None? ==> t.dueDate == NoDueDate
  {
    Task(id, f.title.value, f.description, f.status.GetOr(DefaultStatus), f.priority.GetOr(DefaultPriority),
         f.dueDate.GetOr(NoDueDate), owner, now)
  }

  /** A partial update: every supplied field replaces the stored one, nothing else changes. */
  function Apply(t: Task, f: TaskFields): (u: Task)
    ensures u.id == t.id && u.createdBy == t.createdBy && u.createdAt == t.createdAt
    ensures u.title == (if f.title.Some? then f.title.value else t.title)
    ensures u.description == (if f.description.Some? then f.description else t.description)
    ensures u.status == (if f.status.Some? then f.status.value else t.status)
    ensures u.priority == (if f.priority.Some? then f.priority.value else t.priority)
    ensures u.dueDate == (if f.dueDate.Some? then f.dueDate.value else t.dueDate)
  {
    t.(title := f.title.GetOr(t.title),
       description := if f.description.Some? then f.description else t.description,
       status := f.status.GetOr(t.status),
       priority := f.priority.GetOr(t.priority),
       dueDate := f.dueDate.GetOr(t.dueDate))
  }

  /** Applying the same update twice changes nothing the first application did not. */
  lemma ApplyIdempotent(t: Task, f: TaskFields)
    ensures Apply(Apply(t, f), f) == Apply(t, f)
  {
  }

  /** An update that supplies no field leaves the task as it was. */
  lemma ApplyNothing(t: Task)
    ensures Apply(t, NoFields) == t
  {
  }
}

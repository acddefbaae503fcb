/** The four collections the application stores (users, tasks, groups and
    groupTasks), their record shapes, and the string enumerations that the
    schema's validators accept for task status and priority. */
module Schema {
  import opened Wrappers

  /** Document ids. The storage layer tags every id with its table, so an id of
      one table can never stand for a document of another. */
  datatype UserId = UserId(raw: nat)
  datatype TaskId = TaskId(raw: nat)
  datatype GroupId = GroupId(raw: nat)
  datatype GroupTaskId = GroupTaskId(raw: nat)

  /** Timestamps and due dates: integer epoch milliseconds. */
  type Millis = int

  /** Estimated and actual hours: floating-point numbers the code only stores
      and returns, carried here without interpretation. */
  type Hours = real

  datatype Status = Todo | InProgress | Completed | Cancelled

  datatype Priority = Low | Medium | High | Urgent

  /** The literal under which a status is stored and sent. */
  function StatusLiteral(s: Status): string {
    match s
    case Todo => "todo"
    case InProgress => "in_progress"
    case Completed => "completed"
    case Cancelled => "cancelled"
  }

  /** The literal under which a priority is stored and sent. */
  function PriorityLiteral(p: Priority): string {
    match p
    case Low => "low"
    case Medium => "medium"
    case High => "high"
    case Urgent => "urgent"
  }

  /** The status validator: a union of four string literals. It accepts a string
      exactly when it is the literal of some status, and then yields that status. */
  function ParseStatus(lit: string): (r: Option<Status>)
    ensures forall s :: r == Some(s) <==> StatusLiteral(s) == lit
  {
    if lit == "todo" then Some(Todo)
    else if lit == "in_progress" then Some(InProgress)
    else if lit == "completed" then Some(Completed)
    else if lit == "cancelled" then Some(Cancelled)
    else None
  }

  /** The priority validator: a union of four string literals. */
  function ParsePriority(lit: string): (r: Option<Priority>)
    ensures forall p :: r == Some(p) <==> PriorityLiteral(p) == lit
  {
    if lit == "low" then Some(Low)
    else if lit == "medium" then Some(Medium)
    else if lit == "high" then Some(High)
    else if lit == "urgent" then Some(Urgent)
    else None
  }

  /** A user document. `notifications` is optional in storage even though
      every user the directory creates has it set; `isActive` is mandatory. */
  datatype User = User(
    email: string,
    name: string,
    avatar: Option<string>,
    bio: Option<string>,
    timezone: Option<string>,
    notifications: Option<bool>,
    createdAt: Millis,
    updatedAt: Millis,
    isActive: bool)

  /** A task document. `createdBy` is a required user reference; the assignee,
      the dates, the hour estimates, the tags and the category are optional. */
  datatype Task = Task(
    title: string,
    description: string,
    status: Status,
    priority: Priority,
    assignedTo: Option<UserId>,
    createdBy: UserId,
    dueDate: Option<Millis>,
    completedAt: Option<Millis>,
    estimatedHours: Option<Hours>,
    actualHours: Option<Hours>,
    tags: Option<seq<string>>,
    category: Option<string>,
    createdAt: Millis,
    updatedAt: Millis)

  /** A group document. No operation reads or writes groups. */
  datatype Group = Group(
    name: string,
    description: string,
    createdBy: UserId,
    members: seq<UserId>,
    isPrivate: bool,
    createdAt: Millis,
    updatedAt: Millis)

  /** An association row linking one group to one task. */
  datatype GroupTask = GroupTask(groupId: GroupId, taskId: TaskId, createAt: Millis)

  /** The whole database: one finite map from ids to documents per table, and
      the task ids the tasks table has ever handed out, deleted ones included.
      The storage layer never reissues the id of a deleted document. Users are
      never deleted; a new user's id is instead kept clear of every user id a
      task or group already names (see `Store.NewUserId`). */
  datatype Db = Db(
    users: map<UserId, User>,
    tasks: map<TaskId, Task>,
    groups: map<GroupId, Group>,
    groupTasks: map<GroupTaskId, GroupTask>,
    issuedTaskIds: set<TaskId>)
}

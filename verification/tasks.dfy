/** The task registry: create (status forced to todo), partial update that
    stamps `completedAt` on completion, hard delete, and the read views that
    join creator and assignee documents into each task. Three queries are
    modelled as the code behaves, each beside the version its author intended. */
module Tasks {
  import opened Wrappers
  import opened Schema
  import opened Store
  import Js

  /** The arguments `createTask` accepts. The assignee is required here although
      the stored field is optional, and there is no status argument. */
  datatype NewTask = NewTask(
    title: string,
    description: string,
    assignedTo: UserId,
    createdBy: UserId,
    dueDate: Option<Millis>,
    priority: Priority,
    estimatedHours: Option<Hours>,
    tags: Option<seq<string>>,
    category: Option<string>)

  /** The optional fields `updateTask` accepts besides the task id; `None` means
      the caller did not supply the field. `createdBy` and `createdAt` are not
      among them. */
  datatype TaskPatch = TaskPatch(
    title: Option<string>,
    description: Option<string>,
    status: Option<Status>,
    assignedTo: Option<UserId>,
    dueDate: Option<Millis>,
    priority: Option<Priority>,
    estimatedHours: Option<Hours>,
    actualHours: Option<Hours>,
    tags: Option<seq<string>>,
    category: Option<string>,
    completedAt: Option<Millis>)

  /** A task document together with its id. */
  datatype TaskDoc = TaskDoc(id: TaskId, task: Task)

  /** A row of `getAllTasks`: the task with its creator and assignee documents. */
  datatype TaskWithUsers = TaskWithUsers(id: TaskId, task: Task, creator: Option<User>, assignee: Option<User>)

  /** A row of `getTasksByAssignee`: the task with its creator document. */
  datatype TaskWithCreator = TaskWithCreator(id: TaskId, task: Task, creator: Option<User>)

  /** A row of `getTasksByCreator`: the task with its assignee document. */
  datatype TaskWithAssignee = TaskWithAssignee(id: TaskId, task: Task, assignee: Option<User>)

  /** How a joined user field relates to the reference it came from: null when
      there is no reference or it names no stored user, else that user's document. */
  predicate JoinedAs(users: map<UserId, User>, ref: Option<UserId>, joined: Option<User>) {
    match ref
    case None => joined.None?
    case Some(u) => if u in users then joined == Some(users[u]) else joined.None?
  }

  /** `task.assignedTo ? get(task.assignedTo) : null`. A present id is a non-empty
      string and therefore truthy. */
  function LookupAssignee(users: map<UserId, User>, t: Task): Option<User> {
    if t.assignedTo.Some? then Get(users, t.assignedTo.value) else None
  }

  /** `createTask`: inserts the caller's fields under a fresh id with status todo,
      no completion time, no actual hours, and both timestamps at `now`. The id
      is one the table has never handed out, and is recorded as handed out. */
  function CreateTask(db: Db, args: NewTask, now: Millis): (r: Created<TaskId>)
    ensures r.id !in db.tasks && r.id !in db.issuedTaskIds
    ensures r.db.tasks.Keys == db.tasks.Keys + {r.id}
    ensures forall k :: k in db.tasks ==> r.db.tasks[k] == db.tasks[k]
    ensures r.db.issuedTaskIds == db.issuedTaskIds + {r.id}
    ensures r.db == db.(tasks := r.db.tasks, issuedTaskIds := r.db.issuedTaskIds)
    ensures var t := r.db.tasks[r.id];
      && t.status == Todo
      && t.createdAt == now && t.updatedAt == now
      && t.title == args.title
      && t.description == args.description
      && t.assignedTo == Some(args.assignedTo)
      && t.createdBy == args.createdBy
      && t.dueDate == args.dueDate
      && t.priority == args.priority
      && t.estimatedHours == args.estimatedHours
      && t.tags == args.tags
      && t.category == args.category
      && t.completedAt.None?
      && t.actualHours.None?
  {
    var id := NewTaskId(db.tasks, db.issuedTaskIds);
    var t := Task(args.title, args.description, Todo, args.priority, Some(args.assignedTo),
                  args.createdBy, args.dueDate, None, args.estimatedHours, None,
                  args.tags, args.category, now, now);
    Created(db.(tasks := db.tasks[id := t], issuedTaskIds := db.issuedTaskIds + {id}), id)
  }

  /** The task after a patch: supplied fields replaced, `updatedAt` refreshed. */
  function PatchTask(t: Task, p: TaskPatch, now: Millis): Task {
    t.(title := p.title.GetOr(t.title),
       description := p.description.GetOr(t.description),
       status := p.status.GetOr(t.status),
       assignedTo := if p.assignedTo.Some? then p.assignedTo else t.assignedTo,
       dueDate := if p.dueDate.Some? then p.dueDate else t.dueDate,
       priority := p.priority.GetOr(t.priority),
       estimatedHours := if p.estimatedHours.Some? then p.estimatedHours else t.estimatedHours,
       actualHours := if p.actualHours.Some? then p.actualHours else t.actualHours,
       tags := if p.tags.Some? then p.tags else t.tags,
       category := if p.category.Some? then p.category else t.category,
       completedAt := if p.completedAt.Some? then p.completedAt else t.completedAt,
       updatedAt := now)
  }

  /** `updateTask`: when the patch sets status completed, `completedAt` becomes
      `now` whatever the caller supplied; then the patch is applied and
      `updatedAt` stamped. The storage layer throws when the id is not stored. */
  function UpdateTask(db: Db, id: TaskId, p: TaskPatch, now: Millis): (r: Result<Db, Error>)
    ensures r.Failure? <==> id !in db.tasks
    ensures r.Failure? ==> r.error == NonexistentDocument
    ensures r.Success? ==> r.value.tasks.Keys == db.tasks.Keys
    ensures r.Success? ==>
      && (forall k :: k in db.tasks && k != id ==> r.value.tasks[k] == db.tasks[k])
      && r.value == db.(tasks := r.value.tasks)
    ensures r.Success? ==>
      var (t, t') := (db.tasks[id], r.value.tasks[id]);
      && (p.status == Some(Completed) ==> t'.completedAt == Some(now))
      && (p.status != Some(Completed) && p.completedAt.Some? ==> t'.completedAt == p.completedAt)
      && (p.status != Some(Completed) && p.completedAt.None? ==> t'.completedAt == t.completedAt)
      && t'.status == (if p.status.Some? then p.status.value else t.status)
      && t'.title == (if p.title.Some? then p.title.value else t.title)
      && t'.description == (if p.description.Some? then p.description.value else t.description)
      && t'.priority == (if p.priority.Some? then p.priority.value else t.priority)
      && t'.assignedTo == (if p.assignedTo.Some? then p.assignedTo else t.assignedTo)
      && t'.dueDate == (if p.dueDate.Some? then p.dueDate else t.dueDate)
      && t'.estimatedHours == (if p.estimatedHours.Some? then p.estimatedHours else t.estimatedHours)
      && t'.actualHours == (if p.actualHours.Some? then p.actualHours else t.actualHours)
      && t'.tags == (if p.tags.Some? then p.tags else t.tags)
      && t'.category == (if p.category.Some? then p.category else t.category)
      && t'.updatedAt == now
      && t'.createdBy == t.createdBy
      && t'.createdAt == t.createdAt
  {
    if id !in db.tasks then Failure(NonexistentDocument)
    else
      var updates := if p.status == Some(Completed) then p.(completedAt := Some(now)) else p;
      Success(db.(tasks := db.tasks[id := PatchTask(db.tasks[id], updates, now)]))
  }

  /** `deleteTask`: a hard delete of exactly that task. Nothing cascades, so the
      users, groups and groupTasks tables are untouched; the id stays recorded
      as handed out, so no later task receives it. The storage layer throws
      when the id is not stored. */
  function DeleteTask(db: Db, id: TaskId): (r: Result<Db, Error>)
    ensures r.Failure? <==> id !in db.tasks
    ensures r.Failure? ==> r.error == NonexistentDocument
    ensures r.Success? ==>
      && r.value.tasks.Keys == db.tasks.Keys - {id}
      && (forall k :: k in r.value.tasks ==> r.value.tasks[k] == db.tasks[k])
      && r.value.issuedTaskIds == db.issuedTaskIds + {id}
      && r.value == db.(tasks := r.value.tasks, issuedTaskIds := r.value.issuedTaskIds)
  {
    if id !in db.tasks then Failure(NonexistentDocument)
    else Success(db.(tasks := db.tasks - {id}, issuedTaskIds := db.issuedTaskIds + {id}))
  }

  /** `query("tasks").collect()`: every stored task with its id. */
  function Docs(db: Db): (r: set<TaskDoc>)
    ensures forall d :: d in r <==> d.id in db.tasks && db.tasks[d.id] == d.task
  {
    set id | id in db.tasks :: TaskDoc(id, db.tasks[id])
  }

  /** `getAllTasks`: every stored task, joined with its creator and its assignee
      (null when the task has none). */
  function GetAllTasks(db: Db): (r: set<TaskWithUsers>)
    ensures forall e :: e in r <==>
      && e.id in db.tasks && e.task == db.tasks[e.id]
      && JoinedAs(db.users, Some(e.task.createdBy), e.creator)
      && JoinedAs(db.users, e.task.assignedTo, e.assignee)
  {
    set id | id in db.tasks ::
      var t := db.tasks[id];
      TaskWithUsers(id, t, Get(db.users, t.createdBy), LookupAssignee(db.users, t))
  }

  /** `getTasksByAssignee(u)`: the tasks assigned to `u`, joined with their creator. */
  function GetTasksByAssignee(db: Db, u: UserId): (r: set<TaskWithCreator>)
    ensures forall e :: e in r <==>
      && e.id in db.tasks && e.task == db.tasks[e.id]
      && e.task.assignedTo == Some(u)
      && JoinedAs(db.users, Some(e.task.createdBy), e.creator)
  {
    set id | id in db.tasks && db.tasks[id].assignedTo == Some(u) ::
      TaskWithCreator(id, db.tasks[id], Get(db.users, db.tasks[id].createdBy))
  }

  /** `getTasksByCreator(u)`: the tasks `u` created, joined with their assignee
      (null when unassigned). */
  function GetTasksByCreator(db: Db, u: UserId): (r: set<TaskWithAssignee>)
    ensures forall e :: e in r <==>
      && e.id in db.tasks && e.task == db.tasks[e.id]
      && e.task.createdBy == u
      && JoinedAs(db.users, e.task.assignedTo, e.assignee)
  {
    set id | id in db.tasks && db.tasks[id].createdBy == u ::
      TaskWithAssignee(id, db.tasks[id], LookupAssignee(db.users, db.tasks[id]))
  }

  /** The by-status index query `getTasks` runs. */
  function TasksWithStatus(db: Db, status: Status): set<TaskDoc> {
    set d | d in Docs(db) && d.task.status == status
  }

  /** `getTasks(status)` AS WRITTEN: it runs the by-status query and then ends
      without returning it, so the handler yields no value (`undefined` from the
      handler, `null` at the client), modelled as `None`. */
  function GetTasks(db: Db, status: Status): (r: Option<set<TaskDoc>>)
    ensures r.None?
  {
    var tasks := TasksWithStatus(db, status);
    None
  }

  /** NOT WHAT THE CODE DOES: `getTasks(status)` as intended, returning the
      query's result, the stored tasks with that status. */
  function GetTasksIntended(db: Db, status: Status): (r: set<TaskDoc>)
    ensures forall d :: d in r <==> d.id in db.tasks && db.tasks[d.id] == d.task && d.task.status == status
  {
    TasksWithStatus(db, status)
  }

  /** A stored task with the asked status is lost by `getTasks` and returned by
      the intended version. */
  lemma GetTasksLosesMatches(db: Db, status: Status, id: TaskId)
    requires id in db.tasks && db.tasks[id].status == status
    ensures GetTasks(db, status) == None
    ensures TaskDoc(id, db.tasks[id]) in GetTasksIntended(db, status)
  {
  }

  /** The JavaScript value of `task.dueDate`. */
  function DueDateValue(t: Task): Js.Value {
    match t.dueDate
    case None => Js.Undefined
    case Some(d) => Js.Number(d)
  }

  /** The value of the overdue filter's expression
      `dueDate && dueDate < now && status !== "completed" && status !== "cancelled"`. */
  function OverdueExpression(t: Task, now: Millis): Js.Value {
    Js.And(Js.And(Js.And(DueDateValue(t),
                         Js.Bool(t.dueDate.Some? && t.dueDate.value < now)),
                  Js.Bool(t.status != Completed)),
           Js.Bool(t.status != Cancelled))
  }

  /** A task is overdue: it has a non-zero due date before `now` and is neither
      completed nor cancelled. (A due date of 0 is falsy in JavaScript.) */
  predicate IsOverdue(t: Task, now: Millis) {
    && t.dueDate.Some? && t.dueDate.value != 0 && t.dueDate.value < now
    && t.status != Completed && t.status != Cancelled
  }

  /** The overdue expression is truthy exactly for overdue tasks. */
  lemma OverdueExpressionMeans(t: Task, now: Millis)
    ensures Js.Truthy(OverdueExpression(t, now)) <==> IsOverdue(t, now)
  {
  }

  /** `overdueTasks` AS WRITTEN: the filter callback has a block body that
      evaluates the overdue expression and returns nothing, i.e. `undefined`,
      so `filter` keeps no task at all. */
  function OverdueTasks(db: Db, now: Millis): (r: set<TaskDoc>)
    ensures r == {}
  {
    var r := Js.Filter(Docs(db), (d: TaskDoc) => Js.DiscardedBy(OverdueExpression(d.task, now)));
    Js.FilterFalsyIsEmpty(Docs(db), (d: TaskDoc) => Js.DiscardedBy(OverdueExpression(d.task, now)));
    r
  }

  /** NOT WHAT THE CODE DOES: `overdueTasks` as intended, with the callback
      returning the overdue expression. */
  function OverdueTasksIntended(db: Db, now: Millis): (r: set<TaskDoc>)
    ensures forall d :: d in r <==> d.id in db.tasks && db.tasks[d.id] == d.task && IsOverdue(d.task, now)
  {
    var r := Js.Filter(Docs(db), (d: TaskDoc) => OverdueExpression(d.task, now));
    assert forall d :: d in Docs(db) ==> (Js.Truthy(OverdueExpression(d.task, now)) <==> IsOverdue(d.task, now));
    r
  }

  /** A stored overdue task is missing from `overdueTasks` and present in the
      intended result. */
  lemma OverdueTasksLosesOverdue(db: Db, now: Millis, id: TaskId)
    requires id in db.tasks && IsOverdue(db.tasks[id], now)
    ensures TaskDoc(id, db.tasks[id]) !in OverdueTasks(db, now)
    ensures TaskDoc(id, db.tasks[id]) in OverdueTasksIntended(db, now)
  {
  }

  /** `7 * 24 * 60 * 60 * 1000`: seven days in milliseconds. */
  const SevenDays: int := 7 * 24 * 60 * 60 * 1000

  /** The value of the due-soon filter's expression `dueDate && dueDate >= now &&
      dueDate <= sevenDaysFromNow && status !== "completed" && status !== "cancelled"`. */
  function DueSoonExpression(t: Task, now: Millis): Js.Value {
    Js.And(Js.And(Js.And(Js.And(DueDateValue(t),
                                Js.Bool(t.dueDate.Some? && t.dueDate.value >= now)),
                         Js.Bool(t.dueDate.Some? && t.dueDate.value <= now + SevenDays)),
                  Js.Bool(t.status != Completed)),
           Js.Bool(t.status != Cancelled))
  }

  /** A task is due soon: a non-zero due date in [now, now + 604800000 ms], and
      neither completed nor cancelled. */
  predicate IsDueSoon(t: Task, now: Millis) {
    && t.dueDate.Some? && t.dueDate.value != 0
    && now <= t.dueDate.value <= now + 604_800_000
    && t.status != Completed && t.status != Cancelled
  }

  /** The due-soon expression is truthy exactly for tasks due soon. */
  lemma DueSoonExpressionMeans(t: Task, now: Millis)
    ensures Js.Truthy(DueSoonExpression(t, now)) <==> IsDueSoon(t, now)
  {
  }

  /** `getTasksDueSoon` AS WRITTEN: the same missing `return` as in
      `overdueTasks`, so `filter` keeps no task at all. */
  function GetTasksDueSoon(db: Db, now: Millis): (r: set<TaskDoc>)
    ensures r == {}
  {
    var r := Js.Filter(Docs(db), (d: TaskDoc) => Js.DiscardedBy(DueSoonExpression(d.task, now)));
    Js.FilterFalsyIsEmpty(Docs(db), (d: TaskDoc) => Js.DiscardedBy(DueSoonExpression(d.task, now)));
    r
  }

  /** NOT WHAT THE CODE DOES: `getTasksDueSoon` as intended, with the callback
      returning the due-soon expression. */
  function GetTasksDueSoonIntended(db: Db, now: Millis): (r: set<TaskDoc>)
    ensures forall d :: d in r <==> d.id in db.tasks && db.tasks[d.id] == d.task && IsDueSoon(d.task, now)
  {
    var r := Js.Filter(Docs(db), (d: TaskDoc) => DueSoonExpression(d.task, now));
    assert forall d :: d in Docs(db) ==> (Js.Truthy(DueSoonExpression(d.task, now)) <==> IsDueSoon(d.task, now));
    r
  }

  /** A stored task due within the week is missing from `getTasksDueSoon` and
      present in the intended result. */
  lemma DueSoonLosesDueSoon(db: Db, now: Millis, id: TaskId)
    requires id in db.tasks && IsDueSoon(db.tasks[id], now)
    ensures TaskDoc(id, db.tasks[id]) !in GetTasksDueSoon(db, now)
    ensures TaskDoc(id, db.tasks[id]) in GetTasksDueSoonIntended(db, now)
  {
  }

  /** `getAllTasks` returns one row per stored task: its rows' ids are exactly
      the stored ids, and no id appears twice. */
  lemma GetAllTasksOnePerTask(db: Db)
    ensures (set e | e in GetAllTasks(db) :: e.id) == db.tasks.Keys
    ensures |GetAllTasks(db)| == |db.tasks|
  {
    var r := GetAllTasks(db);
    forall k | k in db.tasks.Keys
      ensures exists e :: e in r && e.id == k
    {
      var t := db.tasks[k];
      assert TaskWithUsers(k, t, Get(db.users, t.createdBy), LookupAssignee(db.users, t)) in r;
    }
    BijectionCardinality(r, db.tasks.Keys, (e: TaskWithUsers) => e.id);
  }

  /** `getTasksByAssignee(u)` returns one row per task assigned to `u`. */
  lemma ByAssigneeOnePerTask(db: Db, u: UserId)
    ensures |GetTasksByAssignee(db, u)| == |set id | id in db.tasks && db.tasks[id].assignedTo == Some(u)|
  {
    var r := GetTasksByAssignee(db, u);
    var ids := set id | id in db.tasks && db.tasks[id].assignedTo == Some(u);
    forall k | k in ids
      ensures exists e :: e in r && e.id == k
    {
      assert TaskWithCreator(k, db.tasks[k], Get(db.users, db.tasks[k].createdBy)) in r;
    }
    BijectionCardinality(r, ids, (e: TaskWithCreator) => e.id);
  }

  /** `getTasksByCreator(u)` returns one row per task `u` created. */
  lemma ByCreatorOnePerTask(db: Db, u: UserId)
    ensures |GetTasksByCreator(db, u)| == |set id | id in db.tasks && db.tasks[id].createdBy == u|
  {
    var r := GetTasksByCreator(db, u);
    var ids := set id | id in db.tasks && db.tasks[id].createdBy == u;
    forall k | k in ids
      ensures exists e :: e in r && e.id == k
    {
      assert TaskWithAssignee(k, db.tasks[k], LookupAssignee(db.users, db.tasks[k])) in r;
    }
    BijectionCardinality(r, ids, (e: TaskWithAssignee) => e.id);
  }

  /** The by-assignee view is the all-tasks view restricted to tasks assigned to
      `u`, with the assignee column dropped. */
  lemma ByAssigneeIsFilteredAll(db: Db, u: UserId)
    ensures GetTasksByAssignee(db, u)
         == set e | e in GetAllTasks(db) && e.task.assignedTo == Some(u) :: TaskWithCreator(e.id, e.task, e.creator)
  {
    var all := GetAllTasks(db);
    var projected := set e | e in all && e.task.assignedTo == Some(u) :: TaskWithCreator(e.id, e.task, e.creator);
    forall c | c in GetTasksByAssignee(db, u)
      ensures c in projected
    {
      var e := TaskWithUsers(c.id, c.task, c.creator, LookupAssignee(db.users, c.task));
      assert e in all;
    }
  }

  /** The by-creator view is the all-tasks view restricted to tasks `u` created,
      with the creator column dropped. */
  lemma ByCreatorIsFilteredAll(db: Db, u: UserId)
    ensures GetTasksByCreator(db, u)
         == set e | e in GetAllTasks(db) && e.task.createdBy == u :: TaskWithAssignee(e.id, e.task, e.assignee)
  {
    var all := GetAllTasks(db);
    var projected := set e | e in all && e.task.createdBy == u :: TaskWithAssignee(e.id, e.task, e.assignee);
    forall c | c in GetTasksByCreator(db, u)
      ensures c in projected
    {
      var e := TaskWithUsers(c.id, c.task, Get(db.users, c.task.createdBy), c.assignee);
      assert e in all;
    }
  }

  /** Completing a task at a time no earlier than its creation stamps a
      completion time no earlier than its creation time. */
  lemma CompletionAfterCreation(db: Db, id: TaskId, p: TaskPatch, now: Millis)
    requires id in db.tasks && db.tasks[id].createdAt <= now
    requires p.status == Some(Completed)
    ensures UpdateTask(db, id, p, now).Success?
    ensures var t' := UpdateTask(db, id, p, now).value.tasks[id];
      t'.completedAt.Some? && t'.createdAt <= t'.completedAt.value
  {
  }

  /** No status is terminal: a completed task can be reopened to todo, and a
      reopening patch that supplies no completion time leaves the stale one. */
  lemma ReopenKeepsCompletedAt(db: Db, id: TaskId, complete: TaskPatch, reopen: TaskPatch, t1: Millis, t2: Millis)
    requires id in db.tasks
    requires complete.status == Some(Completed)
    requires reopen.status == Some(Todo) && reopen.completedAt.None?
    ensures UpdateTask(db, id, complete, t1).Success?
    ensures var db1 := UpdateTask(db, id, complete, t1).value;
      && UpdateTask(db1, id, reopen, t2).Success?
      && UpdateTask(db1, id, reopen, t2).value.tasks[id].status == Todo
      && UpdateTask(db1, id, reopen, t2).value.tasks[id].completedAt == Some(t1)
  {
  }

  /** Deleting a task leaves every groupTasks row in place, including rows that
      referred to it, which now name no stored task. */
  lemma DeleteTaskLeavesGroupTasks(db: Db, id: TaskId, row: GroupTaskId)
    requires id in db.tasks
    requires row in db.groupTasks && db.groupTasks[row].taskId == id
    ensures DeleteTask(db, id).Success?
    ensures DeleteTask(db, id).value.groupTasks == db.groupTasks
    ensures DeleteTask(db, id).value.groupTasks[row].taskId !in DeleteTask(db, id).value.tasks
  {
  }

  /** After `deleteTask(id)`, `getAllTasks` has no row for that id. */
  lemma DeleteTaskHidesFromListing(db: Db, id: TaskId)
    requires id in db.tasks
    ensures DeleteTask(db, id).Success?
    ensures forall e :: e in GetAllTasks(DeleteTask(db, id).value) ==> e.id != id
  {
  }

  /** A task created after `deleteTask(id)` never receives `id`, so `updateTask`
      on the stale id keeps throwing. */
  lemma DeletedIdNeverReissued(db: Db, id: TaskId, args: NewTask, now: Millis, p: TaskPatch, later: Millis)
    requires id in db.tasks
    ensures DeleteTask(db, id).Success?
    ensures var c := CreateTask(DeleteTask(db, id).value, args, now);
      && c.id != id
      && UpdateTask(c.db, id, p, later) == Failure(NonexistentDocument)
  {
  }

  /** A groupTasks row that linked to a deleted task keeps naming no stored task
      after a later `createTask`. */
  lemma DanglingGroupTaskStaysDangling(db: Db, id: TaskId, args: NewTask, now: Millis, row: GroupTaskId)
    requires id in db.tasks
    requires row in db.groupTasks && db.groupTasks[row].taskId == id
    ensures DeleteTask(db, id).Success?
    ensures var c := CreateTask(DeleteTask(db, id).value, args, now);
      c.db.groupTasks[row].taskId !in c.db.tasks
  {
    DeletedIdNeverReissued(db, id, args, now, TaskPatch(None, None, None, None, None, None, None, None, None, None, None), now);
  }
}

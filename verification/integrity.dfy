/** References between tables. Tasks point at users by id, and nothing removes
    users: deactivation is a soft delete. So once every task's creator and
    assignee resolve, they keep resolving, and the joined views carry real user
    documents. Task deletion does not cascade to groupTasks rows. */
module Integrity {
  import opened Wrappers
  import opened Schema
  import opened Store
  import Users
  import Tasks

  /** Every task's creator, and its assignee when it has one, is a stored user. */
  predicate TaskRefsResolve(db: Db) {
    forall id :: id in db.tasks ==>
      && db.tasks[id].createdBy in db.users
      && (db.tasks[id].assignedTo.Some? ==> db.tasks[id].assignedTo.value in db.users)
  }

  /** Every groupTasks row names a stored task. */
  predicate GroupTaskRefsResolve(db: Db) {
    forall row :: row in db.groupTasks ==> db.groupTasks[row].taskId in db.tasks
  }

  /** Creating a user adds a user and changes no task. */
  lemma CreateUserKeepsRefs(db: Db, args: Users.NewUser, now: Millis)
    requires TaskRefsResolve(db)
    requires Users.CreateUser(db, args, now).Success?
    ensures TaskRefsResolve(Users.CreateUser(db, args, now).value.db)
  {
  }

  /** Patching a user keeps every user id. */
  lemma UpdateUserKeepsRefs(db: Db, id: UserId, p: Users.UserPatch, now: Millis)
    requires TaskRefsResolve(db)
    requires Users.UpdateUser(db, id, p, now).Success?
    ensures TaskRefsResolve(Users.UpdateUser(db, id, p, now).value)
  {
  }

  /** Deactivating a user keeps its document, so references to it still resolve. */
  lemma DeactivateUserKeepsRefs(db: Db, id: UserId, now: Millis)
    requires TaskRefsResolve(db)
    requires Users.DeactivateUser(db, id, now).Success?
    ensures TaskRefsResolve(Users.DeactivateUser(db, id, now).value)
  {
  }

  /** `createTask` does not check that its user ids exist; the new task resolves
      exactly when the caller passed stored users. */
  lemma CreateTaskKeepsRefs(db: Db, args: Tasks.NewTask, now: Millis)
    requires TaskRefsResolve(db)
    ensures TaskRefsResolve(Tasks.CreateTask(db, args, now).db)
        <==> args.createdBy in db.users && args.assignedTo in db.users
  {
    var c := Tasks.CreateTask(db, args, now);
    assert c.db.tasks[c.id].createdBy == args.createdBy;
  }

  /** `updateTask` keeps references resolving when any new assignee is a stored user. */
  lemma UpdateTaskKeepsRefs(db: Db, id: TaskId, p: Tasks.TaskPatch, now: Millis)
    requires TaskRefsResolve(db)
    requires Tasks.UpdateTask(db, id, p, now).Success?
    requires p.assignedTo.Some? ==> p.assignedTo.value in db.users
    ensures TaskRefsResolve(Tasks.UpdateTask(db, id, p, now).value)
  {
  }

  /** Deleting a task leaves the other tasks' references as they were. */
  lemma DeleteTaskKeepsRefs(db: Db, id: TaskId)
    requires TaskRefsResolve(db)
    requires Tasks.DeleteTask(db, id).Success?
    ensures TaskRefsResolve(Tasks.DeleteTask(db, id).value)
  {
  }

  /** Deleting a task that a groupTasks row links to leaves that row dangling. */
  lemma DeleteTaskBreaksGroupTaskRefs(db: Db, id: TaskId, row: GroupTaskId)
    requires id in db.tasks
    requires row in db.groupTasks && db.groupTasks[row].taskId == id
    ensures !GroupTaskRefsResolve(Tasks.DeleteTask(db, id).value)
  {
    Tasks.DeleteTaskLeavesGroupTasks(db, id, row);
  }

  /** When references resolve, every row of `getTasksByAssignee` carries the
      creator's document, and every row of `getAllTasks` carries the creator's
      document and, for an assigned task, the assignee's. */
  lemma ViewsCarryUsers(db: Db, u: UserId)
    requires TaskRefsResolve(db)
    ensures forall e :: e in Tasks.GetTasksByAssignee(db, u) ==>
      e.creator == Some(db.users[e.task.createdBy])
    ensures forall e :: e in Tasks.GetAllTasks(db) ==>
      && e.creator == Some(db.users[e.task.createdBy])
      && (e.task.assignedTo.Some? ==> e.assignee == Some(db.users[e.task.assignedTo.value]))
      && (e.task.assignedTo.None? ==> e.assignee.None?)
  {
  }

  /** A task reference that names no stored user keeps naming none after
      `createUser`: the new user never takes an id a task already names, so
      `getAllTasks` still joins a null creator or assignee there. */
  lemma CreateUserKeepsUnresolvedRefs(db: Db, args: Users.NewUser, now: Millis, k: TaskId)
    requires k in db.tasks
    requires Users.CreateUser(db, args, now).Success?
    ensures var db' := Users.CreateUser(db, args, now).value.db;
      && (db.tasks[k].createdBy !in db.users ==>
            forall e :: e in Tasks.GetAllTasks(db') && e.id == k ==> e.creator.None?)
      && (db.tasks[k].assignedTo.Some? && db.tasks[k].assignedTo.value !in db.users ==>
            forall e :: e in Tasks.GetAllTasks(db') && e.id == k ==> e.assignee.None?)
  {
  }
}

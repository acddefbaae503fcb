# Group task manager: data-access layer model

This project models the server side of a small group task manager: a user
directory and a task registry written as query and mutation handlers over a
document database with four tables (`users`, `tasks`, `groups`,
`groupTasks`). The database is modelled as one finite map per table, from
typed ids to immutable records, plus the set of task ids the tasks table has
ever handed out. Every handler but one is a pure function from a database
(and its arguments, and the current time `now`) to either a result or, for
mutations, a new database or the error the handler throws. A thrown error
commits nothing, so on `Failure` the database is the old one. The exception is
`getUserByEmail`, a method that may return any matching user, because which
match an index yields first is the index's business.

Modules:

- `Schema` (schema.dfy): record shapes and the status and priority enumerations.
  The datatypes carry the schema's constraints: a task's status is one of
  todo, in_progress, completed, cancelled and its priority one of low, medium,
  high, urgent; `createdBy` is required while `assignedTo`, `dueDate` and
  `completedAt` are optional; a user has a mandatory `isActive` and an
  optional `notifications`; a groupTasks row links one group id to one task id.
- `Store` (store.dfy): point lookup, the id an insert chooses (the least number
  that no stored document has; for tasks, one the table never handed out
  before; for users, one no task or group already names; contracts rely only
  on that freshness), the two errors, and a counting lemma for query results.
- `Js` (js.dfy): JavaScript truthiness, `&&`, and `Array.prototype.filter`.
- `Users` (users.dfy): `createUser`, `getUserByEmail`, `getUserById`,
  `updateUser`, `getAllUsers`, `deactivateUser`.
- `Tasks` (tasks.dfy): `createTask`, `getAllTasks`, `getTasksByAssignee`,
  `getTasksByCreator`, `getTasks`, `updateTask`, `deleteTask`, `overdueTasks`,
  `getTasksDueSoon`, the last three as written and as intended.
- `Integrity` (integrity.dfy): which operations keep task-to-user references
  resolving, and the dangling groupTasks rows a task deletion leaves.

Three queries are modelled as the code behaves. `getTasks` never returns its
query result, so it yields `undefined` (`None`). The `overdueTasks` and
`getTasksDueSoon` filter callbacks have block bodies without `return`, so they
yield `undefined` for every task; `Array.prototype.filter` keeps only elements
whose callback value is truthy, so both queries return an empty array. They do
not return an array of `undefined` entries as long as the task list, as one
reading of the code suggests: `filter` never returns values the callback
produced, only input elements. The intended versions are separate functions
whose names end in `Intended`; nothing else in the model uses the as-written
versions.

Patching or deleting an id that is not stored makes the storage layer throw;
the handlers do not check for it themselves. The model returns
`Failure(NonexistentDocument)` there and leaves the database unchanged.

## Model

| member | source | states |
|---|---|---|
| Schema.ParseStatus | convex/schema.ts:21-26 | the status validator accepts a string exactly when it is one of the four status literals, and yields that status |
| Schema.ParsePriority | convex/schema.ts:27-32 | the priority validator accepts a string exactly when it is one of the four priority literals, and yields that priority |
| Store.NewUserId | convex/users.ts:23-29 | an insert into users chooses an id no stored user has and no task or group names, so a reference that named no user cannot come to name the new one |
| Store.NewTaskId | convex/tasks.ts:23-28 | an insert into tasks chooses an id no stored task has and the table never handed out before |
| Store.Get | convex/users.ts:46 | a point lookup yields the stored document exactly when the id is stored, and nothing otherwise |
| Js.And | convex/tasks.ts:175-178 | `a && b` is truthy exactly when both operands are; it is the left operand when that one is falsy and the right operand otherwise |
| Js.Filter | convex/tasks.ts:174-179 | `filter` keeps exactly the input elements whose callback value is truthy |
| Js.DiscardedBy | convex/tasks.ts:174-179 | an arrow function whose block body has no `return` yields a falsy value (`undefined`) whatever its expression evaluates to |
| Js.FilterFalsyIsEmpty | convex/tasks.ts:174-179 | a callback that is never truthy, such as one returning `undefined`, makes `filter` keep nothing |
| Users.CreateUser | convex/users.ts:12-30 | throws exactly when some user, active or not, has the email; otherwise adds exactly one user, under an id no task or group names, with the caller's fields, notifications on, active, both timestamps `now`, and changes nothing else |
| Users.GetUserByEmail | convex/users.ts:33-41 | returns a stored user whose email matches, and nothing exactly when no stored user has that email |
| Users.GetUserById | convex/users.ts:43-48 | returns the stored document, active or not, and nothing exactly when the id is not stored |
| Users.UpdateUser | convex/users.ts:50-67 | each supplied profile field takes the given value and each absent one keeps its value; `updatedAt` becomes `now`; email, isActive and createdAt never change; no other user or table changes; throws exactly when the id is not stored |
| Users.GetAllUsers | convex/users.ts:69-76 | returns exactly the stored users with `isActive` true |
| Users.DeactivateUser | convex/users.ts:78-86 | sets `isActive` false and `updatedAt` to `now` and changes nothing else; the document stays; throws exactly when the id is not stored |
| Users.CreateUserKeepsEmailsUnique | convex/users.ts:13-29 | if no two users shared an email before `createUser`, none do after it, whether it succeeds or throws |
| Users.CreateUserThenLookup | convex/users.ts:13-39 | after a successful `createUser` the new user is the only one with that email, active, with notifications on |
| Users.CreateUserTwice | convex/users.ts:13-20 | a second `createUser` with the same email throws, and exactly one user with that email remains |
| Users.DeactivatedEmailStillTaken | convex/users.ts:13-20 | the duplicate check ignores `isActive`: a deactivated user's email still makes `createUser` throw |
| Users.UpdateUserKeepsEmailsUnique | convex/users.ts:50-65 | `updateUser` keeps emails unique, since it cannot change an email |
| Users.DeactivateUserKeepsEmailsUnique | convex/users.ts:78-85 | `deactivateUser` keeps emails unique, since it cannot change an email |
| Users.DeactivateHidesFromListing | convex/users.ts:43-84 | after `deactivateUser(id)`, `getAllUsers` has no entry for `id` while `getUserById(id)` still returns its document, now inactive, with the same email |
| Users.GetAllUsersOnePerActiveUser | convex/users.ts:69-76 | `getAllUsers` has exactly one entry per active user |
| Tasks.CreateTask | convex/tasks.ts:4-30 | adds exactly one task under an id never handed out before, with status todo, both timestamps `now`, every caller field copied, no completion time, records the id as handed out, and leaves existing tasks and other tables unchanged |
| Tasks.UpdateTask | convex/tasks.ts:119-160 | with status completed in the patch, `completedAt` becomes `now` whatever the caller supplied; otherwise it is the supplied one or the old one; every other supplied field is taken and every absent one kept; `updatedAt` becomes `now`; `createdBy` and `createdAt` never change; no other task or table changes; throws exactly when the id is not stored |
| Tasks.DeleteTask | convex/tasks.ts:162-167 | removes exactly the given task and leaves other tasks, users, groups and groupTasks unchanged; the id stays recorded as handed out; throws exactly when the id is not stored |
| Tasks.Docs | convex/tasks.ts:34 | collecting the tasks table yields exactly the stored tasks with their ids |
| Tasks.GetAllTasks | convex/tasks.ts:32-54 | returns every stored task joined with its creator's document and its assignee's, null when the task is unassigned or the user is not stored |
| Tasks.GetTasksByAssignee | convex/tasks.ts:56-76 | returns exactly the tasks assigned to the user, each joined with its creator's document |
| Tasks.GetTasksByCreator | convex/tasks.ts:78-100 | returns exactly the tasks the user created, each joined with its assignee's document, null when unassigned |
| Tasks.GetAllTasksOnePerTask | convex/tasks.ts:34-52 | `getAllTasks` has one row per stored task: its ids are the stored ids and no id repeats |
| Tasks.ByAssigneeOnePerTask | convex/tasks.ts:59-74 | `getTasksByAssignee(u)` has one row per task assigned to `u` |
| Tasks.ByCreatorOnePerTask | convex/tasks.ts:81-98 | `getTasksByCreator(u)` has one row per task `u` created |
| Tasks.ByAssigneeIsFilteredAll | convex/tasks.ts:37-74 | the by-assignee view equals the all-tasks view restricted to that assignee, without the assignee column |
| Tasks.ByCreatorIsFilteredAll | convex/tasks.ts:37-98 | the by-creator view equals the all-tasks view restricted to that creator, without the creator column |
| Tasks.GetTasks | convex/tasks.ts:102-117 | as written, returns no value for every status (`undefined` from the handler, `null` at the client) |
| Tasks.GetTasksIntended | convex/tasks.ts:111-115 | not the code's behaviour: the intended result, exactly the stored tasks with the given status |
| Tasks.GetTasksLosesMatches | convex/tasks.ts:111-116 | a stored task with the asked status is in the intended result while `getTasks` returns nothing |
| Tasks.OverdueExpressionMeans | convex/tasks.ts:175-178 | the overdue filter expression is truthy exactly when the due date is present, non-zero and before `now` and the task is neither completed nor cancelled |
| Tasks.OverdueTasks | convex/tasks.ts:169-181 | as written, always returns the empty list |
| Tasks.OverdueTasksIntended | convex/tasks.ts:171-179 | not the code's behaviour: exactly the stored overdue tasks |
| Tasks.OverdueTasksLosesOverdue | convex/tasks.ts:174-179 | a stored overdue task is in the intended result and not in `overdueTasks` |
| Tasks.DueSoonExpressionMeans | convex/tasks.ts:187-196 | the due-soon filter expression is truthy exactly when the due date is present, non-zero and within [now, now + 604800000] and the task is neither completed nor cancelled |
| Tasks.GetTasksDueSoon | convex/tasks.ts:184-199 | as written, always returns the empty list |
| Tasks.GetTasksDueSoonIntended | convex/tasks.ts:186-197 | not the code's behaviour: exactly the stored tasks due within seven days |
| Tasks.DueSoonLosesDueSoon | convex/tasks.ts:191-197 | a stored task due within the week is in the intended result and not in `getTasksDueSoon` |
| Tasks.CompletionAfterCreation | convex/tasks.ts:151-158 | completing a task at a time no earlier than its creation stamps a completion time no earlier than its creation time |
| Tasks.ReopenKeepsCompletedAt | convex/tasks.ts:149-158 | no status is terminal: a completed task can be set back to todo, and its completion time stays unless the patch supplies one |
| Tasks.DeleteTaskLeavesGroupTasks | convex/tasks.ts:162-166 | deleting a task keeps every groupTasks row, including those linking to it, which then name no stored task |
| Tasks.DeleteTaskHidesFromListing | convex/tasks.ts:162-166 | after `deleteTask(id)`, `getAllTasks` has no row for `id` |
| Tasks.DeletedIdNeverReissued | convex/tasks.ts:21-28 | a task created after `deleteTask(id)` never receives `id`, so `updateTask` on the stale id keeps throwing |
| Tasks.DanglingGroupTaskStaysDangling | convex/tasks.ts:162-166 | a groupTasks row that linked to a deleted task keeps naming no stored task after a later `createTask` |
| Integrity.CreateUserKeepsRefs | convex/users.ts:22-29 | creating a user keeps every task's creator and assignee resolvable |
| Integrity.UpdateUserKeepsRefs | convex/users.ts:59-65 | patching a user keeps every task's creator and assignee resolvable |
| Integrity.DeactivateUserKeepsRefs | convex/users.ts:80-84 | deactivation keeps the document, so every task's creator and assignee still resolve |
| Integrity.CreateTaskKeepsRefs | convex/tasks.ts:21-28 | `createTask` does not check its user ids: references stay resolvable exactly when the caller passed stored users |
| Integrity.UpdateTaskKeepsRefs | convex/tasks.ts:148-158 | `updateTask` keeps references resolvable when any new assignee is a stored user |
| Integrity.DeleteTaskKeepsRefs | convex/tasks.ts:162-166 | deleting a task keeps the remaining tasks' references resolvable |
| Integrity.DeleteTaskBreaksGroupTaskRefs | convex/tasks.ts:162-166 | deleting a task that a groupTasks row links to leaves a row naming no stored task |
| Integrity.CreateUserKeepsUnresolvedRefs | convex/tasks.ts:39-41 | a task creator or assignee that names no stored user still joins as null in `getAllTasks` after a `createUser` |
| Integrity.ViewsCarryUsers | convex/tasks.ts:37-74 | when references resolve, every `getTasksByAssignee` row carries its creator's document and every `getAllTasks` row its creator's and, when assigned, its assignee's |

## Left out

- The database runtime: indexes, query builders and `collect` are modelled by their results; indexes affect only speed.
- Result order: the code imposes no sort, so query results are sets of rows.
- Concurrency: the per-task lookups of the joined views run under `Promise.all`; the model reads one consistent database.
- The clock: `now` is a parameter; the two clock reads in `updateTask` are one `now`.
- Store.NewUserId, Store.NewTaskId: the real runtime chooses opaque id strings that nothing can name before they are issued; the model picks the least number that no stored document has, that for tasks was never handed out (deleted ids included), and that for users no task or group names, and only that freshness is promised.
- Users.GetUserByEmail: the by-email index breaks ties by creation time, so the code returns the oldest match; the model returns any match. The two differ only when emails repeat, which no modelled mutation brings about in a store whose emails are unique.
- The system fields `_id` and `_creationTime` of documents: query rows carry the id, not the creation time.
- `estimatedHours` and `actualHours`: floating-point values with no logic, carried as `real` and never interpreted.
- Tasks.DueSoonExpressionMeans: numbers are unbounded integers, so the floating-point rounding of `now + 7 * 24 * 60 * 60 * 1000` for huge timestamps is not modelled; due dates are integers, so NaN is not modelled either.
- Groups: the table is declared but no handler reads or writes it, so only its record shape is modelled.
- Error messages: a failure carries only which error it is.
- Argument validation beyond types: the id and literal validators are the typed arguments; a call with extra or malformed fields never reaches a handler.
- The presentation component: a placeholder with unused local state and no calls.

## Findings

| source | as written | input that shows it | evidently intended | confidence | as-written member | corrected member |
|---|---|---|---|---|---|---|
| convex/tasks.ts:111-116 | the handler runs the by-status query and ends without returning it | any store holding a task with status todo, queried with status todo: the caller gets no value (`undefined` from the handler, `null` at the client) | return the tasks with the given status | high; not executed | Tasks.GetTasks, Tasks.GetTasksLosesMatches | Tasks.GetTasksIntended |
| convex/tasks.ts:174-179 | the filter callback's block body evaluates the overdue expression and returns nothing, so `filter` keeps no task | a todo task with due date 1 queried at now = 2: the result is empty | return the expression, keeping the overdue tasks | high; not executed | Tasks.OverdueTasks, Tasks.OverdueTasksLosesOverdue | Tasks.OverdueTasksIntended |
| convex/tasks.ts:191-197 | the same missing `return` in the due-soon callback | a todo task with due date 2 queried at now = 1: the result is empty | return the expression, keeping tasks due within seven days | high; not executed | Tasks.GetTasksDueSoon, Tasks.DueSoonLosesDueSoon | Tasks.GetTasksDueSoonIntended |

# TaskManagementAPI back end in Dafny

This is a model of the service layer of the TaskManagementAPI ASP.NET Core back end. It covers:
- projects owned by users;
- tasks inside projects, each assigned to a user;
- an append-only history of comments on each task;
- a report for managers about completed tasks.

The EF Core `TaskManagementDbContext` becomes `Db.Store`, a class with one `seq` field per table and one counter per identity column. Its `Valid()` invariant holds the schema's rules:
- ids are keys and strictly increase;
- every foreign key names an existing row;
- every string fits its column;
- user e-mails are unique.

Every store method keeps `Valid()`. It either applies the change or, like `SaveChanges`, fails with a `DbFault` and changes nothing. Deletes follow the schema's rules:
- deleting a project cascades to its tasks, and deleting a task cascades to its history rows;
- a user row that a task or a history row still references cannot be deleted (restrict).

The three services (`TaskService`, `ProjectService`, `ReportService`) are module-level methods and functions over a `Store`:
- queries are functions;
- operations that insert, assign or delete are methods with `modifies db`.

Each store method and each service method that changes the store states the whole new state: all four tables and all four identity counters. An insert advances only its own table's counter, by one, and no other method touches a counter, so a deleted id is never handed out again. `Db.Store.Load` is a proof helper that installs a state already shown to keep the rules. The controllers (`TasksController`, `ProjectsController`, `ReportsController`) map a service answer or exception to an `Http.ActionResult`. `ServiceError` names the exception type, and its message is the text the controllers put after their "Erro ao ..." prefixes.

Modelling choices:
- The clock is a parameter `now: int` (seconds). One value is used for every `DateTime.UtcNow` read in a request.
- `Models/Task.cs` declares `Status` and `Priority` as strings, but the services assign and compare them as the `TaskStatus` and `TaskPriority` enums, and the schema stores them converted to int. The model uses the two enums. `CanDeleteProjectAsync` compares the status with the text "Completed", which the model reads as the enum member `Completed`.
- `[ApiController]` validates the data annotations of a request body before an action runs. `Domain.ValidCreateTask`, `ValidUpdateTask` and `ValidAddComment` model this. A request that breaks them gets `InvalidModel` (400) with no change.
- `[Required]` on a string is modelled as "not empty or white space". White space is ASCII white space.
- `new TaskResponseDto()` is `Domain.EmptyTaskResponse`. `AddTaskCommentAsync` returns it when the commenter is not the task's assignee, because it reads the task back under the commenter's id.
- LINQ `OrderBy` on history rows is a stable insertion sort by `CreatedAt`.

## Model

| member | source | states |
|---|---|---|
| Domain.StatusNameInjective | TaskManagementAPI/Models/Task.cs:5-11 | the four statuses print as four different names, so the status-change message of an update is never ambiguous |
| Domain.NewTask | TaskManagementAPI/Models/Task.cs:31-39 | a new task starts `Pending` with no `UpdatedAt`, and carries the given title, description, priority, due date, project, assignee and creation time |
| Domain.StatusName | TaskManagementAPI/Services/TaskService.cs:145 | every status prints as a non-empty name of at most 10 characters |
| Domain.PriorityName | TaskManagementAPI/Services/TaskService.cs:106 | every priority prints as a non-empty name of at most 6 characters |
| Domain.InsertByCreatedAt | TaskManagementAPI/Services/TaskService.cs:45 | inserting one entry into a chronological list gives a chronological list with exactly that entry added |
| Domain.OrderByCreatedAt | TaskManagementAPI/Services/TaskService.cs:39-45 | the history list is a permutation of the task's history rows, and it is non-decreasing by `CreatedAt` |
| Db.TaskIdUnique | TaskManagementAPI/Data/TaskManagementDbContext.cs:47 | in a table with increasing ids, a task id names exactly one row |
| Db.ProjectIdUnique | TaskManagementAPI/Data/TaskManagementDbContext.cs:33 | in a table with increasing ids, a project id names exactly one row |
| Db.AddUserKeepsRules | TaskManagementAPI/Data/TaskManagementDbContext.cs:24-27 | a user row that fits its columns and has a new e-mail keeps every rule of the schema, including unique e-mails |
| Db.WithoutUser | TaskManagementAPI/Data/TaskManagementDbContext.cs:37-41 | deleting a user keeps every identity counter; the user, its projects, their tasks and those tasks' history rows are what go |
| Db.RemoveUserKeepsRules | TaskManagementAPI/Data/TaskManagementDbContext.cs:37-82 | deleting an unreferenced user, with the cascade to that user's projects, their tasks and those tasks' history, keeps every rule of the schema |
| Db.AddProjectKeepsRules | TaskManagementAPI/Data/TaskManagementDbContext.cs:33-41 | a project row with the next id, fitting columns and an existing owner keeps every rule of the schema |
| Db.UpdateProjectKeepsRules | TaskManagementAPI/Data/TaskManagementDbContext.cs:33-41 | replacing a project row by one with the same id, fitting columns and an existing owner keeps every rule of the schema |
| Db.ProjectIdsUpdate | TaskManagementAPI/Data/TaskManagementDbContext.cs:33 | replacing a project row by one with the same key keeps the set of project ids |
| Db.RemoveProjectKeepsRules | TaskManagementAPI/Data/TaskManagementDbContext.cs:53-76 | deleting a project with its tasks and their history rows leaves no dangling foreign key |
| Db.AddTaskKeepsRules | TaskManagementAPI/Data/TaskManagementDbContext.cs:47-63 | a task row with the next id, fitting columns and an existing project and assignee keeps every rule of the schema |
| Db.TaskIdsUpdate | TaskManagementAPI/Data/TaskManagementDbContext.cs:47 | replacing a task row by one with the same key keeps the set of task ids |
| Db.RemoveTaskKeepsRules | TaskManagementAPI/Data/TaskManagementDbContext.cs:72-76 | deleting a task together with its history rows keeps every rule of the schema |
| Db.UpdateTaskKeepsRules | TaskManagementAPI/Data/TaskManagementDbContext.cs:48-63 | replacing a task row by one with the same id, fitting columns and existing references keeps every rule of the schema |
| Db.AddHistoryKeepsRules | TaskManagementAPI/Data/TaskManagementDbContext.cs:69-82 | a history row with the next id, a comment of at most 2000 characters and an existing task and author keeps every rule of the schema |
| Db.TaskRemovalIsExact | TaskManagementAPI/Services/TaskService.cs:172-173 | removing a task by id removes that one row and keeps every other row in order |
| Db.ProjectRemovalIsExact | TaskManagementAPI/Services/ProjectService.cs:126-127 | removing a project by id removes that one row and keeps every other row in order |
| Db.Store.constructor | TaskManagementAPI/Data/TaskManagementDbContext.cs:16-84 | an empty store satisfies the schema's rules |
| Db.Store.AddUser | TaskManagementAPI/Data/TaskManagementDbContext.cs:24-27 | the insert fails, with no change, exactly when a column is too long or the e-mail is already taken; otherwise the user is appended with the next id, the user counter advances by one, and nothing else changes |
| Db.Store.RemoveUser | TaskManagementAPI/Data/TaskManagementDbContext.cs:37-82 | a missing user gives false; a user still referenced by a task or a history row is refused (restrict); these are the only failures, and otherwise the user goes, with the cascade to that user's projects |
| Db.Store.ApplyUserRemoval | TaskManagementAPI/Data/TaskManagementDbContext.cs:37-41 | a user delete that no restrict rule blocks leaves exactly the tables without the user and its cascade |
| Db.Store.AddProject | TaskManagementAPI/Data/TaskManagementDbContext.cs:34-41 | the insert fails, with no change, exactly when a column is too long or the owner does not exist; otherwise the project is appended with the next id, the project counter advances by one, and nothing else changes |
| Db.Store.SaveProject | TaskManagementAPI/Data/TaskManagementDbContext.cs:34-41 | saving a changed project row fails exactly when it breaks a column length or its owner is missing; otherwise only that row changes, and no identity counter moves |
| Db.Store.RemoveProject | TaskManagementAPI/Data/TaskManagementDbContext.cs:53-57 | the project row goes, and so do exactly its tasks (cascade) and their history rows (cascade); nothing else changes, the identity counters included |
| Db.Store.AddTask | TaskManagementAPI/Data/TaskManagementDbContext.cs:48-63 | the insert fails, with no change, exactly when a column is too long or the project or the assignee is missing; otherwise the task is appended with the next id, the task counter advances by one, and nothing else changes |
| Db.Store.SaveTask | TaskManagementAPI/Data/TaskManagementDbContext.cs:48-63 | saving a changed task row fails exactly when it breaks a column or a reference; otherwise only that row changes, and no identity counter moves |
| Db.Store.RemoveTask | TaskManagementAPI/Data/TaskManagementDbContext.cs:72-76 | the task row goes, exactly that row, and so do exactly its history rows (cascade); users, projects and every identity counter stay as they were |
| Db.Store.AddHistory | TaskManagementAPI/Data/TaskManagementDbContext.cs:70-82 | the insert fails, with no change, exactly when the comment is longer than 2000 or the task or the author is missing; otherwise the row is appended with the next id, the history counter advances by one, and nothing else changes |
| Db.Store.UserName | TaskManagementAPI/Services/ProjectService.cs:84 | the name of the user with that id, and "" when no user has that id |
| Db.Store.ProjectName | TaskManagementAPI/Services/TaskService.cs:36 | the name of the project row with that id |
| Db.Store.HistoryDtoOf | TaskManagementAPI/Services/TaskService.cs:39-44 | a history entry copies the row's id, comment and time, with the name of its author |
| Db.Store.HistoryDtosOf | TaskManagementAPI/Services/TaskService.cs:39-44 | one entry per history row, in the same order, each the row's own entry |
| Db.Store.TaskCount | TaskManagementAPI/Services/ProjectService.cs:114 | the number of tasks whose `ProjectId` is the project; it is 0 exactly when the project has none |
| Db.Store.TaskHistories | TaskManagementAPI/Services/TaskService.cs:39-45 | exactly the task's history rows, one entry per row, each with its author's name, oldest first |
| Db.Store.ProjectDtoOf | TaskManagementAPI/Services/ProjectService.cs:23-33 | the project response copies the row, with the owner's name and the project's task count |
| TaskService.GetProjectTasks | TaskManagementAPI/Services/TaskService.cs:17-50 | one response per task with that project and that assignee, and a response for each such task |
| TaskService.GetProjectTasksRows | TaskManagementAPI/Services/TaskService.cs:19-45 | every listed task has the requested project and assignee, and its history is non-decreasing by `CreatedAt` |
| TaskService.GetTaskById | TaskManagementAPI/Services/TaskService.cs:52-85 | a response exists exactly when some task has both that id and that assignee; it is that task's response |
| TaskService.TaskResponseFacts | TaskManagementAPI/Services/TaskService.cs:60-81 | the task response copies the row, carries the names of its project and of its assignee row, and carries the whole history in time order |
| TaskService.GetTaskByIdFinds | TaskManagementAPI/Services/TaskService.cs:54-55 | every stored task is found under its own id and assignee |
| TaskService.OtherAssigneeFindsNothing | TaskManagementAPI/Services/TaskService.cs:54-55 | asking for a stored task under any user other than its assignee gives none |
| TaskService.CanCreateTask | TaskManagementAPI/Services/TaskService.cs:200-204 | true exactly when the project holds fewer than 20 tasks |
| TaskService.CreationComment | TaskManagementAPI/Services/TaskService.cs:106 | the creation comment names the priority and always fits the comment column |
| TaskService.NextTaskHasNoHistory | TaskManagementAPI/Data/TaskManagementDbContext.cs:72-76 | no history row refers to the id the next task will get |
| TaskService.LogCreation | TaskManagementAPI/Services/TaskService.cs:103-113 | the creation history row is appended, authored by the assignee, and becomes the new task's only history row |
| TaskService.SingleHistory | TaskManagementAPI/Services/TaskService.cs:39-45 | a task with one history row lists that row alone |
| TaskService.CreatedReadBack | TaskManagementAPI/Services/TaskService.cs:115 | reading back the task just appended finds it under its assignee, with its one history row as its whole history |
| TaskService.CreateTask | TaskManagementAPI/Services/TaskService.cs:87-116 | fails, with no change, exactly when the store refuses the row. Otherwise it appends exactly one task built as requested and exactly one history row "Tarefa criada com prioridade ...". No other table changes. The answer is what reading the task back gives, and its history is that one row |
| TaskService.UpdateChanges | TaskManagementAPI/Services/TaskService.cs:139-145 | at most three messages; the list is empty exactly when title, description and status are all unchanged |
| TaskService.ApplyUpdate | TaskManagementAPI/Services/TaskService.cs:130-134 | only title, description, status, due date and update time change; id, priority, project, assignee and creation time are kept |
| TaskService.ChangeMessagesBounded | TaskManagementAPI/Services/TaskService.cs:139-145 | with titles of at most 300 characters no change message is longer than 629 characters |
| Seqs.JoinSnoc | TaskManagementAPI/Services/TaskService.cs:151 | joining one more part appends the separator and that part to the earlier join, and a single part is joined to itself |
| TaskService.UpdateCommentFits | TaskManagementAPI/Services/TaskService.cs:147-158 | the update comment always fits the 2000-character comment column, so logging an update never fails |
| TaskService.TitleOnlyUpdate | TaskManagementAPI/Services/TaskService.cs:140-151 | when only the title changes, the comment is "Tarefa atualizada: Título alterado de 'old' para 'new'" |
| TaskService.CollectChanges | TaskManagementAPI/Services/TaskService.cs:139-145 | the list built one comparison at a time is the change list |
| TaskService.LogChanges | TaskManagementAPI/Services/TaskService.cs:147-159 | one history row "Tarefa atualizada: ..." joining the changes with ", " is appended when there are changes, and none otherwise |
| TaskService.UpdateTaskAt | TaskManagementAPI/Services/TaskService.cs:126-161 | the found row is replaced by its updated copy and the change summary is logged, or a refused save changes nothing. The answer is the task read back |
| TaskService.UpdateTask | TaskManagementAPI/Services/TaskService.cs:118-162 | a missing (id, assignee) pair gives none with no change. A save the store refuses fails with no change. Otherwise only that row is updated, exactly one history row is appended if and only if title, description or status differs, and the answer is the task read back |
| TaskService.UpdatesKeepCreationFields | TaskManagementAPI/DTOs/TaskDto.cs:27-40 | after any sequence of updates, a task still has the id, priority, project, assignee and creation time it was created with |
| TaskService.DeleteTask | TaskManagementAPI/Services/TaskService.cs:164-176 | true exactly when a task with that id and assignee exists; then exactly that row goes with its history rows, else nothing changes |
| TaskService.AddTaskComment | TaskManagementAPI/Services/TaskService.cs:178-198 | a missing task id gives ArgumentException "Tarefa não encontrada" with no change. A missing author or a comment over 2000 characters is refused by the store, with no change. A stored comment is appended under the given author. When the commenter is not the assignee the answer is the empty response |
| TaskService.AppendTaskCount | TaskManagementAPI/Services/TaskService.cs:202 | appending a task adds one to its own project's count and nothing to any other project's count |
| TaskService.AppendKeepsCap | TaskManagementAPI/Controllers/TasksController.cs:43 | appending into a project below 20 tasks keeps every project at 20 tasks or fewer |
| TaskService.CreateTaskIgnoresCap | TaskManagementAPI/Services/TaskService.cs:87-116 | appending to a project that already holds 20 tasks gives it 21 tasks, which is what the unguarded create does |
| TaskService.CreateTaskWithinCap | TaskManagementAPI/Controllers/TasksController.cs:43 | a full project is refused with InvalidOperationException and no change. Otherwise it succeeds exactly when the store accepts the row, and a refusal is the store's DbUpdateException with no change. On success it does what the unguarded create does: one task built as requested, its one creation history row, the task and history counters each advanced by one, and the answer that reading the task back gives. Every project stays at 20 tasks or fewer |
| ProjectService.GetUserProjects | TaskManagementAPI/Services/ProjectService.cs:17-37 | one response per project owned by the user and a response for each, with the project's task count |
| ProjectService.GetProjectById | TaskManagementAPI/Services/ProjectService.cs:39-59 | a response exists exactly when a project has both that id and that owner; it carries the project's task count |
| ProjectService.GetProjectByIdFinds | TaskManagementAPI/Services/ProjectService.cs:41-42 | every stored project is found under its own id and owner |
| ProjectService.OtherOwnerFindsNothing | TaskManagementAPI/Services/ProjectService.cs:41-42 | a project asked for under any user other than its owner gives none |
| ProjectService.CanDeleteProject | TaskManagementAPI/Services/ProjectService.cs:132-138 | true exactly when every task of the project is `Completed`, which includes a project without tasks and a missing project |
| ProjectService.NextProjectHasNoTasks | TaskManagementAPI/Services/ProjectService.cs:85 | no task refers to the id the next project will get, so a new project's count of 0 is its real count |
| ProjectService.CreateProject | TaskManagementAPI/Services/ProjectService.cs:61-87 | fails, with no change, exactly when the store refuses the row. Otherwise it appends exactly one project with the given name, description and owner, created now, and answers with task count 0 and the owner's name: what reading the project back gives |
| ProjectService.ApplyProjectUpdate | TaskManagementAPI/Services/ProjectService.cs:97-99 | only name, description and update time change; id, owner and creation time are kept |
| ProjectService.UpdateProject | TaskManagementAPI/Services/ProjectService.cs:89-116 | a missing (id, owner) pair gives none with no change. Otherwise only that row changes, and the answer carries a fresh task count: what reading the project back gives |
| ProjectService.DeleteProject | TaskManagementAPI/Services/ProjectService.cs:118-130 | true exactly when a project with that id and owner exists; then exactly that row goes, with its tasks and their history rows; tasks are not checked |
| ProjectService.DeleteProjectCascade | TaskManagementAPI/Data/TaskManagementDbContext.cs:53-76 | after a project delete, a history row is kept exactly when its task is kept |
| ReportService.IsManager | TaskManagementAPI/Services/ReportService.cs:46-50 | true exactly when a user with that id exists and has the role "Manager"; a missing user is not a manager |
| ReportService.CompletedCount | TaskManagementAPI/Services/ReportService.cs:32 | the count of the user's completed tasks in the window never exceeds the user's task count |
| ReportService.GetUserTaskReport | TaskManagementAPI/Services/ReportService.cs:17-44 | a non-manager gets UnauthorizedAccessException with no report. A manager gets one row per user of role "User", in table order, each row with its total and its average filled in by the loop |
| ReportService.ReportRowFacts | TaskManagementAPI/Services/ReportService.cs:27-41 | each row carries the user's id, name and e-mail, the report time, a total between 0 and the user's task count, and an average equal to the total over 30 |
| ReportService.ReportListsRegularUsers | TaskManagementAPI/Services/ReportService.cs:25-26 | a user is listed exactly when its role is "User"; managers never appear |
| ReportService.CompletedWindow | TaskManagementAPI/Services/ReportService.cs:23-32 | a task completed exactly 30 days ago counts; a task with no update time, or not completed, does not |
| ReportService.CompletingAddsOne | TaskManagementAPI/Services/ReportService.cs:32 | completing one more of a user's tasks now adds exactly one to that user's total |
| ReportsController.GetUserTaskReport | TaskManagementAPI/Controllers/ReportsController.cs:20-36 | 401 with the service's message exactly for non-managers, else 200 with the report rows |
| TasksController.GetProjectTasks | TaskManagementAPI/Controllers/TasksController.cs:22-26 | always 200 with the service's list: one entry per task of the project assigned to the user |
| TasksController.GetTask | TaskManagementAPI/Controllers/TasksController.cs:32-40 | 404 "Tarefa não encontrada" exactly when no task has that id and assignee, else 200 with exactly the service's answer for that task |
| TasksController.CreateResult | TaskManagementAPI/Controllers/TasksController.cs:53-66 | success gives 201 routed to the new task. InvalidOperationException gives 400 with its message. Any other exception gives 400 with "Erro ao criar tarefa: " and its message |
| TasksController.CreateTask | TaskManagementAPI/Controllers/TasksController.cs:46-67 | an invalid body gives 400 with no change. A valid one gives 201 exactly when the store accepts the task. A 201 appends exactly the requested task and its one creation history row "Tarefa criada com prioridade ...", advances only the task and history counters, leaves users and projects as they were, and its body is the new task's response, the one the GET route returns. Otherwise it gives 400 with the store's complaint and no change |
| TasksController.CreateTaskWithinCap | TaskManagementAPI/Controllers/TasksController.cs:43-67 | an invalid body gives 400 with no change, and a full project gives 400 with the cap message and no change. For a project below the cap, 201 comes exactly when the store accepts the task, and otherwise the answer is 400 "Erro ao criar tarefa: ..." with the store's complaint; anything but 201 changes nothing. A 201 appends exactly the requested task and its one creation history row, advances only the task and history counters, leaves users and projects as they were, adds one to the project's count, and its body is the new task's response, the one the GET route returns. Every project stays at 20 tasks or fewer |
| TasksController.UpdateResult | TaskManagementAPI/Controllers/TasksController.cs:77-91 | none gives 404 "Tarefa não encontrada" and a task gives 200. InvalidOperationException gives 400 with its message; any other exception gives 400 with "Erro ao atualizar tarefa: " |
| TasksController.UpdateTask | TaskManagementAPI/Controllers/TasksController.cs:73-92 | an invalid body gives 400 with no change; a missing pair gives 404 with no change. Otherwise it gives 200: the row gets the new title, description, status, due date and update time, one history row "Tarefa atualizada: ..." is logged exactly when something differs, nothing else changes, and the body is the updated task as read back |
| TasksController.DeleteTask | TaskManagementAPI/Controllers/TasksController.cs:98-113 | 204 exactly when a task with that id and assignee existed, after which exactly that task and exactly its history rows are gone and nothing else changes; otherwise 404 with no change |
| TasksController.CommentResult | TaskManagementAPI/Controllers/TasksController.cs:121-133 | success gives 200; ArgumentException gives 404 with its message; any other exception gives 400 with "Erro ao adicionar comentário: " |
| TasksController.AddTaskComment | TaskManagementAPI/Controllers/TasksController.cs:119-134 | an invalid body gives 400 with no change. A valid comment gets 200 exactly when the task and the author exist. A missing task gives 404 "Tarefa não encontrada", and a missing author gives 400; neither changes anything. A 200 appends exactly one history row, holding the given comment under the given author, with the next history id; nothing else changes but the history counter, and the body is the task as read back under the commenter, or the empty response when the commenter is not its assignee |
| ProjectsController.GetUserProjects | TaskManagementAPI/Controllers/ProjectsController.cs:22-26 | always 200 with the service's list: one entry per project the user owns |
| ProjectsController.GetProject | TaskManagementAPI/Controllers/ProjectsController.cs:32-40 | 404 "Projeto não encontrado" exactly when no project has that id and owner, else 200 with exactly the service's answer for that project |
| ProjectsController.CreateProject | TaskManagementAPI/Controllers/ProjectsController.cs:46-58 | 201 exactly when the store accepts the project, appending exactly the requested project with the next id, advancing only the project counter, with task count 0 and the body the GET route returns; otherwise 400 "Erro ao criar projeto: ..." with no change |
| ProjectsController.UpdateProject | TaskManagementAPI/Controllers/ProjectsController.cs:64-79 | 404 "Projeto não encontrado" exactly when no project has that id and owner. A refused save gives 400 "Erro ao atualizar projeto: ...", and no other answer is possible. Otherwise 200: only that row changes, to the new name, description and update time, and the body is what the GET route then returns |
| ProjectsController.DeleteProject | TaskManagementAPI/Controllers/ProjectsController.cs:85-105 | 400 "...existem tarefas pendentes" exactly when the project has a task that is not `Completed`, whoever asks. Otherwise 404 when the caller does not own such a project. Otherwise 204: exactly that project, its tasks and their history rows are removed and nothing else changes. Only a project whose tasks were all completed is ever removed |

## Left out

- Asynchrony, EF Core query translation, `Include` and navigation loading, and change tracking: each service call is one synchronous step on the tables.
- Everything outside the back end's services and controllers: the React front end, dependency injection and SQL Server wiring in `ServiceExtensions.cs`, and the service interfaces.
- `DateTime.UtcNow` is the parameter `now`, and one value serves every clock read of a request. `AddDays(-30)` is `now - 30 * 86400`.
- `AverageCompletedTasks` is a `double` in the source and `real` here. Rounding is not modelled.
- Concurrency: the race between a capacity check and an insert is not modelled.
- `[Required]` white space is ASCII white space; Unicode white space and Unicode semantics of strings are not modelled.
- Models/User.cs and DTOs/ProjectDto.cs are not part of this model. User rows carry the columns the schema configures. Project request bodies have no validation beyond the schema's length limits.
- ProjectService.CreateProject: the `user?.Name ?? string.Empty` fallback cannot produce "" in the model. The foreign key from project to user refuses a project whose owner is missing, so the refused insert comes first. The model still computes the name with `Db.Store.UserName`, which gives "" for a missing id.
- ReportService.GetUserTaskReport: `ReportDate` is the same `now` as the 30-day bound; the source reads the clock twice.
- DbUpdateException and SqlException texts: every refused save has the same `DbUpdateMessage`. The `DbFault` kind records the reason, but the text does not.
- TasksController.UpdateTask, TasksController.DeleteTask, ProjectsController.DeleteProject and ReportsController.GetUserTaskReport: the `catch (Exception)` branches for failures other than a refused save (a lost connection, for example) are not modelled. This includes ProjectsController.DeleteProject's `BadRequest("Erro ao excluir projeto: ...")` at ProjectsController.cs:101-104. The model's store cannot refuse a task delete, a project delete or the report's query, so these branches are unreachable in the model.
- TaskService.UpdateTask: a second save that fails after the first succeeded cannot happen in the model. The comment always fits, and the task and the author exist. Partial failure of the two-step update is therefore not modelled.
- Domain.OrderByCreatedAt: stability (equal timestamps keep table order) is how the function is built, but no lemma states it.
- The write-only column `Task.Priority` default "Medium" is not modelled, because the create always sets the priority from the request.

## Findings

| source | as written | input that shows it | evidently intended | confidence | as-written member | corrected member |
|---|---|---|---|---|---|---|
| TaskManagementAPI/Services/TaskService.cs:87-116 | `CreateTaskAsync` inserts without consulting `CanCreateTaskAsync`, and the endpoint (TaskManagementAPI/Controllers/TasksController.cs:46-67) does not consult it either | a project that already holds 20 tasks and a valid request for it: the project ends with 21 tasks | refuse with `InvalidOperationException` whose message contains "limite máximo de 20 tarefas", answered as 400 by the endpoint; this is what the endpoint's summary ("máximo 20 por projeto", line 43) and the repository's tests (TaskManagementAPI/TaskManagementAPI.Tests/Controllers/TasksControllerTests.cs:231, TaskManagementAPI/TaskManagementAPI.Tests/Services/TaskServiceTests.cs:172) expect | not executed | TaskService.CreateTaskIgnoresCap | TaskService.CreateTaskWithinCap |

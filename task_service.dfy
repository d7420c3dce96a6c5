/** The task service (Services/TaskService.cs): task queries filtered by assignee,
    creation with its automatic history row, update with a change summary,
    deletion, comments, and the per-project capacity check. */
module TaskService {
  import opened Wrappers
  import opened Seqs
  import opened Domain
  import opened Db

  const TaskNotFoundMessage := "Tarefa não encontrada"

  // ---------------------------------------------------------------- queries

  /** `GetProjectTasksAsync`: the tasks of a project that are assigned to `userId`,
      each with its history oldest first, in table order. */
  function GetProjectTasks(db: Store, projectId: int, userId: int): (r: seq<TaskResponseDto>)
    reads db
    ensures |r| == |Filter(db.tasks, AssignedIn(projectId, userId))|
    ensures forall t :: t in db.tasks && t.projectId == projectId && t.userId == userId ==> db.TaskDtoOf(t) in r
    ensures forall d :: d in r ==> exists t :: t in db.tasks && t.projectId == projectId && t.userId == userId && d == db.TaskDtoOf(t)
  {
    var ts := Filter(db.tasks, AssignedIn(projectId, userId));
    TaskDtosOfCovers(db, ts);
    TaskDtosOfFrom(db, ts);
    db.TaskDtosOf(ts)
  }

  /** The query's rows carry the requested project and assignee and a chronological history. */
  lemma GetProjectTasksRows(db: Store, projectId: int, userId: int)
    ensures forall d :: d in GetProjectTasks(db, projectId, userId) ==>
      d.projectId == projectId && d.userId == userId && Chronological(d.taskHistories)
  {
    forall d | d in GetProjectTasks(db, projectId, userId)
      ensures d.projectId == projectId && d.userId == userId && Chronological(d.taskHistories)
    {
      var t :| t in db.tasks && t.projectId == projectId && t.userId == userId && d == db.TaskDtoOf(t);
    }
  }

  /** `GetTaskByIdAsync`: the task with that id if it is assigned to `userId`. */
  function GetTaskById(db: Store, taskId: int, userId: int): (r: Option<TaskResponseDto>)
    reads db
    ensures r.Some? <==> exists t :: t in db.tasks && t.id == taskId && t.userId == userId
    ensures r.Some? ==> r.value.id == taskId && r.value.userId == userId && Chronological(r.value.taskHistories)
    ensures r.Some? ==> exists t :: t in db.tasks && t.id == taskId && r.value == db.TaskDtoOf(t)
  {
    match IndexWhere(db.tasks, TaskAssignedIs(taskId, userId))
    case Some(i) => Some(db.TaskDtoOf(db.tasks[i]))
    case None =>
      assert forall t :: t in db.tasks ==> !TaskAssignedIs(taskId, userId)(t);
      None
  }

  /** A task response copies the row's own fields and carries the names of the
      project and the assignee the row refers to, and the row's whole history. */
  lemma TaskResponseFacts(db: Store, t: Task)
    requires db.Valid() && t in db.tasks
    ensures var d := db.TaskDtoOf(t);
      && d.id == t.id && d.title == t.title && d.description == t.description && d.status == t.status
      && d.priority == t.priority && d.createdAt == t.createdAt && d.updatedAt == t.updatedAt
      && d.dueDate == t.dueDate && d.projectId == t.projectId && d.userId == t.userId
      && (exists p :: p in db.projects && p.id == t.projectId && d.projectName == p.name)
      && (exists u :: u in db.users && u.id == t.userId && d.userName == u.name)
      && |d.taskHistories| == |Filter(db.histories, OfTask(t.id))|
      && Chronological(d.taskHistories)
  {
    var p :| p in db.projects && p.id == t.projectId;
    var u :| u in db.users && u.id == t.userId;
  }

  /** The query finds a stored task under its own id and assignee. */
  lemma GetTaskByIdFinds(db: Store, i: nat)
    requires db.Valid() && i < |db.tasks|
    ensures GetTaskById(db, db.tasks[i].id, db.tasks[i].userId) == Some(db.TaskDtoOf(db.tasks[i]))
  {
    var t := db.tasks[i];
    forall k | 0 <= k < i ensures !TaskAssignedIs(t.id, t.userId)(db.tasks[k]) {
      assert TaskKey(db.tasks[k]) < TaskKey(db.tasks[i]);
    }
    IndexWhereIs(db.tasks, TaskAssignedIs(t.id, t.userId), i);
  }

  /** Asking for a task under any other user than its assignee finds nothing. */
  lemma OtherAssigneeFindsNothing(db: Store, i: nat, userId: int)
    requires db.Valid() && i < |db.tasks| && userId != db.tasks[i].userId
    ensures GetTaskById(db, db.tasks[i].id, userId) == None
  {
    TaskIdUnique(db.tasks, i);
  }

  /** `CanCreateTaskAsync`: the project holds fewer tasks than the cap. What the cap
      guarantees is proved by `AppendKeepsCap` and `CreateTaskWithinCap`. */
  function CanCreateTask(db: Store, projectId: int): (ok: bool)
    reads db
    ensures ok <==> |Filter(db.tasks, InProject(projectId))| < MaxTasksPerProject
  {
    db.TaskCount(projectId) < MaxTasksPerProject
  }

  // ---------------------------------------------------------------- create

  /** The comment of the history row written when a task is created. */
  function CreationComment(p: TaskPriority): (c: string)
    ensures 0 < |c| <= CommentMax
  {
    "Tarefa criada com prioridade " + PriorityName(p)
  }

  /** The entity `CreateTaskAsync` builds from its request, before the store assigns its id. */
  function TaskFromDto(d: CreateTaskDto, now: int): Task {
    NewTask(0, d.title, d.description, d.priority, d.dueDate, d.projectId, d.userId, now)
  }

  /** What the store demands of the new row: it fits its columns and its project and assignee exist. */
  predicate TaskInsertable(db: Tables, d: CreateTaskDto) {
    |d.title| <= TaskTitleMax && FitsOpt(d.description, TaskDescriptionMax)
    && d.projectId in ProjectIds(db.projects) && d.userId in UserIds(db.users)
  }

  /** A task that has just been given the next id has no history yet. */
  lemma NextTaskHasNoHistory(db: Store)
    requires db.Valid()
    ensures Filter(db.histories, OfTask(db.nextTaskId)) == []
  {
    forall h | h in db.histories ensures !OfTask(db.nextTaskId)(h) {
      var t :| t in db.tasks && t.id == h.taskId;
    }
    FilterNone(db.histories, OfTask(db.nextTaskId));
  }

  /** The creation history row of the task just inserted at the end of the table;
      it becomes that task's whole history. */
  method LogCreation(db: Store, priority: TaskPriority, now: int) returns (ghost hid: int)
    requires db.Valid() && |db.tasks| > 0
    requires Filter(db.histories, OfTask(db.tasks[|db.tasks| - 1].id)) == []
    modifies db
    ensures db.Valid() && db.tasks == old(db.tasks)
    ensures var t := db.tasks[|db.tasks| - 1];
      && hid == old(db.nextHistoryId)
      && db.histories == old(db.histories) + [TaskHistory(hid, CreationComment(priority), now, t.id, t.userId)]
      && db.users == old(db.users) && db.projects == old(db.projects)
      && db.Snapshot() == old(db.Snapshot()).(histories := db.histories, nextHistoryId := hid + 1)
      && Filter(db.histories, OfTask(t.id)) == [TaskHistory(hid, CreationComment(priority), now, t.id, t.userId)]
  {
    var t := db.tasks[|db.tasks| - 1];
    assert t in db.tasks;
    ghost var before := db.histories;
    var logged := db.AddHistory(TaskHistory(0, CreationComment(priority), now, t.id, t.userId));
    assert logged.Success?;
    hid := logged.value;
    FilterAppend(before, db.histories[|db.histories| - 1], OfTask(t.id));
  }

  /** A task with one history row shows that row alone. */
  lemma SingleHistory(db: Store, taskId: int)
    requires |Filter(db.histories, OfTask(taskId))| == 1
    ensures db.TaskHistories(taskId) == [db.HistoryDtoOf(Filter(db.histories, OfTask(taskId))[0])]
  {
    var rows := Filter(db.histories, OfTask(taskId));
    var hs := db.TaskHistories(taskId);
    assert hs[0] in hs;
    assert rows[0] in rows;
  }

  /** Reading back the task just appended finds it, with its one history row. */
  lemma CreatedReadBack(db: Store, h: TaskHistory)
    requires db.Valid() && |db.tasks| > 0
    requires Filter(db.histories, OfTask(db.tasks[|db.tasks| - 1].id)) == [h]
    ensures var t := db.tasks[|db.tasks| - 1];
      && GetTaskById(db, t.id, t.userId) == Some(db.TaskDtoOf(t))
      && db.TaskDtoOf(t).taskHistories == [db.HistoryDtoOf(h)]
  {
    GetTaskByIdFinds(db, |db.tasks| - 1);
    SingleHistory(db, db.tasks[|db.tasks| - 1].id);
  }

  /** `CreateTaskAsync`: insert the task, then its creation history row, then read it back.
      The capacity check is not called here. */
  method CreateTask(db: Store, dto: CreateTaskDto, now: int) returns (r: Result<TaskResponseDto, ServiceError>)
    requires db.Valid()
    modifies db
    ensures db.Valid()
    ensures r.Failure? <==> !TaskInsertable(old(db.Snapshot()), dto)
    ensures r.Failure? ==> r.error.DbUpdate? && unchanged(db)
    ensures r.Success? ==> (
      var id := old(db.nextTaskId);
      var hid := old(db.nextHistoryId);
      var t := NewTask(id, dto.title, dto.description, dto.priority, dto.dueDate, dto.projectId, dto.userId, now);
      && db.tasks == old(db.tasks) + [t]
      && db.histories == old(db.histories) + [TaskHistory(hid, CreationComment(dto.priority), now, id, dto.userId)]
      && db.users == old(db.users) && db.projects == old(db.projects)
      && db.nextUserId == old(db.nextUserId) && db.nextProjectId == old(db.nextProjectId)
      && db.nextTaskId == id + 1 && db.nextHistoryId == hid + 1
      && r.value == db.TaskDtoOf(t)
      && GetTaskById(db, id, dto.userId) == Some(r.value)
      && r.value.taskHistories == [TaskHistoryDto(hid, CreationComment(dto.priority), now, db.UserName(dto.userId))])
  {
    NextTaskHasNoHistory(db);
    var added := db.AddTask(TaskFromDto(dto, now));
    if added.Failure? {
      return Failure(DbUpdate(added.error));
    }
    var id := added.value;
    ghost var hid := LogCreation(db, dto.priority, now);
    CreatedReadBack(db, db.histories[|db.histories| - 1]);
    var found := GetTaskById(db, id, dto.userId);
    r := Success(if found.Some? then found.value else EmptyTaskResponse);
  }

  // ---------------------------------------------------------------- update

  /** The `changes` list of `UpdateTaskAsync`, field by field in the order title, description, status. */
  function UpdateChanges(t: Task, d: UpdateTaskDto): (cs: seq<string>)
    ensures |cs| <= 3
    ensures cs == [] <==> t.title == d.title && t.description == d.description && t.status == d.status
  {
    (if t.title != d.title then ["Título alterado de '" + t.title + "' para '" + d.title + "'"] else [])
    + (if t.description != d.description then ["Descrição atualizada"] else [])
    + (if t.status != d.status then ["Status alterado de " + StatusName(t.status) + " para " + StatusName(d.status)] else [])
  }

  /** The comment of the history row an update writes when something changed. */
  function UpdateComment(changes: seq<string>): string {
    "Tarefa atualizada: " + Join(changes, ", ")
  }

  /** The fields `UpdateTaskAsync` assigns to the tracked entity. */
  function ApplyUpdate(t: Task, d: UpdateTaskDto, now: int): (u: Task)
    ensures u.title == d.title && u.description == d.description && u.status == d.status
    ensures u.dueDate == d.dueDate && u.updatedAt == Some(now)
    ensures u.id == t.id && u.priority == t.priority && u.projectId == t.projectId
    ensures u.userId == t.userId && u.createdAt == t.createdAt
  {
    t.(title := d.title, description := d.description, status := d.status, dueDate := d.dueDate, updatedAt := Some(now))
  }

  /** No change message is longer than the title message with two 300-character titles. */
  lemma ChangeMessagesBounded(t: Task, d: UpdateTaskDto)
    requires |t.title| <= TaskTitleMax && |d.title| <= TaskTitleMax
    ensures forall x :: x in UpdateChanges(t, d) ==> |x| <= 629
  {
    var title := "Título alterado de '" + t.title + "' para '" + d.title + "'";
    var status := "Status alterado de " + StatusName(t.status) + " para " + StatusName(d.status);
    assert |title| <= 629;
    assert |status| <= 45;
    assert |"Descrição atualizada"| == 20;
    var cs := UpdateChanges(t, d);
    assert forall x :: x in cs ==> x == title || x == status || x == "Descrição atualizada";
  }

  /** `string.Join(", ", ...)` of parts of at most 629 characters. */
  lemma {:induction false} JoinLength(xs: seq<string>)
    requires forall x :: x in xs ==> |x| <= 629
    ensures |Join(xs, ", ")| <= 631 * |xs|
  {
    if |xs| > 1 {
      assert xs[0] in xs;
      assert forall x :: x in xs[1..] ==> x in xs;
      JoinLength(xs[1..]);
    } else if |xs| == 1 {
      assert xs[0] in xs;
    }
  }

  /** The update comment always fits the 2000-character comment column, so the
      history insert of an update cannot fail once the task row was saved. */
  lemma UpdateCommentFits(t: Task, d: UpdateTaskDto)
    requires |t.title| <= TaskTitleMax && |d.title| <= TaskTitleMax
    ensures |UpdateComment(UpdateChanges(t, d))| <= CommentMax
  {
    ChangeMessagesBounded(t, d);
    JoinLength(UpdateChanges(t, d));
  }

  /** A change of the title alone is summarised by the title message alone. */
  lemma TitleOnlyUpdate(t: Task, d: UpdateTaskDto)
    requires t.title != d.title && t.description == d.description && t.status == d.status
    ensures UpdateComment(UpdateChanges(t, d)) == "Tarefa atualizada: Título alterado de '" + t.title + "' para '" + d.title + "'"
  {
  }

  /** The history row an update writes: one summarising the changes, or none. */
  method LogChanges(db: Store, taskId: int, userId: int, changes: seq<string>, now: int)
    requires db.Valid()
    requires taskId in TaskIds(db.tasks) && userId in UserIds(db.users)
    requires |UpdateComment(changes)| <= CommentMax
    modifies db
    ensures db.Valid()
    ensures db.histories == old(db.histories) +
      (if changes == [] then [] else [TaskHistory(old(db.nextHistoryId), UpdateComment(changes), now, taskId, userId)])
    ensures db.users == old(db.users) && db.projects == old(db.projects) && db.tasks == old(db.tasks)
    ensures db.Snapshot() == old(db.Snapshot()).(histories := db.histories,
                                                 nextHistoryId := old(db.nextHistoryId) + (if changes == [] then 0 else 1))
  {
    if |changes| > 0 {
      var logged := db.AddHistory(TaskHistory(0, UpdateComment(changes), now, taskId, userId));
      assert logged.Success?;
    }
  }

  /** The `changes` list as `UpdateTaskAsync` builds it, one comparison at a time. */
  method CollectChanges(before: Task, dto: UpdateTaskDto) returns (changes: seq<string>)
    ensures changes == UpdateChanges(before, dto)
  {
    changes := [];
    if before.title != dto.title {
      changes := changes + ["Título alterado de '" + before.title + "' para '" + dto.title + "'"];
    }
    if before.description != dto.description {
      changes := changes + ["Descrição atualizada"];
    }
    if before.status != dto.status {
      changes := changes + ["Status alterado de " + StatusName(before.status) + " para " + StatusName(dto.status)];
    }
  }

  /** The part of `UpdateTaskAsync` after the lookup found the row at `i`. */
  method UpdateTaskAt(db: Store, i: nat, dto: UpdateTaskDto, now: int)
    returns (r: Result<Option<TaskResponseDto>, ServiceError>)
    requires db.Valid() && i < |db.tasks|
    modifies db
    ensures db.Valid()
    ensures var before := old(db.tasks)[i];
      var changes := UpdateChanges(before, dto);
      && (r.Failure? <==> !TaskFits(ApplyUpdate(before, dto, now)))
      && (r.Failure? ==> r.error.DbUpdate? && unchanged(db))
      && (r.Success? ==>
            && db.tasks == old(db.tasks)[i := ApplyUpdate(before, dto, now)]
            && db.histories == old(db.histories) +
                 (if changes == [] then [] else [TaskHistory(old(db.nextHistoryId), UpdateComment(changes), now, before.id, before.userId)])
            && db.users == old(db.users) && db.projects == old(db.projects)
            && db.Snapshot() == old(db.Snapshot()).(tasks := db.tasks, histories := db.histories,
                                                     nextHistoryId := old(db.nextHistoryId) + (if changes == [] then 0 else 1))
            && r.value == Some(db.TaskDtoOf(db.tasks[i]))
            && r.value == GetTaskById(db, before.id, before.userId))
  {
    var before := db.tasks[i];
    var fault := db.SaveTask(i, ApplyUpdate(before, dto, now));
    if fault.Some? {
      return Failure(DbUpdate(fault.value));
    }
    var changes := CollectChanges(before, dto);
    UpdateCommentFits(before, dto);
    assert db.tasks[i] in db.tasks;
    LogChanges(db, before.id, before.userId, changes, now);
    GetTaskByIdFinds(db, i);
    r := Success(GetTaskById(db, before.id, before.userId));
  }

  /** `UpdateTaskAsync`: look the task up under its assignee, assign the new fields and
      save, then log one history row summarising what changed, if anything did. */
  method UpdateTask(db: Store, taskId: int, dto: UpdateTaskDto, userId: int, now: int)
    returns (r: Result<Option<TaskResponseDto>, ServiceError>)
    requires db.Valid()
    modifies db
    ensures db.Valid()
    ensures var found := IndexWhere(old(db.tasks), TaskAssignedIs(taskId, userId));
      && (found.None? ==> r == Success(None) && unchanged(db))
      && (found.Some? ==>
            var i := found.value;
            var before := old(db.tasks)[i];
            var changes := UpdateChanges(before, dto);
            && (r.Failure? <==> !TaskFits(ApplyUpdate(before, dto, now)))
            && (r.Failure? ==> r.error.DbUpdate? && unchanged(db))
            && (r.Success? ==>
                  && db.tasks == old(db.tasks)[i := ApplyUpdate(before, dto, now)]
                  && db.histories == old(db.histories) +
                       (if changes == [] then [] else [TaskHistory(old(db.nextHistoryId), UpdateComment(changes), now, taskId, userId)])
                  && db.users == old(db.users) && db.projects == old(db.projects)
                  && db.Snapshot() == old(db.Snapshot()).(tasks := db.tasks, histories := db.histories,
                                                           nextHistoryId := old(db.nextHistoryId) + (if changes == [] then 0 else 1))
                  && r.value == Some(db.TaskDtoOf(db.tasks[i]))
                  && r.value == GetTaskById(db, taskId, userId)))
  {
    var found := IndexWhere(db.tasks, TaskAssignedIs(taskId, userId));
    if found.None? {
      return Success(None);
    }
    r := UpdateTaskAt(db, found.value, dto, now);
  }

  /** Updates never reach a task's priority, project, assignee or creation time: after
      any sequence of updates they are still those the task was created with. */
  function ApplyUpdates(t: Task, ds: seq<UpdateTaskDto>, times: seq<int>): Task
    requires |ds| == |times|
    decreases |ds|
  {
    if ds == [] then t else ApplyUpdates(ApplyUpdate(t, ds[0], times[0]), ds[1..], times[1..])
  }

  lemma {:induction false} UpdatesKeepCreationFields(t: Task, ds: seq<UpdateTaskDto>, times: seq<int>)
    requires |ds| == |times|
    decreases |ds|
    ensures var u := ApplyUpdates(t, ds, times);
      u.id == t.id && u.priority == t.priority && u.projectId == t.projectId
      && u.userId == t.userId && u.createdAt == t.createdAt
  {
    if ds != [] {
      UpdatesKeepCreationFields(ApplyUpdate(t, ds[0], times[0]), ds[1..], times[1..]);
    }
  }

  // ---------------------------------------------------------------- delete

  /** `DeleteTaskAsync`: remove the task if it is assigned to `userId`; its history goes with it. */
  method DeleteTask(db: Store, taskId: int, userId: int) returns (deleted: bool)
    requires db.Valid()
    modifies db
    ensures db.Valid()
    ensures deleted <==> exists t :: t in old(db.tasks) && t.id == taskId && t.userId == userId
    ensures !deleted ==> unchanged(db)
    ensures var found := IndexWhere(old(db.tasks), TaskAssignedIs(taskId, userId));
      found.Some? ==> db.tasks == old(db.tasks)[..found.value] + old(db.tasks)[found.value + 1..]
    ensures deleted ==> (
      && db.tasks == Filter(old(db.tasks), TaskIdNotIn({taskId}))
      && db.histories == Filter(old(db.histories), OfTaskNotIn({taskId}))
      && db.users == old(db.users) && db.projects == old(db.projects)
      && db.Snapshot() == old(db.Snapshot()).(tasks := db.tasks, histories := db.histories))
  {
    var found := IndexWhere(db.tasks, TaskAssignedIs(taskId, userId));
    if found.None? {
      return false;
    }
    db.RemoveTask(found.value);
    deleted := true;
  }

  // ---------------------------------------------------------------- comments

  /** `AddTaskCommentAsync`: the task is looked up by id alone; the comment is logged
      under the commenter, and the task is read back under the commenter, so a
      commenter who is not the assignee gets an empty response. */
  method AddTaskComment(db: Store, taskId: int, dto: AddTaskCommentDto, now: int)
    returns (r: Result<TaskResponseDto, ServiceError>)
    requires db.Valid()
    modifies db
    ensures db.Valid()
    ensures r == Failure(Argument(TaskNotFoundMessage)) <==> taskId !in old(TaskIds(db.tasks))
    ensures r.Failure? ==> unchanged(db) && (r.error == Argument(TaskNotFoundMessage) || r.error.DbUpdate?)
    ensures r.Failure? && r.error.DbUpdate? <==>
      taskId in old(TaskIds(db.tasks)) && (|dto.comment| > CommentMax || dto.userId !in old(UserIds(db.users)))
    ensures r.Success? ==> (
      && db.histories == old(db.histories) + [TaskHistory(old(db.nextHistoryId), dto.comment, now, taskId, dto.userId)]
      && db.users == old(db.users) && db.projects == old(db.projects) && db.tasks == old(db.tasks)
      && db.Snapshot() == old(db.Snapshot()).(histories := db.histories, nextHistoryId := old(db.nextHistoryId) + 1)
      && r.value == match GetTaskById(db, taskId, dto.userId)
                      case Some(d) => d
                      case None => EmptyTaskResponse)
    ensures r.Success? && (forall t :: t in db.tasks && t.id == taskId ==> t.userId != dto.userId) ==> r.value == EmptyTaskResponse
  {
    var found := IndexWhere(db.tasks, TaskIdIs(taskId));
    if found.None? {
      return Failure(Argument(TaskNotFoundMessage));
    }
    assert db.tasks[found.value] in db.tasks;
    var logged := db.AddHistory(TaskHistory(0, dto.comment, now, taskId, dto.userId));
    if logged.Failure? {
      return Failure(DbUpdate(logged.error));
    }
    var view := GetTaskById(db, taskId, dto.userId);
    r := Success(if view.Some? then view.value else EmptyTaskResponse);
  }

  // ---------------------------------------------------------------- the cap

  /** Appending a task adds one to its own project's count and nothing to any other. */
  lemma AppendTaskCount(ts: seq<Task>, t: Task, projectId: int)
    ensures |Filter(ts + [t], InProject(projectId))| ==
            |Filter(ts, InProject(projectId))| + (if t.projectId == projectId then 1 else 0)
  {
    FilterAppend(ts, t, InProject(projectId));
  }

  /** Every project holds at most `MaxTasksPerProject` tasks. */
  ghost predicate WithinCap(ts: seq<Task>) {
    forall p :: |Filter(ts, InProject(p))| <= MaxTasksPerProject
  }

  /** Appending into a project below the cap keeps every project within it. */
  lemma AppendKeepsCap(ts: seq<Task>, t: Task)
    requires WithinCap(ts) && |Filter(ts, InProject(t.projectId))| < MaxTasksPerProject
    ensures WithinCap(ts + [t])
  {
    forall p ensures |Filter(ts + [t], InProject(p))| <= MaxTasksPerProject {
      AppendTaskCount(ts, t, p);
    }
  }

  /** As written, `CreateTaskAsync` inserts into a project that is already full. */
  lemma CreateTaskIgnoresCap(ts: seq<Task>, t: Task)
    requires |Filter(ts, InProject(t.projectId))| == MaxTasksPerProject
    ensures |Filter(ts + [t], InProject(t.projectId))| == MaxTasksPerProject + 1
  {
    AppendTaskCount(ts, t, t.projectId);
  }

  const CapMessage := "O projeto atingiu o limite máximo de 20 tarefas"

  /** The create the endpoint's documentation promises: refuse with
      `InvalidOperationException` when `CanCreateTaskAsync` is false, else create. */
  method CreateTaskWithinCap(db: Store, dto: CreateTaskDto, now: int) returns (r: Result<TaskResponseDto, ServiceError>)
    requires db.Valid()
    modifies db
    ensures db.Valid()
    ensures WithinCap(old(db.tasks)) ==> WithinCap(db.tasks)
    ensures !old(CanCreateTask(db, dto.projectId)) ==> r == Failure(InvalidOperation(CapMessage)) && unchanged(db)
    ensures old(CanCreateTask(db, dto.projectId)) ==> (r.Success? <==> old(TaskInsertable(db.Snapshot(), dto)))
    ensures r.Failure? ==> unchanged(db) && (r.error.InvalidOperation? || r.error.DbUpdate?)
    ensures old(CanCreateTask(db, dto.projectId)) && r.Failure? ==> r.error.DbUpdate?
    ensures r.Success? ==> (
      var id := old(db.nextTaskId);
      var hid := old(db.nextHistoryId);
      var t := NewTask(id, dto.title, dto.description, dto.priority, dto.dueDate, dto.projectId, dto.userId, now);
      && db.tasks == old(db.tasks) + [t]
      && db.histories == old(db.histories) + [TaskHistory(hid, CreationComment(dto.priority), now, id, dto.userId)]
      && db.users == old(db.users) && db.projects == old(db.projects)
      && db.nextUserId == old(db.nextUserId) && db.nextProjectId == old(db.nextProjectId)
      && db.nextTaskId == id + 1 && db.nextHistoryId == hid + 1
      && db.TaskCount(dto.projectId) == old(db.TaskCount(dto.projectId)) + 1
      && r.value == db.TaskDtoOf(t)
      && GetTaskById(db, id, dto.userId) == Some(r.value)
      && r.value.taskHistories == [TaskHistoryDto(hid, CreationComment(dto.priority), now, db.UserName(dto.userId))])
  {
    if !CanCreateTask(db, dto.projectId) {
      return Failure(InvalidOperation(CapMessage));
    }
    ghost var before := db.tasks;
    r := CreateTask(db, dto, now);
    if r.Success? {
      var t := db.tasks[|db.tasks| - 1];
      assert db.tasks == before + [t];
      AppendTaskCount(before, t, dto.projectId);
      if WithinCap(before) {
        AppendKeepsCap(before, t);
      }
    }
  }
}

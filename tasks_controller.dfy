/** The task endpoints (Controllers/TasksController.cs): each calls the task
    service and translates its answer and its exceptions into an HTTP result.
    `[ApiController]` validates the request body before the action runs. */
module TasksController {
  import opened Wrappers
  import opened Seqs
  import opened Domain
  import opened Db
  import opened Http
  import TS = TaskService

  /** `GET api/tasks/project/{projectId}/user/{userId}`: always 200. */
  function GetProjectTasks(db: Store, projectId: int, userId: int): (res: ActionResult<seq<TaskResponseDto>>)
    reads db
    ensures res == Ok(TS.GetProjectTasks(db, projectId, userId))
    ensures res.Ok? && |res.value| == |Filter(db.tasks, AssignedIn(projectId, userId))|
  {
    Ok(TS.GetProjectTasks(db, projectId, userId))
  }

  /** `GET api/tasks/{taskId}/user/{userId}`: 404 unless the task exists and is assigned to the user. */
  function GetTask(db: Store, taskId: int, userId: int): (res: ActionResult<TaskResponseDto>)
    reads db
    ensures res.Ok? || res == NotFound(TS.TaskNotFoundMessage)
    ensures res.Ok? <==> exists t :: t in db.tasks && t.id == taskId && t.userId == userId
    ensures res.Ok? ==> res.value.id == taskId && res.value.userId == userId
    ensures res.Ok? ==> Some(res.value) == TS.GetTaskById(db, taskId, userId)
  {
    match TS.GetTaskById(db, taskId, userId)
    case Some(d) => Ok(d)
    case None => NotFound(TS.TaskNotFoundMessage)
  }

  /** The `catch` clauses of `CreateTask`. */
  function CreateResult(r: Result<TaskResponseDto, ServiceError>): (res: ActionResult<TaskResponseDto>)
    ensures r.Success? ==> res == Created(r.value.id, r.value.userId, r.value)
    ensures r.Failure? && r.error.InvalidOperation? ==> res == BadRequest(r.error.message)
    ensures r.Failure? && !r.error.InvalidOperation? ==> res == BadRequest("Erro ao criar tarefa: " + ErrorMessage(r.error))
  {
    match r
    case Success(d) => Created(d.id, d.userId, d)
    case Failure(InvalidOperation(m)) => BadRequest(m)
    case Failure(e) => BadRequest("Erro ao criar tarefa: " + ErrorMessage(e))
  }

  /** `POST api/tasks`, as written: the service is called without the capacity check. */
  method CreateTask(db: Store, dto: CreateTaskDto, now: int) returns (res: ActionResult<TaskResponseDto>)
    requires db.Valid()
    modifies db
    ensures db.Valid()
    ensures !ValidCreateTask(dto) ==> res == InvalidModel && unchanged(db)
    ensures ValidCreateTask(dto) ==> (res.Created? <==> old(TS.TaskInsertable(db.Snapshot(), dto)))
    ensures ValidCreateTask(dto) && !res.Created? ==> res == BadRequest("Erro ao criar tarefa: " + DbUpdateMessage) && unchanged(db)
    ensures res.Created? ==> (
      var id := old(db.nextTaskId);
      var hid := old(db.nextHistoryId);
      var t := NewTask(id, dto.title, dto.description, dto.priority, dto.dueDate, dto.projectId, dto.userId, now);
      && res.routeId == id && res.routeUserId == dto.userId
      && db.tasks == old(db.tasks) + [t]
      && db.histories == old(db.histories) + [TaskHistory(hid, TS.CreationComment(dto.priority), now, id, dto.userId)]
      && db.users == old(db.users) && db.projects == old(db.projects)
      && db.nextUserId == old(db.nextUserId) && db.nextProjectId == old(db.nextProjectId)
      && db.nextTaskId == id + 1 && db.nextHistoryId == hid + 1
      && res.value == db.TaskDtoOf(t)
      && Some(res.value) == TS.GetTaskById(db, res.routeId, res.routeUserId))
  {
    if !ValidCreateTask(dto) {
      return InvalidModel;
    }
    var r := TS.CreateTask(db, dto, now);
    if r.Success? {
      assert r.value.id == old(db.nextTaskId) && r.value.userId == dto.userId;
    }
    res := CreateResult(r);
  }

  /** `POST api/tasks` as its documentation promises it ("at most 20 per project"):
      a full project is refused with the service's `InvalidOperationException`,
      whose message the endpoint returns as a 400. */
  method CreateTaskWithinCap(db: Store, dto: CreateTaskDto, now: int) returns (res: ActionResult<TaskResponseDto>)
    requires db.Valid()
    modifies db
    ensures db.Valid()
    ensures TS.WithinCap(old(db.tasks)) ==> TS.WithinCap(db.tasks)
    ensures !ValidCreateTask(dto) ==> res == InvalidModel && unchanged(db)
    ensures ValidCreateTask(dto) && old(db.TaskCount(dto.projectId)) >= MaxTasksPerProject ==>
      res == BadRequest(TS.CapMessage) && unchanged(db)
    ensures ValidCreateTask(dto) && old(db.TaskCount(dto.projectId)) < MaxTasksPerProject ==>
      (res.Created? <==> old(TS.TaskInsertable(db.Snapshot(), dto)))
    ensures ValidCreateTask(dto) && old(db.TaskCount(dto.projectId)) < MaxTasksPerProject && !res.Created? ==>
      res == BadRequest("Erro ao criar tarefa: " + DbUpdateMessage)
    ensures !res.Created? ==> unchanged(db)
    ensures res.Created? ==> (
      var id := old(db.nextTaskId);
      var hid := old(db.nextHistoryId);
      var t := NewTask(id, dto.title, dto.description, dto.priority, dto.dueDate, dto.projectId, dto.userId, now);
      && res.routeId == id && res.routeUserId == dto.userId
      && db.tasks == old(db.tasks) + [t]
      && db.histories == old(db.histories) + [TaskHistory(hid, TS.CreationComment(dto.priority), now, id, dto.userId)]
      && db.users == old(db.users) && db.projects == old(db.projects)
      && db.nextUserId == old(db.nextUserId) && db.nextProjectId == old(db.nextProjectId)
      && db.nextTaskId == id + 1 && db.nextHistoryId == hid + 1
      && res.value == db.TaskDtoOf(t)
      && old(db.TaskCount(dto.projectId)) < MaxTasksPerProject
      && db.TaskCount(dto.projectId) == old(db.TaskCount(dto.projectId)) + 1
      && Some(res.value) == TS.GetTaskById(db, res.routeId, res.routeUserId))
  {
    if !ValidCreateTask(dto) {
      return InvalidModel;
    }
    var r := TS.CreateTaskWithinCap(db, dto, now);
    if r.Success? {
      assert r.value.id == old(db.nextTaskId) && r.value.userId == dto.userId;
    } else if old(db.TaskCount(dto.projectId)) < MaxTasksPerProject {
      assert r.error.DbUpdate?;
    }
    res := CreateResult(r);
  }

  /** The `catch` clauses and the null check of `UpdateTask`. */
  function UpdateResult(r: Result<Option<TaskResponseDto>, ServiceError>): (res: ActionResult<TaskResponseDto>)
    ensures r == Success(None) ==> res == NotFound(TS.TaskNotFoundMessage)
    ensures r.Success? && r.value.Some? ==> res == Ok(r.value.value)
    ensures r.Failure? && r.error.InvalidOperation? ==> res == BadRequest(r.error.message)
    ensures r.Failure? && !r.error.InvalidOperation? ==> res == BadRequest("Erro ao atualizar tarefa: " + ErrorMessage(r.error))
  {
    match r
    case Success(None) => NotFound(TS.TaskNotFoundMessage)
    case Success(Some(d)) => Ok(d)
    case Failure(InvalidOperation(m)) => BadRequest(m)
    case Failure(e) => BadRequest("Erro ao atualizar tarefa: " + ErrorMessage(e))
  }

  /** `PUT api/tasks/{taskId}/user/{userId}`. */
  method UpdateTask(db: Store, taskId: int, userId: int, dto: UpdateTaskDto, now: int) returns (res: ActionResult<TaskResponseDto>)
    requires db.Valid()
    modifies db
    ensures db.Valid()
    ensures !ValidUpdateTask(dto) ==> res == InvalidModel && unchanged(db)
    ensures ValidUpdateTask(dto) ==> (
      var found := IndexWhere(old(db.tasks), TaskAssignedIs(taskId, userId));
      && (found.None? <==> res == NotFound(TS.TaskNotFoundMessage))
      && (found.None? ==> unchanged(db))
      && (found.Some? ==>
            var before := old(db.tasks)[found.value];
            var changes := TS.UpdateChanges(before, dto);
            && res.Ok?
            && db.tasks == old(db.tasks)[found.value := TS.ApplyUpdate(before, dto, now)]
            && db.histories == old(db.histories) +
                 (if changes == [] then []
                  else [TaskHistory(old(db.nextHistoryId), TS.UpdateComment(changes), now, taskId, userId)])
            && db.Snapshot() == old(db.Snapshot()).(tasks := db.tasks, histories := db.histories,
                                                     nextHistoryId := old(db.nextHistoryId) + (if changes == [] then 0 else 1))
            && Some(res.value) == TS.GetTaskById(db, taskId, userId)))
  {
    if !ValidUpdateTask(dto) {
      return InvalidModel;
    }
    var r := TS.UpdateTask(db, taskId, dto, userId, now);
    res := UpdateResult(r);
  }

  /** `DELETE api/tasks/{taskId}/user/{userId}`: 404 unless the task is the user's, else 204. */
  method DeleteTask(db: Store, taskId: int, userId: int) returns (res: ActionResult<()>)
    requires db.Valid()
    modifies db
    ensures db.Valid()
    ensures res == NoContent || res == NotFound(TS.TaskNotFoundMessage)
    ensures res == NoContent <==> exists t :: t in old(db.tasks) && t.id == taskId && t.userId == userId
    ensures res.NotFound? ==> unchanged(db)
    ensures res == NoContent ==> forall t :: t in db.tasks ==> t.id != taskId
    ensures res == NoContent ==> (
      && db.tasks == Filter(old(db.tasks), TaskIdNotIn({taskId}))
      && db.histories == Filter(old(db.histories), OfTaskNotIn({taskId}))
      && db.Snapshot() == old(db.Snapshot()).(tasks := db.tasks, histories := db.histories))
  {
    var deleted := TS.DeleteTask(db, taskId, userId);
    if !deleted {
      return NotFound(TS.TaskNotFoundMessage);
    }
    res := NoContent;
  }

  /** The `catch` clauses of `AddTaskComment`. */
  function CommentResult(r: Result<TaskResponseDto, ServiceError>): (res: ActionResult<TaskResponseDto>)
    ensures r.Success? ==> res == Ok(r.value)
    ensures r.Failure? && r.error.Argument? ==> res == NotFound(r.error.message)
    ensures r.Failure? && !r.error.Argument? ==> res == BadRequest("Erro ao adicionar comentário: " + ErrorMessage(r.error))
  {
    match r
    case Success(d) => Ok(d)
    case Failure(Argument(m)) => NotFound(m)
    case Failure(e) => BadRequest("Erro ao adicionar comentário: " + ErrorMessage(e))
  }

  /** `POST api/tasks/{taskId}/comments`. */
  method AddTaskComment(db: Store, taskId: int, dto: AddTaskCommentDto, now: int) returns (res: ActionResult<TaskResponseDto>)
    requires db.Valid()
    modifies db
    ensures db.Valid()
    ensures !ValidAddComment(dto) ==> res == InvalidModel && unchanged(db)
    ensures ValidAddComment(dto) ==> (
      && (res.Ok? <==> taskId in old(TaskIds(db.tasks)) && dto.userId in old(UserIds(db.users)))
      && (res == NotFound(TS.TaskNotFoundMessage) <==> taskId !in old(TaskIds(db.tasks)))
      && (res.BadRequest? <==> taskId in old(TaskIds(db.tasks)) && dto.userId !in old(UserIds(db.users)))
      && (res.BadRequest? ==> res.message == "Erro ao adicionar comentário: " + DbUpdateMessage)
      && (res.Ok? ==>
            && db.histories == old(db.histories) + [TaskHistory(old(db.nextHistoryId), dto.comment, now, taskId, dto.userId)]
            && db.Snapshot() == old(db.Snapshot()).(histories := db.histories, nextHistoryId := old(db.nextHistoryId) + 1)
            && res.value == match TS.GetTaskById(db, taskId, dto.userId)
                              case Some(d) => d
                              case None => EmptyTaskResponse))
    ensures !res.Ok? ==> unchanged(db)
  {
    if !ValidAddComment(dto) {
      return InvalidModel;
    }
    var r := TS.AddTaskComment(db, taskId, dto, now);
    res := CommentResult(r);
  }
}

/** The project endpoints (Controllers/ProjectsController.cs). */
module ProjectsController {
  import opened Wrappers
  import opened Seqs
  import opened Domain
  import opened Db
  import opened Http
  import PS = ProjectService

  const ProjectNotFoundMessage := "Projeto não encontrado"
  const PendingTasksMessage := "Não é possível excluir o projeto pois existem tarefas pendentes"

  /** `GET api/projects/user/{userId}`: always 200. */
  function GetUserProjects(db: Store, userId: int): (res: ActionResult<seq<ProjectResponseDto>>)
    reads db
    ensures res == Ok(PS.GetUserProjects(db, userId))
    ensures res.Ok? && |res.value| == |Filter(db.projects, OwnedBy(userId))|
  {
    Ok(PS.GetUserProjects(db, userId))
  }

  /** `GET api/projects/{projectId}/user/{userId}`: 404 unless the user owns the project. */
  function GetProject(db: Store, projectId: int, userId: int): (res: ActionResult<ProjectResponseDto>)
    reads db
    ensures res.Ok? || res == NotFound(ProjectNotFoundMessage)
    ensures res.Ok? <==> exists p :: p in db.projects && p.id == projectId && p.userId == userId
    ensures res.Ok? ==> res.value.id == projectId && res.value.userId == userId
    ensures res.Ok? ==> Some(res.value) == PS.GetProjectById(db, projectId, userId)
  {
    match PS.GetProjectById(db, projectId, userId)
    case Some(d) => Ok(d)
    case None => NotFound(ProjectNotFoundMessage)
  }

  /** `POST api/projects`: 201 with the new project, or 400 with the store's complaint. */
  method CreateProject(db: Store, dto: CreateProjectDto, now: int) returns (res: ActionResult<ProjectResponseDto>)
    requires db.Valid()
    modifies db
    ensures db.Valid()
    ensures res.Created? || res == BadRequest("Erro ao criar projeto: " + DbUpdateMessage)
    ensures res.Created? <==> ProjectFits(PS.ProjectFromDto(dto, now)) && dto.userId in old(UserIds(db.users))
    ensures res.BadRequest? ==> unchanged(db)
    ensures res.Created? ==> (
      && res.routeId == old(db.nextProjectId) && res.routeUserId == dto.userId
      && res.value.taskCount == 0
      && db.projects == old(db.projects) + [Project(res.routeId, dto.name, dto.description, now, None, dto.userId)]
      && db.Snapshot() == old(db.Snapshot()).(projects := db.projects, nextProjectId := res.routeId + 1)
      && res.value == ProjectResponseDto(res.routeId, dto.name, dto.description, now, None, dto.userId,
                                         db.UserName(dto.userId), 0)
      && Some(res.value) == PS.GetProjectById(db, res.routeId, res.routeUserId))
  {
    var r := PS.CreateProject(db, dto, now);
    match r
    case Success(d) => res := Created(d.id, d.userId, d);
    case Failure(e) => res := BadRequest("Erro ao criar projeto: " + ErrorMessage(e));
  }

  /** `PUT api/projects/{projectId}/user/{userId}`. */
  method UpdateProject(db: Store, projectId: int, userId: int, dto: UpdateProjectDto, now: int)
    returns (res: ActionResult<ProjectResponseDto>)
    requires db.Valid()
    modifies db
    ensures db.Valid()
    ensures var found := IndexWhere(old(db.projects), ProjectOwnedIs(projectId, userId));
      && (found.None? <==> res == NotFound(ProjectNotFoundMessage))
      && (!res.Ok? ==> unchanged(db))
      && (res.Ok? || res.NotFound? || res == BadRequest("Erro ao atualizar projeto: " + DbUpdateMessage))
      && (res.BadRequest? ==> res.message == "Erro ao atualizar projeto: " + DbUpdateMessage)
      && (found.Some? ==>
            && (res.Ok? <==> ProjectFits(PS.ApplyProjectUpdate(old(db.projects)[found.value], dto, now)))
            && (res.Ok? ==>
                  var after := PS.ApplyProjectUpdate(old(db.projects)[found.value], dto, now);
                  && db.projects == old(db.projects)[found.value := after]
                  && db.Snapshot() == old(db.Snapshot()).(projects := db.projects)
                  && res.value == db.ProjectDtoOf(after)
                  && Some(res.value) == PS.GetProjectById(db, projectId, userId)))
  {
    var r := PS.UpdateProject(db, projectId, dto, userId, now);
    match r
    case Success(None) => res := NotFound(ProjectNotFoundMessage);
    case Success(Some(d)) => res := Ok(d);
    case Failure(e) => res := BadRequest("Erro ao atualizar projeto: " + ErrorMessage(e));
  }

  /** `DELETE api/projects/{projectId}/user/{userId}`: the pending-task guard runs
      first, for any caller; then ownership decides between 404 and 204. */
  method DeleteProject(db: Store, projectId: int, userId: int) returns (res: ActionResult<()>)
    requires db.Valid()
    modifies db
    ensures db.Valid()
    ensures res == NoContent || res == NotFound(ProjectNotFoundMessage) || res == BadRequest(PendingTasksMessage)
    ensures res == BadRequest(PendingTasksMessage) <==>
      exists t :: t in old(db.tasks) && t.projectId == projectId && t.status != Completed
    ensures res == NotFound(ProjectNotFoundMessage) <==> (
      && old(PS.CanDeleteProject(db, projectId))
      && forall p :: p in old(db.projects) && p.id == projectId ==> p.userId != userId)
    ensures res != NoContent ==> unchanged(db)
    ensures res == NoContent ==> (
      && (forall p :: p in db.projects ==> p.id != projectId)
      && (forall t :: t in db.tasks ==> t.projectId != projectId)
      && (forall t :: t in old(db.tasks) && t.projectId == projectId ==> t.status == Completed)
      && db.Snapshot() == old(db.Snapshot()).(
           projects := Filter(old(db.projects), ProjectIdNotIn({projectId})),
           tasks := Filter(old(db.tasks), NotInProjects({projectId})),
           histories := Filter(old(db.histories), OfTaskNotIn(TaskIdsInProjects(old(db.tasks), {projectId})))))
  {
    var canDelete := PS.CanDeleteProject(db, projectId);
    if !canDelete {
      return BadRequest(PendingTasksMessage);
    }
    var deleted := PS.DeleteProject(db, projectId, userId);
    if !deleted {
      return NotFound(ProjectNotFoundMessage);
    }
    res := NoContent;
  }
}

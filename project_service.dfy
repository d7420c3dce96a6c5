/** The project service (Services/ProjectService.cs): project queries filtered by
    owner, creation, update with a recounted task total, deletion with its
    cascade, and the check that a project has no unfinished task. */
module ProjectService {
  import opened Wrappers
  import opened Seqs
  import opened Domain
  import opened Db

  /** A task of the project whose status is anything but `Completed`. */
  function PendingIn(projectId: int): Task -> bool {
    (t: Task) => t.projectId == projectId && t.status != Completed
  }

  // ---------------------------------------------------------------- queries

  /** `GetUserProjectsAsync`: the projects owned by `userId`, each with its owner's
      name and its number of tasks, in table order. */
  function GetUserProjects(db: Store, userId: int): (r: seq<ProjectResponseDto>)
    reads db
    ensures |r| == |Filter(db.projects, OwnedBy(userId))|
    ensures forall p :: p in db.projects && p.userId == userId ==> db.ProjectDtoOf(p) in r
    ensures forall d :: d in r ==>
      d.userId == userId && exists p :: p in db.projects && p.userId == userId && d == db.ProjectDtoOf(p)
  {
    var ps := Filter(db.projects, OwnedBy(userId));
    ProjectDtosOfCovers(db, ps);
    ProjectDtosOfFrom(db, ps);
    db.ProjectDtosOf(ps)
  }

  /** `GetProjectByIdAsync`: the project with that id if `userId` owns it. */
  function GetProjectById(db: Store, projectId: int, userId: int): (r: Option<ProjectResponseDto>)
    reads db
    ensures r.Some? <==> exists p :: p in db.projects && p.id == projectId && p.userId == userId
    ensures r.Some? ==> (
      && r.value.id == projectId && r.value.userId == userId
      && r.value.taskCount == |Filter(db.tasks, InProject(projectId))|
      && exists p :: p in db.projects && p.id == projectId && r.value == db.ProjectDtoOf(p))
  {
    match IndexWhere(db.projects, ProjectOwnedIs(projectId, userId))
    case Some(i) => Some(db.ProjectDtoOf(db.projects[i]))
    case None =>
      assert forall p :: p in db.projects ==> !ProjectOwnedIs(projectId, userId)(p);
      None
  }

  /** The query finds a stored project under its own id and owner. */
  lemma GetProjectByIdFinds(db: Store, i: nat)
    requires db.Valid() && i < |db.projects|
    ensures GetProjectById(db, db.projects[i].id, db.projects[i].userId) == Some(db.ProjectDtoOf(db.projects[i]))
  {
    var p := db.projects[i];
    forall k | 0 <= k < i ensures !ProjectOwnedIs(p.id, p.userId)(db.projects[k]) {
      assert ProjectKey(db.projects[k]) < ProjectKey(db.projects[i]);
    }
    IndexWhereIs(db.projects, ProjectOwnedIs(p.id, p.userId), i);
  }

  /** Asking for a project under any other user than its owner finds nothing. */
  lemma OtherOwnerFindsNothing(db: Store, i: nat, userId: int)
    requires db.Valid() && i < |db.projects| && userId != db.projects[i].userId
    ensures GetProjectById(db, db.projects[i].id, userId) == None
  {
    ProjectIdUnique(db.projects, i);
  }

  /** `CanDeleteProjectAsync`: no task of the project is unfinished. */
  function CanDeleteProject(db: Store, projectId: int): (ok: bool)
    reads db
    ensures ok <==> forall t :: t in db.tasks && t.projectId == projectId ==> t.status == Completed
  {
    var pending := Filter(db.tasks, PendingIn(projectId));
    assert pending != [] ==> pending[0] in pending;
    pending == []
  }

  // ---------------------------------------------------------------- create

  /** The entity `CreateProjectAsync` builds, before the store assigns its id. */
  function ProjectFromDto(d: CreateProjectDto, now: int): Project {
    Project(0, d.name, d.description, now, None, d.userId)
  }

  /** A project that has just been given the next id has no tasks yet. */
  lemma NextProjectHasNoTasks(db: Store)
    requires db.Valid()
    ensures |Filter(db.tasks, InProject(db.nextProjectId))| == 0
  {
    forall t | t in db.tasks ensures !InProject(db.nextProjectId)(t) {
      var p :| p in db.projects && p.id == t.projectId;
    }
    FilterNone(db.tasks, InProject(db.nextProjectId));
  }

  /** `CreateProjectAsync`: insert the project and answer with it, counting no tasks.
      The answer is the one a later `GetProjectByIdAsync` gives. */
  method CreateProject(db: Store, dto: CreateProjectDto, now: int) returns (r: Result<ProjectResponseDto, ServiceError>)
    requires db.Valid()
    modifies db
    ensures db.Valid()
    ensures r.Failure? <==> !ProjectFits(ProjectFromDto(dto, now)) || dto.userId !in old(UserIds(db.users))
    ensures r.Failure? ==> r.error.DbUpdate? && unchanged(db)
    ensures r.Success? ==> (
      var p := Project(old(db.nextProjectId), dto.name, dto.description, now, None, dto.userId);
      && db.projects == old(db.projects) + [p]
      && db.users == old(db.users) && db.tasks == old(db.tasks) && db.histories == old(db.histories)
      && db.Snapshot() == old(db.Snapshot()).(projects := db.projects, nextProjectId := p.id + 1)
      && r.value == ProjectResponseDto(p.id, p.name, p.description, now, None, dto.userId, db.UserName(dto.userId), 0)
      && GetProjectById(db, p.id, dto.userId) == Some(r.value))
  {
    NextProjectHasNoTasks(db);
    var added := db.AddProject(ProjectFromDto(dto, now));
    if added.Failure? {
      return Failure(DbUpdate(added.error));
    }
    var p := db.projects[|db.projects| - 1];
    GetProjectByIdFinds(db, |db.projects| - 1);
    r := Success(ProjectResponseDto(p.id, p.name, p.description, p.createdAt, p.updatedAt, p.userId,
                                    db.UserName(dto.userId), 0));
  }

  // ---------------------------------------------------------------- update

  /** The fields `UpdateProjectAsync` assigns to the tracked entity. */
  function ApplyProjectUpdate(p: Project, d: UpdateProjectDto, now: int): (u: Project)
    ensures u.name == d.name && u.description == d.description && u.updatedAt == Some(now)
    ensures u.id == p.id && u.userId == p.userId && u.createdAt == p.createdAt
  {
    p.(name := d.name, description := d.description, updatedAt := Some(now))
  }

  /** `UpdateProjectAsync`: look the project up under its owner, assign name,
      description and update time, save, and answer with the saved row and a fresh
      count of its tasks: the answer a later `GetProjectByIdAsync` gives. */
  method UpdateProject(db: Store, projectId: int, dto: UpdateProjectDto, userId: int, now: int)
    returns (r: Result<Option<ProjectResponseDto>, ServiceError>)
    requires db.Valid()
    modifies db
    ensures db.Valid()
    ensures var found := IndexWhere(old(db.projects), ProjectOwnedIs(projectId, userId));
      && (found.None? ==> r == Success(None) && unchanged(db))
      && (found.Some? ==>
            var i := found.value;
            var after := ApplyProjectUpdate(old(db.projects)[i], dto, now);
            && (r.Failure? <==> !ProjectFits(after))
            && (r.Failure? ==> r.error.DbUpdate? && unchanged(db))
            && (r.Success? ==>
                  && db.projects == old(db.projects)[i := after]
                  && db.users == old(db.users) && db.tasks == old(db.tasks) && db.histories == old(db.histories)
                  && db.Snapshot() == old(db.Snapshot()).(projects := db.projects)
                  && r.value == Some(db.ProjectDtoOf(after))
                  && r.value == GetProjectById(db, projectId, userId)))
  {
    var found := IndexWhere(db.projects, ProjectOwnedIs(projectId, userId));
    if found.None? {
      return Success(None);
    }
    var i := found.value;
    var p := ApplyProjectUpdate(db.projects[i], dto, now);
    assert db.projects[i] in db.projects;
    var fault := db.SaveProject(i, p);
    if fault.Some? {
      return Failure(DbUpdate(fault.value));
    }
    GetProjectByIdFinds(db, i);
    r := Success(Some(ProjectResponseDto(p.id, p.name, p.description, p.createdAt, p.updatedAt, p.userId,
                                         db.UserName(userId), db.TaskCount(projectId))));
  }

  // ---------------------------------------------------------------- delete

  /** `DeleteProjectAsync`: remove the project if `userId` owns it; its tasks and
      their history rows are deleted with it (cascade). */
  method DeleteProject(db: Store, projectId: int, userId: int) returns (deleted: bool)
    requires db.Valid()
    modifies db
    ensures db.Valid()
    ensures deleted <==> exists p :: p in old(db.projects) && p.id == projectId && p.userId == userId
    ensures !deleted ==> unchanged(db)
    ensures var found := IndexWhere(old(db.projects), ProjectOwnedIs(projectId, userId));
      found.Some? ==> db.projects == old(db.projects)[..found.value] + old(db.projects)[found.value + 1..]
    ensures deleted ==> (
      && db.projects == Filter(old(db.projects), ProjectIdNotIn({projectId}))
      && db.tasks == Filter(old(db.tasks), NotInProjects({projectId}))
      && db.histories == Filter(old(db.histories), OfTaskNotIn(TaskIdsInProjects(old(db.tasks), {projectId})))
      && db.users == old(db.users)
      && db.Snapshot() == old(db.Snapshot()).(projects := db.projects, tasks := db.tasks, histories := db.histories))
  {
    var found := IndexWhere(db.projects, ProjectOwnedIs(projectId, userId));
    if found.None? {
      return false;
    }
    db.RemoveProject(found.value);
    deleted := true;
  }

  /** After a deletion a history row is kept exactly when its task is. */
  lemma DeleteProjectCascade(db0: Tables, projectId: int)
    requires TablesValid(db0)
    ensures var tasks := Filter(db0.tasks, NotInProjects({projectId}));
      forall h :: h in Filter(db0.histories, OfTaskNotIn(TaskIdsInProjects(db0.tasks, {projectId}))) <==>
        h in db0.histories && h.taskId in TaskIds(tasks)
  {
    var tasks := Filter(db0.tasks, NotInProjects({projectId}));
    var gone := TaskIdsInProjects(db0.tasks, {projectId});
    forall h | h in db0.histories ensures h.taskId !in gone <==> h.taskId in TaskIds(tasks) {
      var t :| t in db0.tasks && t.id == h.taskId;
      var k :| 0 <= k < |db0.tasks| && db0.tasks[k] == t;
      TaskIdUnique(db0.tasks, k);
      if t.projectId == projectId {
        assert h.taskId in gone;
        assert forall t' :: t' in tasks ==> t' in db0.tasks && t'.projectId != projectId;
      } else {
        assert t in tasks;
      }
    }
  }
}

/** The relational store behind the services (Data/TaskManagementDbContext.cs):
    four tables with identity keys, the foreign keys with their cascade and
    restrict rules, the column length limits and the unique e-mail index.
    Each method below is one `SaveChanges`: it either applies its change and keeps
    every rule, or fails with `DbUpdateException` and changes nothing. */
module Db {
  import opened Wrappers
  import opened Seqs
  import opened Domain

  /** Why `SaveChanges` refused a change. */
  datatype DbFault = ForeignKeyViolation | MaxLengthViolation | UniqueEmailViolation | RestrictedByReference

  /** The message of the `DbUpdateException` that `SaveChanges` throws whatever the cause. */
  const DbUpdateMessage := "An error occurred while saving the entity changes. See the inner exception for details."

  /** The exceptions that leave a service call, by their .NET type. */
  datatype ServiceError =
    | InvalidOperation(message: string)   // InvalidOperationException
    | Argument(message: string)           // ArgumentException
    | UnauthorizedAccess(message: string) // UnauthorizedAccessException
    | DbUpdate(fault: DbFault)            // DbUpdateException from SaveChanges

  /** `ex.Message`. */
  function ErrorMessage(e: ServiceError): string {
    match e
    case InvalidOperation(m) => m
    case Argument(m) => m
    case UnauthorizedAccess(m) => m
    case DbUpdate(_) => DbUpdateMessage
  }

  // ---------------------------------------------------------------- keys

  function UserKey(u: User): int { u.id }
  function ProjectKey(p: Project): int { p.id }
  function TaskKey(t: Task): int { t.id }
  function HistoryKey(h: TaskHistory): int { h.id }

  function UserIds(us: seq<User>): set<int> { set u | u in us :: u.id }
  function ProjectIds(ps: seq<Project>): set<int> { set p | p in ps :: p.id }
  function TaskIds(ts: seq<Task>): set<int> { set t | t in ts :: t.id }

  /** The ids of the projects a user owns: what deleting that user cascades to. */
  function ProjectIdsOwnedBy(ps: seq<Project>, userId: int): set<int> { set p | p in ps && p.userId == userId :: p.id }

  /** The ids of the tasks of a set of projects: what deleting those projects cascades to. */
  function TaskIdsInProjects(ts: seq<Task>, pids: set<int>): set<int> { set t | t in ts && t.projectId in pids :: t.id }

  /** Ids are keys: a task id names one row. */
  lemma TaskIdUnique(ts: seq<Task>, i: nat)
    requires IncreasingBy(ts, TaskKey) && i < |ts|
    ensures forall t :: t in ts && t.id == ts[i].id ==> t == ts[i]
  {
    forall j | 0 <= j < |ts| && j != i ensures ts[j].id != ts[i].id {
      if j < i { assert TaskKey(ts[j]) < TaskKey(ts[i]); }
      else { assert TaskKey(ts[i]) < TaskKey(ts[j]); }
    }
  }

  /** Ids are keys: a project id names one row. */
  lemma ProjectIdUnique(ps: seq<Project>, i: nat)
    requires IncreasingBy(ps, ProjectKey) && i < |ps|
    ensures forall p :: p in ps && p.id == ps[i].id ==> p == ps[i]
  {
    forall j | 0 <= j < |ps| && j != i ensures ps[j].id != ps[i].id {
      if j < i { assert ProjectKey(ps[j]) < ProjectKey(ps[i]); }
      else { assert ProjectKey(ps[i]) < ProjectKey(ps[j]); }
    }
  }

  /** Deleting by id removes exactly the one row that carries the id. */
  lemma TaskRemovalIsExact(ts: seq<Task>, i: nat)
    requires IncreasingBy(ts, TaskKey) && i < |ts|
    ensures Filter(ts, TaskIdNotIn({ts[i].id})) == ts[..i] + ts[i + 1..]
  {
    TaskIdUnique(ts, i);
    forall j | 0 <= j < |ts| && j != i ensures TaskIdNotIn({ts[i].id})(ts[j]) {
      assert ts[j] in ts;
    }
    FilterRemovesOne(ts, i, TaskIdNotIn({ts[i].id}));
  }

  lemma ProjectRemovalIsExact(ps: seq<Project>, i: nat)
    requires IncreasingBy(ps, ProjectKey) && i < |ps|
    ensures Filter(ps, ProjectIdNotIn({ps[i].id})) == ps[..i] + ps[i + 1..]
  {
    ProjectIdUnique(ps, i);
    forall j | 0 <= j < |ps| && j != i ensures ProjectIdNotIn({ps[i].id})(ps[j]) {
      assert ps[j] in ps;
    }
    FilterRemovesOne(ps, i, ProjectIdNotIn({ps[i].id}));
  }

  lemma UserIdsAppend(us: seq<User>, u: User)
    ensures UserIds(us + [u]) == UserIds(us) + {u.id}
  {
    assert u in us + [u];
    assert forall x :: x in us ==> x in us + [u];
  }

  lemma ProjectIdsAppend(ps: seq<Project>, p: Project)
    ensures ProjectIds(ps + [p]) == ProjectIds(ps) + {p.id}
  {
    assert p in ps + [p];
    assert forall x :: x in ps ==> x in ps + [p];
  }

  lemma TaskIdsAppend(ts: seq<Task>, t: Task)
    ensures TaskIds(ts + [t]) == TaskIds(ts) + {t.id}
  {
    assert t in ts + [t];
    assert forall x :: x in ts ==> x in ts + [t];
  }

  // ---------------------------------------------------------------- row selectors (the lambdas of the queries)

  function UserIdIs(id: int): User -> bool { (u: User) => u.id == id }
  function UserIdIsNot(id: int): User -> bool { (u: User) => u.id != id }
  function ProjectIdIs(id: int): Project -> bool { (p: Project) => p.id == id }
  function ProjectOwnedIs(id: int, userId: int): Project -> bool { (p: Project) => p.id == id && p.userId == userId }
  function OwnedBy(userId: int): Project -> bool { (p: Project) => p.userId == userId }
  function ProjectIdNotIn(ids: set<int>): Project -> bool { (p: Project) => p.id !in ids }
  function TaskIdIs(id: int): Task -> bool { (t: Task) => t.id == id }
  function TaskAssignedIs(id: int, userId: int): Task -> bool { (t: Task) => t.id == id && t.userId == userId }
  function InProject(projectId: int): Task -> bool { (t: Task) => t.projectId == projectId }
  function AssignedIn(projectId: int, userId: int): Task -> bool { (t: Task) => t.projectId == projectId && t.userId == userId }
  function TaskIdNotIn(ids: set<int>): Task -> bool { (t: Task) => t.id !in ids }
  function NotInProjects(pids: set<int>): Task -> bool { (t: Task) => t.projectId !in pids }
  function OfTask(taskId: int): TaskHistory -> bool { (h: TaskHistory) => h.taskId == taskId }
  function OfTaskNotIn(ids: set<int>): TaskHistory -> bool { (h: TaskHistory) => h.taskId !in ids }

  // ---------------------------------------------------------------- column rules (kept below)

  predicate UserFits(u: User) {
    |u.name| <= UserNameMax && |u.email| <= UserEmailMax && |u.role| <= UserRoleMax
  }

  predicate ProjectFits(p: Project) {
    |p.name| <= ProjectNameMax && FitsOpt(p.description, ProjectDescriptionMax)
  }

  predicate TaskFits(t: Task) {
    |t.title| <= TaskTitleMax && FitsOpt(t.description, TaskDescriptionMax)
  }

  predicate HistoryFits(h: TaskHistory) {
    |h.comment| <= CommentMax
  }

  // ---------------------------------------------------------------- the rules of the schema

  /** The four tables and the next value of each identity column. */
  datatype Tables = Tables(
    users: seq<User>, projects: seq<Project>, tasks: seq<Task>, histories: seq<TaskHistory>,
    nextUserId: int, nextProjectId: int, nextTaskId: int, nextHistoryId: int)

  /** Identity keys: positive, below the next identity value, increasing in table order. */
  ghost predicate KeysValid(db: Tables) {
    && IncreasingBy(db.users, UserKey) && IncreasingBy(db.projects, ProjectKey)
    && IncreasingBy(db.tasks, TaskKey) && IncreasingBy(db.histories, HistoryKey)
    && 1 <= db.nextUserId && 1 <= db.nextProjectId && 1 <= db.nextTaskId && 1 <= db.nextHistoryId
    && (forall u :: u in db.users ==> 1 <= u.id < db.nextUserId)
    && (forall p :: p in db.projects ==> 1 <= p.id < db.nextProjectId)
    && (forall t :: t in db.tasks ==> 1 <= t.id < db.nextTaskId)
    && (forall h :: h in db.histories ==> 1 <= h.id < db.nextHistoryId)
  }

  /** Every foreign key names an existing row. */
  ghost predicate ReferencesValid(db: Tables) {
    && (forall p :: p in db.projects ==> p.userId in UserIds(db.users))
    && (forall t :: t in db.tasks ==> t.projectId in ProjectIds(db.projects) && t.userId in UserIds(db.users))
    && (forall h :: h in db.histories ==> h.taskId in TaskIds(db.tasks) && h.userId in UserIds(db.users))
  }

  /** Every stored string fits its column. */
  ghost predicate ColumnsValid(db: Tables) {
    && (forall u :: u in db.users ==> UserFits(u))
    && (forall p :: p in db.projects ==> ProjectFits(p))
    && (forall t :: t in db.tasks ==> TaskFits(t))
    && (forall h :: h in db.histories ==> HistoryFits(h))
  }

  /** The unique index on `User.Email`. */
  ghost predicate EmailsUnique(us: seq<User>) {
    forall i, j :: 0 <= i < j < |us| ==> us[i].email != us[j].email
  }

  ghost predicate TablesValid(db: Tables) {
    KeysValid(db) && ReferencesValid(db) && ColumnsValid(db) && EmailsUnique(db.users)
  }

  /** Some task is assigned to user `id`, or some history row is authored by it: the restrict rules. */
  predicate UserReferenced(db: Tables, id: int) {
    (exists t :: t in db.tasks && t.userId == id) || (exists h :: h in db.histories && h.userId == id)
  }

  predicate EmailIn(us: seq<User>, email: string) {
    exists u :: u in us && u.email == email
  }

  // ---------------------------------------------------------------- each change keeps the rules

  lemma AddUserKeepsRules(db: Tables, u: User)
    requires TablesValid(db)
    requires u.id == db.nextUserId && UserFits(u) && !EmailIn(db.users, u.email)
    ensures TablesValid(db.(users := db.users + [u], nextUserId := db.nextUserId + 1))
  {
    var db' := db.(users := db.users + [u], nextUserId := db.nextUserId + 1);
    AppendIncreasing(db.users, u, UserKey);
    UserIdsAppend(db.users, u);
    assert KeysValid(db');
    assert EmailsUnique(db'.users) by {
      forall i, j | 0 <= i < j < |db'.users| ensures db'.users[i].email != db'.users[j].email {
        assert db'.users[i] == db.users[i];
        if j == |db.users| { assert db.users[i] in db.users; }
        else { assert db'.users[j] == db.users[j]; }
      }
    }
  }

  /** What deleting user `id` leaves: the user, its projects, their tasks and those tasks' history rows are gone. */
  function WithoutUser(db: Tables, id: int): (db': Tables)
    ensures db'.nextUserId == db.nextUserId && db'.nextProjectId == db.nextProjectId
    ensures db'.nextTaskId == db.nextTaskId && db'.nextHistoryId == db.nextHistoryId
  {
    var pids := ProjectIdsOwnedBy(db.projects, id);
    var tids := TaskIdsInProjects(db.tasks, pids);
    db.(users := Filter(db.users, UserIdIsNot(id)),
        projects := Filter(db.projects, ProjectIdNotIn(pids)),
        tasks := Filter(db.tasks, NotInProjects(pids)),
        histories := Filter(db.histories, OfTaskNotIn(tids)))
  }

  lemma RemoveUserKeepsKeys(db: Tables, id: int)
    requires KeysValid(db)
    ensures KeysValid(WithoutUser(db, id))
  {
    var pids := ProjectIdsOwnedBy(db.projects, id);
    var tids := TaskIdsInProjects(db.tasks, pids);
    FilterIncreasing(db.users, UserIdIsNot(id), UserKey);
    FilterIncreasing(db.projects, ProjectIdNotIn(pids), ProjectKey);
    FilterIncreasing(db.tasks, NotInProjects(pids), TaskKey);
    FilterIncreasing(db.histories, OfTaskNotIn(tids), HistoryKey);
  }

  lemma RemoveUserKeepsReferences(db: Tables, id: int)
    requires ReferencesValid(db)
    requires !UserReferenced(db, id)
    ensures ReferencesValid(WithoutUser(db, id))
  {
    var pids := ProjectIdsOwnedBy(db.projects, id);
    var tids := TaskIdsInProjects(db.tasks, pids);
    var db' := WithoutUser(db, id);
    forall p | p in db'.projects ensures p.userId in UserIds(db'.users) {
      var u :| u in db.users && u.id == p.userId;
      assert p.id !in pids;
      assert u in db'.users;
    }
    forall t | t in db'.tasks ensures t.projectId in ProjectIds(db'.projects) && t.userId in UserIds(db'.users) {
      var p :| p in db.projects && p.id == t.projectId;
      var u :| u in db.users && u.id == t.userId;
      assert p.id !in pids;
      assert p in db'.projects;
      assert u in db'.users;
    }
    forall h | h in db'.histories ensures h.taskId in TaskIds(db'.tasks) && h.userId in UserIds(db'.users) {
      var t :| t in db.tasks && t.id == h.taskId;
      var u :| u in db.users && u.id == h.userId;
      assert t.projectId !in pids;
      assert t in db'.tasks;
      assert u in db'.users;
    }
  }

  lemma RemoveUserKeepsEmails(db: Tables, id: int)
    requires KeysValid(db) && EmailsUnique(db.users)
    ensures EmailsUnique(WithoutUser(db, id).users)
  {
    var us := db.users;
    var us' := WithoutUser(db, id).users;
    FilterIncreasing(us, UserIdIsNot(id), UserKey);
    forall i, j | 0 <= i < j < |us'| ensures us'[i].email != us'[j].email {
      assert us'[i] in us' && us'[j] in us';
      var a :| 0 <= a < |us| && us[a] == us'[i];
      var b :| 0 <= b < |us| && us[b] == us'[j];
      assert UserKey(us'[i]) < UserKey(us'[j]);
    }
  }

  lemma RemoveUserKeepsRules(db: Tables, id: int)
    requires TablesValid(db)
    requires !UserReferenced(db, id)
    ensures TablesValid(WithoutUser(db, id))
  {
    RemoveUserKeepsKeys(db, id);
    RemoveUserKeepsReferences(db, id);
    RemoveUserKeepsEmails(db, id);
    var db' := WithoutUser(db, id);
    assert ColumnsValid(db');
  }

  lemma AddProjectKeepsRules(db: Tables, p: Project)
    requires TablesValid(db)
    requires p.id == db.nextProjectId && ProjectFits(p) && p.userId in UserIds(db.users)
    ensures TablesValid(db.(projects := db.projects + [p], nextProjectId := db.nextProjectId + 1))
  {
    var db' := db.(projects := db.projects + [p], nextProjectId := db.nextProjectId + 1);
    AppendIncreasing(db.projects, p, ProjectKey);
    ProjectIdsAppend(db.projects, p);
    assert KeysValid(db');
    assert ReferencesValid(db');
  }

  /** Replacing a row by one with the same id keeps the set of ids. */
  lemma ProjectIdsUpdate(ps: seq<Project>, i: nat, p: Project)
    requires i < |ps| && p.id == ps[i].id
    ensures ProjectIds(ps[i := p]) == ProjectIds(ps)
  {
    var ps' := ps[i := p];
    forall x ensures x in ProjectIds(ps') <==> x in ProjectIds(ps) {
      if x in ProjectIds(ps) {
        var q :| q in ps && q.id == x;
        var k :| 0 <= k < |ps| && ps[k] == q;
        assert ps'[k] in ps' && ps'[k].id == x;
      }
      if x in ProjectIds(ps') {
        var q :| q in ps' && q.id == x;
        var k :| 0 <= k < |ps'| && ps'[k] == q;
        assert ps[k] in ps && ps[k].id == x;
      }
    }
  }

  lemma UpdateProjectKeepsRules(db: Tables, i: nat, p: Project)
    requires TablesValid(db)
    requires i < |db.projects| && p.id == db.projects[i].id && ProjectFits(p) && p.userId in UserIds(db.users)
    ensures TablesValid(db.(projects := db.projects[i := p]))
  {
    var ps := db.projects;
    var ps' := ps[i := p];
    var db' := db.(projects := ps');
    ProjectIdsUpdate(ps, i, p);
    UpdateIncreasing(ps, i, p, ProjectKey);
    forall q | q in ps' ensures 1 <= q.id < db.nextProjectId && ProjectFits(q) && q.userId in UserIds(db.users) {
      var k :| 0 <= k < |ps'| && ps'[k] == q;
      assert ps[k] in ps;
    }
    assert KeysValid(db');
    assert ReferencesValid(db');
  }

  lemma RemoveProjectKeepsRules(db: Tables, pid: int)
    requires TablesValid(db)
    ensures TablesValid(db.(projects := Filter(db.projects, ProjectIdNotIn({pid})),
                            tasks := Filter(db.tasks, NotInProjects({pid})),
                            histories := Filter(db.histories, OfTaskNotIn(TaskIdsInProjects(db.tasks, {pid})))))
  {
    var pids := {pid};
    var tids := TaskIdsInProjects(db.tasks, pids);
    var projects' := Filter(db.projects, ProjectIdNotIn(pids));
    var tasks' := Filter(db.tasks, NotInProjects(pids));
    var histories' := Filter(db.histories, OfTaskNotIn(tids));
    var db' := db.(projects := projects', tasks := tasks', histories := histories');
    FilterIncreasing(db.projects, ProjectIdNotIn(pids), ProjectKey);
    FilterIncreasing(db.tasks, NotInProjects(pids), TaskKey);
    FilterIncreasing(db.histories, OfTaskNotIn(tids), HistoryKey);
    assert KeysValid(db');
    forall t | t in tasks' ensures t.projectId in ProjectIds(projects') {
      var p :| p in db.projects && p.id == t.projectId;
      assert p in projects';
    }
    forall h | h in histories' ensures h.taskId in TaskIds(tasks') {
      var t :| t in db.tasks && t.id == h.taskId;
      assert t.projectId !in pids;
      assert t in tasks';
    }
    assert ReferencesValid(db');
  }

  lemma AddTaskKeepsRules(db: Tables, t: Task)
    requires TablesValid(db)
    requires t.id == db.nextTaskId && TaskFits(t)
    requires t.projectId in ProjectIds(db.projects) && t.userId in UserIds(db.users)
    ensures TablesValid(db.(tasks := db.tasks + [t], nextTaskId := db.nextTaskId + 1))
  {
    var db' := db.(tasks := db.tasks + [t], nextTaskId := db.nextTaskId + 1);
    AppendIncreasing(db.tasks, t, TaskKey);
    TaskIdsAppend(db.tasks, t);
    assert KeysValid(db');
    assert ReferencesValid(db');
  }

  /** Replacing a row by one with the same id keeps the set of ids. */
  lemma TaskIdsUpdate(ts: seq<Task>, i: nat, t: Task)
    requires i < |ts| && t.id == ts[i].id
    ensures TaskIds(ts[i := t]) == TaskIds(ts)
  {
    var ts' := ts[i := t];
    forall x ensures x in TaskIds(ts') <==> x in TaskIds(ts) {
      if x in TaskIds(ts) {
        var q :| q in ts && q.id == x;
        var k :| 0 <= k < |ts| && ts[k] == q;
        assert ts'[k] in ts' && ts'[k].id == x;
      }
      if x in TaskIds(ts') {
        var q :| q in ts' && q.id == x;
        var k :| 0 <= k < |ts'| && ts'[k] == q;
        assert ts[k] in ts && ts[k].id == x;
      }
    }
  }

  lemma UpdateTaskKeepsRules(db: Tables, i: nat, t: Task)
    requires TablesValid(db)
    requires i < |db.tasks| && t.id == db.tasks[i].id && TaskFits(t)
    requires t.projectId in ProjectIds(db.projects) && t.userId in UserIds(db.users)
    ensures TablesValid(db.(tasks := db.tasks[i := t]))
  {
    var ts := db.tasks;
    var ts' := ts[i := t];
    var db' := db.(tasks := ts');
    TaskIdsUpdate(ts, i, t);
    UpdateIncreasing(ts, i, t, TaskKey);
    forall q | q in ts' ensures 1 <= q.id < db.nextTaskId && TaskFits(q)
      && q.projectId in ProjectIds(db.projects) && q.userId in UserIds(db.users)
    {
      var k :| 0 <= k < |ts'| && ts'[k] == q;
      assert ts[k] in ts;
    }
    assert KeysValid(db');
    assert ReferencesValid(db');
  }

  lemma RemoveTaskKeepsRules(db: Tables, tid: int)
    requires TablesValid(db)
    ensures TablesValid(db.(tasks := Filter(db.tasks, TaskIdNotIn({tid})),
                            histories := Filter(db.histories, OfTaskNotIn({tid}))))
  {
    var tasks' := Filter(db.tasks, TaskIdNotIn({tid}));
    var histories' := Filter(db.histories, OfTaskNotIn({tid}));
    var db' := db.(tasks := tasks', histories := histories');
    FilterIncreasing(db.tasks, TaskIdNotIn({tid}), TaskKey);
    FilterIncreasing(db.histories, OfTaskNotIn({tid}), HistoryKey);
    assert KeysValid(db');
    forall h | h in histories' ensures h.taskId in TaskIds(tasks') {
      var t :| t in db.tasks && t.id == h.taskId;
      assert t in tasks';
    }
    assert ReferencesValid(db');
  }

  lemma AddHistoryKeepsRules(db: Tables, h: TaskHistory)
    requires TablesValid(db)
    requires h.id == db.nextHistoryId && HistoryFits(h)
    requires h.taskId in TaskIds(db.tasks) && h.userId in UserIds(db.users)
    ensures TablesValid(db.(histories := db.histories + [h], nextHistoryId := db.nextHistoryId + 1))
  {
    var db' := db.(histories := db.histories + [h], nextHistoryId := db.nextHistoryId + 1);
    AppendIncreasing(db.histories, h, HistoryKey);
    assert KeysValid(db');
    assert ReferencesValid(db');
  }

  /** The database context: one `DbSet` per table, plus the identity counters. */
  class Store {
    var users: seq<User>
    var projects: seq<Project>
    var tasks: seq<Task>
    var histories: seq<TaskHistory>
    var nextUserId: int
    var nextProjectId: int
    var nextTaskId: int
    var nextHistoryId: int

    /** The current contents of the store as a value. */
    function Snapshot(): (db: Tables)
      reads this
    {
      Tables(users, projects, tasks, histories, nextUserId, nextProjectId, nextTaskId, nextHistoryId)
    }

    ghost predicate Valid()
      reads this
    {
      TablesValid(Snapshot())
    }

    constructor ()
      ensures Valid()
      ensures users == [] && projects == [] && tasks == [] && histories == []
    {
      users, projects, tasks, histories := [], [], [], [];
      nextUserId, nextProjectId, nextTaskId, nextHistoryId := 1, 1, 1, 1;
    }

    // ---------------------------------------------------------------- lookups

    /** `Users.Find(id)?.Name ?? string.Empty`. */
    function UserName(id: int): (r: string)
      reads this
      ensures forall u :: u in users && u.id == id && IncreasingBy(users, UserKey) ==> r == u.name
      ensures id !in UserIds(users) ==> r == ""
    {
      match IndexWhere(users, UserIdIs(id))
      case Some(i) =>
        assert forall u :: u in users && u.id == id && IncreasingBy(users, UserKey) ==> u == users[i] by {
          forall u | u in users && u.id == id && IncreasingBy(users, UserKey) ensures u == users[i] {
            var k :| 0 <= k < |users| && users[k] == u;
            assert UserKey(users[k]) == UserKey(users[i]);
          }
        }
        users[i].name
      case None => ""
    }

    /** The name of a task's project, as the query's navigation `t.Project.Name` reads it. */
    function ProjectName(id: int): (r: string)
      reads this
      ensures forall p :: p in projects && p.id == id && IncreasingBy(projects, ProjectKey) ==> r == p.name
    {
      match IndexWhere(projects, ProjectIdIs(id))
      case Some(i) =>
        assert forall p :: p in projects && p.id == id && IncreasingBy(projects, ProjectKey) ==> p == projects[i] by {
          forall p | p in projects && p.id == id && IncreasingBy(projects, ProjectKey) ensures p == projects[i] {
            var k :| 0 <= k < |projects| && projects[k] == p;
            assert ProjectKey(projects[k]) == ProjectKey(projects[i]);
          }
        }
        projects[i].name
      case None => ""
    }

    /** `p.Tasks.Count` and `Tasks.Count(t => t.ProjectId == projectId)`. The cap
        itself is stated by `TaskService.AppendKeepsCap` and `CreateTaskWithinCap`. */
    function TaskCount(projectId: int): (n: nat)
      reads this
      ensures n == |Filter(tasks, InProject(projectId))|
      ensures n == 0 <==> forall t :: t in tasks ==> t.projectId != projectId
    {
      var ts := Filter(tasks, InProject(projectId));
      assert ts != [] ==> ts[0] in ts;
      |ts|
    }

    function HistoryDtoOf(h: TaskHistory): (d: TaskHistoryDto)
      reads this
      ensures d.id == h.id && d.comment == h.comment && d.createdAt == h.createdAt
      ensures d.userName == UserName(h.userId)
    {
      TaskHistoryDto(h.id, h.comment, h.createdAt, UserName(h.userId))
    }

    function HistoryDtosOf(hs: seq<TaskHistory>): (r: seq<TaskHistoryDto>)
      reads this
      ensures |r| == |hs|
      ensures forall i :: 0 <= i < |hs| ==> r[i] == HistoryDtoOf(hs[i])
      ensures forall d :: d in r <==> exists h :: h in hs && d == HistoryDtoOf(h)
    {
      if hs == [] then []
      else
        var r := [HistoryDtoOf(hs[0])] + HistoryDtosOf(hs[1..]);
        assert hs == [hs[0]] + hs[1..];
        r
    }

    /** `t.TaskHistories.Select(...).OrderBy(th => th.CreatedAt)`: the task's history rows,
        each with its author's name, oldest first. */
    function TaskHistories(taskId: int): (r: seq<TaskHistoryDto>)
      reads this
      ensures Chronological(r)
      ensures |r| == |Filter(histories, OfTask(taskId))|
      ensures forall d :: d in r <==> exists h :: h in histories && h.taskId == taskId && d == HistoryDtoOf(h)
    {
      OrderByCreatedAt(HistoryDtosOf(Filter(histories, OfTask(taskId))))
    }

    /** The `TaskResponseDto` the task queries project a row to. */
    function TaskDtoOf(t: Task): (d: TaskResponseDto)
      reads this
    {
      TaskResponseDto(t.id, t.title, t.description, t.status, t.priority, t.createdAt, t.updatedAt, t.dueDate,
                      t.projectId, ProjectName(t.projectId), t.userId, UserName(t.userId), TaskHistories(t.id))
    }

    function TaskDtosOf(ts: seq<Task>): (r: seq<TaskResponseDto>)
      reads this
      ensures |r| == |ts|
      ensures forall i :: 0 <= i < |ts| ==> r[i] == TaskDtoOf(ts[i])
    {
      if ts == [] then [] else [TaskDtoOf(ts[0])] + TaskDtosOf(ts[1..])
    }

    /** The `ProjectResponseDto` the project queries project a row to. */
    function ProjectDtoOf(p: Project): (d: ProjectResponseDto)
      reads this
      ensures d.id == p.id && d.name == p.name && d.description == p.description
      ensures d.createdAt == p.createdAt && d.updatedAt == p.updatedAt && d.userId == p.userId
      ensures d.userName == UserName(p.userId)
      ensures d.taskCount == |Filter(tasks, InProject(p.id))|
    {
      ProjectResponseDto(p.id, p.name, p.description, p.createdAt, p.updatedAt, p.userId,
                         UserName(p.userId), TaskCount(p.id))
    }

    function ProjectDtosOf(ps: seq<Project>): (r: seq<ProjectResponseDto>)
      reads this
      ensures |r| == |ps|
      ensures forall i :: 0 <= i < |ps| ==> r[i] == ProjectDtoOf(ps[i])
    {
      if ps == [] then [] else [ProjectDtoOf(ps[0])] + ProjectDtosOf(ps[1..])
    }

    // ---------------------------------------------------------------- users

    /** Insert a user; the unique index rejects an e-mail already present. */
    method AddUser(name: string, email: string, role: string, now: int) returns (r: Result<int, DbFault>)
      requires Valid()
      modifies this
      ensures Valid()
      ensures r.Failure? <==> !UserFits(User(0, name, email, role, now)) || EmailIn(old(users), email)
      ensures r.Failure? ==> unchanged(this)
      ensures r.Success? ==> (
        && r.value == old(nextUserId)
        && users == old(users) + [User(r.value, name, email, role, now)]
        && projects == old(projects) && tasks == old(tasks) && histories == old(histories)
        && Snapshot() == old(Snapshot()).(users := users, nextUserId := old(nextUserId) + 1))
    {
      var u := User(nextUserId, name, email, role, now);
      if !UserFits(u) {
        return Failure(MaxLengthViolation);
      }
      if EmailIn(users, email) {
        return Failure(UniqueEmailViolation);
      }
      AddUserKeepsRules(Snapshot(), u);
      users := users + [u];
      nextUserId := nextUserId + 1;
      r := Success(u.id);
    }

    /** Delete a user. `Task.UserId` and `TaskHistory.UserId` restrict the delete; the
        user's projects, their tasks and those tasks' history rows go with the user. */
    method RemoveUser(id: int) returns (r: Result<bool, DbFault>)
      requires Valid()
      modifies this
      ensures Valid()
      ensures r == Success(false) <==> id !in old(UserIds(users))
      ensures r == Failure(RestrictedByReference) <==> id in old(UserIds(users)) && UserReferenced(old(Snapshot()), id)
      ensures r.Success? || r == Failure(RestrictedByReference)
      ensures r != Success(true) ==> unchanged(this)
      ensures r == Success(true) ==> Snapshot() == WithoutUser(old(Snapshot()), id)
    {
      if id !in UserIds(users) {
        return Success(false);
      }
      if UserReferenced(Snapshot(), id) {
        return Failure(RestrictedByReference);
      }
      ApplyUserRemoval(id);
      r := Success(true);
    }

    /** The cascade of a user delete that no restrict rule blocks. */
    method ApplyUserRemoval(id: int)
      requires Valid() && !UserReferenced(Snapshot(), id)
      modifies this
      ensures Valid()
      ensures Snapshot() == WithoutUser(old(Snapshot()), id)
    {
      RemoveUserKeepsRules(Snapshot(), id);
      Load(WithoutUser(Snapshot(), id));
    }

    /** Replace the whole contents by a state that keeps every rule. */
    method Load(db: Tables)
      requires TablesValid(db)
      modifies this
      ensures Valid() && Snapshot() == db
    {
      users, projects, tasks, histories := db.users, db.projects, db.tasks, db.histories;
      nextUserId, nextProjectId, nextTaskId, nextHistoryId := db.nextUserId, db.nextProjectId, db.nextTaskId, db.nextHistoryId;
    }

    // ---------------------------------------------------------------- projects

    /** Insert a project with the next identity value. */
    method AddProject(p: Project) returns (r: Result<int, DbFault>)
      requires Valid()
      modifies this
      ensures Valid()
      ensures r.Failure? <==> !ProjectFits(p) || p.userId !in old(UserIds(users))
      ensures r.Failure? ==> unchanged(this)
      ensures r.Success? ==> (
        && r.value == old(nextProjectId)
        && projects == old(projects) + [p.(id := r.value)]
        && users == old(users) && tasks == old(tasks) && histories == old(histories)
        && Snapshot() == old(Snapshot()).(projects := projects, nextProjectId := old(nextProjectId) + 1))
    {
      if !ProjectFits(p) {
        return Failure(MaxLengthViolation);
      }
      if p.userId !in UserIds(users) {
        return Failure(ForeignKeyViolation);
      }
      var row := p.(id := nextProjectId);
      AddProjectKeepsRules(Snapshot(), row);
      projects := projects + [row];
      nextProjectId := nextProjectId + 1;
      r := Success(row.id);
    }

    /** Save the tracked project at index `i` after its fields were assigned; its key cannot change. */
    method SaveProject(i: nat, p: Project) returns (fault: Option<DbFault>)
      requires Valid()
      requires i < |projects| && p.id == projects[i].id
      modifies this
      ensures Valid()
      ensures fault.Some? <==> !ProjectFits(p) || p.userId !in old(UserIds(users))
      ensures fault.Some? ==> unchanged(this)
      ensures fault.None? ==> (
        && projects == old(projects)[i := p]
        && users == old(users) && tasks == old(tasks) && histories == old(histories)
        && Snapshot() == old(Snapshot()).(projects := projects))
    {
      if !ProjectFits(p) {
        return Some(MaxLengthViolation);
      }
      if p.userId !in UserIds(users) {
        return Some(ForeignKeyViolation);
      }
      UpdateProjectKeepsRules(Snapshot(), i, p);
      projects := projects[i := p];
      fault := None;
    }

    /** Delete the project at index `i`; its tasks and their history rows cascade. */
    method RemoveProject(i: nat)
      requires Valid()
      requires i < |projects|
      modifies this
      ensures Valid()
      ensures var pid := old(projects[i].id);
        && projects == Filter(old(projects), ProjectIdNotIn({pid}))
        && projects == old(projects[..i] + projects[i + 1..])
        && tasks == Filter(old(tasks), NotInProjects({pid}))
        && histories == Filter(old(histories), OfTaskNotIn(TaskIdsInProjects(old(tasks), {pid})))
        && users == old(users)
        && Snapshot() == old(Snapshot()).(projects := projects, tasks := tasks, histories := histories)
    {
      var db := Snapshot();
      var pid := projects[i].id;
      RemoveProjectKeepsRules(db, pid);
      ProjectRemovalIsExact(projects, i);
      Load(db.(projects := Filter(db.projects, ProjectIdNotIn({pid})),
               tasks := Filter(db.tasks, NotInProjects({pid})),
               histories := Filter(db.histories, OfTaskNotIn(TaskIdsInProjects(db.tasks, {pid})))));
    }

    // ---------------------------------------------------------------- tasks

    /** Insert a task with the next identity value. */
    method AddTask(t: Task) returns (r: Result<int, DbFault>)
      requires Valid()
      modifies this
      ensures Valid()
      ensures r.Failure? <==>
        !TaskFits(t) || t.projectId !in old(ProjectIds(projects)) || t.userId !in old(UserIds(users))
      ensures r.Failure? ==> unchanged(this)
      ensures r.Success? ==> (
        && r.value == old(nextTaskId)
        && tasks == old(tasks) + [t.(id := r.value)]
        && users == old(users) && projects == old(projects) && histories == old(histories)
        && nextHistoryId == old(nextHistoryId)
        && Snapshot() == old(Snapshot()).(tasks := tasks, nextTaskId := old(nextTaskId) + 1))
    {
      if !TaskFits(t) {
        return Failure(MaxLengthViolation);
      }
      if t.projectId !in ProjectIds(projects) || t.userId !in UserIds(users) {
        return Failure(ForeignKeyViolation);
      }
      var row := t.(id := nextTaskId);
      AddTaskKeepsRules(Snapshot(), row);
      tasks := tasks + [row];
      nextTaskId := nextTaskId + 1;
      r := Success(row.id);
    }

    /** Save the tracked task at index `i` after its fields were assigned; its key cannot change. */
    method SaveTask(i: nat, t: Task) returns (fault: Option<DbFault>)
      requires Valid()
      requires i < |tasks| && t.id == tasks[i].id
      modifies this
      ensures Valid()
      ensures fault.Some? <==>
        !TaskFits(t) || t.projectId !in old(ProjectIds(projects)) || t.userId !in old(UserIds(users))
      ensures fault.Some? ==> unchanged(this)
      ensures fault.None? ==> (
        && tasks == old(tasks)[i := t]
        && users == old(users) && projects == old(projects) && histories == old(histories)
        && nextHistoryId == old(nextHistoryId)
        && Snapshot() == old(Snapshot()).(tasks := tasks))
    {
      if !TaskFits(t) {
        return Some(MaxLengthViolation);
      }
      if t.projectId !in ProjectIds(projects) || t.userId !in UserIds(users) {
        return Some(ForeignKeyViolation);
      }
      UpdateTaskKeepsRules(Snapshot(), i, t);
      tasks := tasks[i := t];
      fault := None;
    }

    /** Delete the task at index `i`; its history rows cascade. */
    method RemoveTask(i: nat)
      requires Valid()
      requires i < |tasks|
      modifies this
      ensures Valid()
      ensures var tid := old(tasks[i].id);
        && tasks == Filter(old(tasks), TaskIdNotIn({tid}))
        && tasks == old(tasks[..i] + tasks[i + 1..])
        && histories == Filter(old(histories), OfTaskNotIn({tid}))
        && users == old(users) && projects == old(projects)
        && Snapshot() == old(Snapshot()).(tasks := tasks, histories := histories)
    {
      var tid := tasks[i].id;
      RemoveTaskKeepsRules(Snapshot(), tid);
      TaskRemovalIsExact(tasks, i);
      tasks := Filter(tasks, TaskIdNotIn({tid}));
      histories := Filter(histories, OfTaskNotIn({tid}));
    }

    // ---------------------------------------------------------------- history

    /** Insert a history row with the next identity value. */
    method AddHistory(h: TaskHistory) returns (r: Result<int, DbFault>)
      requires Valid()
      modifies this
      ensures Valid()
      ensures r.Failure? <==>
        !HistoryFits(h) || h.taskId !in old(TaskIds(tasks)) || h.userId !in old(UserIds(users))
      ensures r.Failure? ==> unchanged(this)
      ensures r.Success? ==> (
        && r.value == old(nextHistoryId)
        && histories == old(histories) + [h.(id := r.value)]
        && users == old(users) && projects == old(projects) && tasks == old(tasks)
        && Snapshot() == old(Snapshot()).(histories := histories, nextHistoryId := old(nextHistoryId) + 1))
    {
      if !HistoryFits(h) {
        return Failure(MaxLengthViolation);
      }
      if h.taskId !in TaskIds(tasks) || h.userId !in UserIds(users) {
        return Failure(ForeignKeyViolation);
      }
      var row := h.(id := nextHistoryId);
      AddHistoryKeepsRules(Snapshot(), row);
      histories := histories + [row];
      nextHistoryId := nextHistoryId + 1;
      r := Success(row.id);
    }
  }

  /** Every row of a query has its response in the projected list. */
  lemma TaskDtosOfCovers(db: Store, ts: seq<Task>)
    ensures forall t :: t in ts ==> db.TaskDtoOf(t) in db.TaskDtosOf(ts)
  {
    var r := db.TaskDtosOf(ts);
    forall t | t in ts ensures db.TaskDtoOf(t) in r {
      var k :| 0 <= k < |ts| && ts[k] == t;
      assert r[k] == db.TaskDtoOf(t);
    }
  }

  /** Every response in the projected list comes from a row of the query. */
  lemma TaskDtosOfFrom(db: Store, ts: seq<Task>)
    ensures forall d :: d in db.TaskDtosOf(ts) ==> exists t :: t in ts && d == db.TaskDtoOf(t)
  {
    var r := db.TaskDtosOf(ts);
    forall d | d in r ensures exists t :: t in ts && d == db.TaskDtoOf(t) {
      var k :| 0 <= k < |r| && r[k] == d;
      assert ts[k] in ts;
    }
  }

  lemma ProjectDtosOfCovers(db: Store, ps: seq<Project>)
    ensures forall p :: p in ps ==> db.ProjectDtoOf(p) in db.ProjectDtosOf(ps)
  {
    var r := db.ProjectDtosOf(ps);
    forall p | p in ps ensures db.ProjectDtoOf(p) in r {
      var k :| 0 <= k < |ps| && ps[k] == p;
      assert r[k] == db.ProjectDtoOf(p);
    }
  }

  lemma ProjectDtosOfFrom(db: Store, ps: seq<Project>)
    ensures forall d :: d in db.ProjectDtosOf(ps) ==> exists p :: p in ps && d == db.ProjectDtoOf(p)
  {
    var r := db.ProjectDtosOf(ps);
    forall d | d in r ensures exists p :: p in ps && d == db.ProjectDtoOf(p) {
      var k :| 0 <= k < |r| && r[k] == d;
      assert ps[k] in ps;
    }
  }
}

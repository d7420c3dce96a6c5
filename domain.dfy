/** The entities, enumerations, request shapes and response shapes of the task
    management API (Models/Task.cs, DTOs/TaskDto.cs and the column limits of the
    database schema). Timestamps are whole seconds on one integer clock. */
module Domain {
  import opened Wrappers

  // ---------------------------------------------------------------- enumerations

  /** The four states of a task; `Pending` is the enum's zero value. */
  datatype TaskStatus = Pending | InProgress | Completed | Cancelled

  /** The three priorities of a task; `Low` is the enum's zero value. */
  datatype TaskPriority = Low | Medium | High

  /** The enum member's name, as `ToString()` and string interpolation print it. */
  function StatusName(s: TaskStatus): (r: string)
    ensures 0 < |r| <= 10
  {
    match s
    case Pending => "Pending"
    case InProgress => "InProgress"
    case Completed => "Completed"
    case Cancelled => "Cancelled"
  }

  function PriorityName(p: TaskPriority): (r: string)
    ensures 0 < |r| <= 6
  {
    match p
    case Low => "Low"
    case Medium => "Medium"
    case High => "High"
  }

  /** Distinct statuses print differently, so a status change is always visible in its message. */
  lemma StatusNameInjective(a: TaskStatus, b: TaskStatus)
    requires a != b
    ensures StatusName(a) != StatusName(b)
  {
    match a
    case Pending => assert StatusName(a)[0] == 'P';
    case InProgress => assert StatusName(a)[0] == 'I';
    case Completed => assert StatusName(a)[1] == 'o';
    case Cancelled => assert StatusName(a)[1] == 'a';
  }

  // ---------------------------------------------------------------- column limits

  const UserNameMax := 100
  const UserEmailMax := 255
  const UserRoleMax := 50
  const ProjectNameMax := 200
  const ProjectDescriptionMax := 1000
  const TaskTitleMax := 300
  const TaskDescriptionMax := 2000
  const CommentMax := 2000

  /** The task cap the create endpoint advertises. */
  const MaxTasksPerProject := 20

  /** Role strings the services compare against. */
  const ManagerRole := "Manager"
  const UserRole := "User"

  /** A nullable string column of bounded length: `null` always fits. */
  predicate FitsOpt(s: Option<string>, max: nat) {
    s.Some? ==> |s.value| <= max
  }

  // ---------------------------------------------------------------- rows

  datatype User = User(id: int, name: string, email: string, role: string, createdAt: int)

  datatype Project = Project(
    id: int,
    name: string,
    description: Option<string>,
    createdAt: int,
    updatedAt: Option<int>,
    userId: int)

  datatype Task = Task(
    id: int,
    title: string,
    description: Option<string>,
    status: TaskStatus,
    priority: TaskPriority,
    createdAt: int,
    updatedAt: Option<int>,
    dueDate: Option<int>,
    projectId: int,
    userId: int)

  datatype TaskHistory = TaskHistory(id: int, comment: string, createdAt: int, taskId: int, userId: int)

  /** A task as `new Task { ... }` builds it before it is saved: status takes its
      default, `UpdatedAt` is unset, and the id is the one the store assigns. */
  function NewTask(id: int, title: string, description: Option<string>, priority: TaskPriority,
                   dueDate: Option<int>, projectId: int, userId: int, now: int): (t: Task)
    ensures t.status == Pending && t.updatedAt == None && t.createdAt == now
    ensures t.id == id && t.title == title && t.description == description && t.priority == priority
    ensures t.dueDate == dueDate && t.projectId == projectId && t.userId == userId
  {
    Task(id, title, description, Pending, priority, now, None, dueDate, projectId, userId)
  }

  // ---------------------------------------------------------------- requests

  /** `char.IsWhiteSpace`, restricted to the ASCII white-space characters. */
  predicate IsWhiteSpace(c: char) {
    c == ' ' || c == '\t' || c == '\n' || c == '\r' || c == 11 as char || c == 12 as char
  }

  /** What `[Required]` rejects in a string: empty or only white space. */
  predicate IsBlank(s: string) {
    forall i :: 0 <= i < |s| ==> IsWhiteSpace(s[i])
  }

  datatype CreateTaskDto = CreateTaskDto(
    title: string,
    description: Option<string>,
    priority: TaskPriority,
    dueDate: Option<int>,
    projectId: int,
    userId: int)

  /** The update request: there is no priority field, so an update cannot reach a task's priority. */
  datatype UpdateTaskDto = UpdateTaskDto(
    title: string,
    description: Option<string>,
    status: TaskStatus,
    dueDate: Option<int>)

  datatype AddTaskCommentDto = AddTaskCommentDto(comment: string, userId: int)

  datatype CreateProjectDto = CreateProjectDto(name: string, description: Option<string>, userId: int)

  datatype UpdateProjectDto = UpdateProjectDto(name: string, description: Option<string>)

  /** The data annotations of `CreateTaskDto`: `[Required, StringLength(300)]` title,
      `[StringLength(2000)]` description; priority, project and user are value types and always present. */
  predicate ValidCreateTask(d: CreateTaskDto) {
    !IsBlank(d.title) && |d.title| <= TaskTitleMax && FitsOpt(d.description, TaskDescriptionMax)
  }

  predicate ValidUpdateTask(d: UpdateTaskDto) {
    !IsBlank(d.title) && |d.title| <= TaskTitleMax && FitsOpt(d.description, TaskDescriptionMax)
  }

  predicate ValidAddComment(d: AddTaskCommentDto) {
    !IsBlank(d.comment) && |d.comment| <= CommentMax
  }

  // ---------------------------------------------------------------- responses

  datatype TaskHistoryDto = TaskHistoryDto(id: int, comment: string, createdAt: int, userName: string)

  datatype TaskResponseDto = TaskResponseDto(
    id: int,
    title: string,
    description: Option<string>,
    status: TaskStatus,
    priority: TaskPriority,
    createdAt: int,
    updatedAt: Option<int>,
    dueDate: Option<int>,
    projectId: int,
    projectName: string,
    userId: int,
    userName: string,
    taskHistories: seq<TaskHistoryDto>)

  /** `new TaskResponseDto()`: every field at its default (ids 0, empty strings,
      zero-valued enums, the minimum timestamp, which is 0 here, and no history). */
  const EmptyTaskResponse := TaskResponseDto(0, "", None, Pending, Low, 0, None, None, 0, "", 0, "", [])

  datatype ProjectResponseDto = ProjectResponseDto(
    id: int,
    name: string,
    description: Option<string>,
    createdAt: int,
    updatedAt: Option<int>,
    userId: int,
    userName: string,
    taskCount: int)

  datatype UserTaskReportDto = UserTaskReportDto(
    userId: int,
    userName: string,
    userEmail: string,
    averageCompletedTasks: real,
    totalCompletedTasks: int,
    reportDate: int)

  /** History rows listed oldest first. */
  ghost predicate Chronological(hs: seq<TaskHistoryDto>) {
    forall i, j :: 0 <= i < j < |hs| ==> hs[i].createdAt <= hs[j].createdAt
  }

  lemma ChronologicalTail(s: seq<TaskHistoryDto>)
    requires Chronological(s) && |s| > 0
    ensures Chronological(s[1..])
    ensures forall y :: y in s[1..] ==> s[0].createdAt <= y.createdAt
  {
    var tail := s[1..];
    forall i, j | 0 <= i < j < |tail| ensures tail[i].createdAt <= tail[j].createdAt {
      assert tail[i] == s[i + 1] && tail[j] == s[j + 1];
    }
    forall y | y in tail ensures s[0].createdAt <= y.createdAt {
      var k :| 0 <= k < |tail| && tail[k] == y;
      assert tail[k] == s[k + 1];
    }
  }

  lemma ChronologicalCons(y: TaskHistoryDto, rest: seq<TaskHistoryDto>)
    requires Chronological(rest)
    requires forall z :: z in rest ==> y.createdAt <= z.createdAt
    ensures Chronological([y] + rest)
  {
    var r := [y] + rest;
    forall i, j | 0 <= i < j < |r| ensures r[i].createdAt <= r[j].createdAt {
      assert r[j] == rest[j - 1] && r[j] in rest;
      if i > 0 { assert r[i] == rest[i - 1]; }
    }
  }

  /** Insert `x` before the first entry that is not older than it, so that equal
      timestamps keep their original order (`OrderBy` is stable). */
  function InsertByCreatedAt(x: TaskHistoryDto, s: seq<TaskHistoryDto>): (r: seq<TaskHistoryDto>)
    requires Chronological(s)
    ensures Chronological(r)
    ensures multiset(r) == multiset(s) + multiset{x}
    ensures |r| == |s| + 1
    ensures forall y :: y in r ==> y == x || y in s
  {
    if s == [] then [x]
    else if x.createdAt <= s[0].createdAt then
      ChronologicalTail(s);
      assert s == [s[0]] + s[1..];
      ChronologicalCons(x, s);
      [x] + s
    else
      ChronologicalTail(s);
      var rest := InsertByCreatedAt(x, s[1..]);
      assert s == [s[0]] + s[1..];
      ChronologicalCons(s[0], rest);
      [s[0]] + rest
  }

  /** `OrderBy(th => th.CreatedAt)`: a chronological permutation of the input. */
  function OrderByCreatedAt(s: seq<TaskHistoryDto>): (r: seq<TaskHistoryDto>)
    ensures Chronological(r)
    ensures multiset(r) == multiset(s)
    ensures |r| == |s|
    ensures forall y :: y in r <==> y in s
  {
    if s == [] then []
    else
      assert s == [s[0]] + s[1..];
      var r := InsertByCreatedAt(s[0], OrderByCreatedAt(s[1..]));
      assert forall y :: y in r <==> y in multiset(r);
      assert forall y :: y in s <==> y in multiset(s);
      r
  }
}

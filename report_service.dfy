/** The report service (Services/ReportService.cs): for a manager, one row per
    regular user counting the tasks that user completed in the last thirty days. */
module ReportService {
  import opened Wrappers
  import opened Seqs
  import opened Domain
  import opened Db

  const ManagersOnlyMessage := "Apenas gerentes podem acessar este relatório"

  /** Thirty days in seconds, the unit of the model's clock. */
  const ThirtyDays := 30 * 86400

  function HasRole(role: string): User -> bool { (u: User) => u.role == role }

  /** A task of `userId` that is completed and was last updated at or after `since`;
      a task never updated has a null `UpdatedAt`, which compares false. */
  function CompletedSince(userId: int, since: int): Task -> bool {
    (t: Task) => t.userId == userId && t.status == Completed && t.updatedAt.Some? && t.updatedAt.value >= since
  }

  function AssignedTo(userId: int): Task -> bool { (t: Task) => t.userId == userId }

  /** `IsManagerAsync`: the user exists and has the role `"Manager"`. */
  function IsManager(db: Store, userId: int): (ok: bool)
    reads db
    ensures ok ==> exists u :: u in db.users && u.id == userId && u.role == ManagerRole
    ensures IncreasingBy(db.users, UserKey) ==>
      (ok <== exists u :: u in db.users && u.id == userId && u.role == ManagerRole)
  {
    match IndexWhere(db.users, UserIdIs(userId))
    case Some(i) =>
      assert db.users[i] in db.users;
      assert IncreasingBy(db.users, UserKey) ==> forall u :: u in db.users && u.id == userId ==> u == db.users[i] by {
        if IncreasingBy(db.users, UserKey) {
          forall j | 0 <= j < |db.users| && j != i ensures db.users[j].id != userId {
            if j < i { assert UserKey(db.users[j]) < UserKey(db.users[i]); }
            else { assert UserKey(db.users[i]) < UserKey(db.users[j]); }
          }
        }
      }
      db.users[i].role == ManagerRole
    case None => false
  }

  /** `TotalCompletedTasks` of one user. */
  function CompletedCount(db: Store, userId: int, now: int): (n: nat)
    reads db
    ensures n <= |Filter(db.tasks, AssignedTo(userId))|
  {
    CountImplied(db.tasks, CompletedSince(userId, now - ThirtyDays), AssignedTo(userId));
    |Filter(db.tasks, CompletedSince(userId, now - ThirtyDays))|
  }

  /** Filtering by a stronger condition keeps no more elements. */
  lemma {:induction false} CountImplied(ts: seq<Task>, p: Task -> bool, q: Task -> bool)
    requires forall t :: p(t) ==> q(t)
    ensures |Filter(ts, p)| <= |Filter(ts, q)|
  {
    if ts != [] {
      CountImplied(ts[1..], p, q);
    }
  }

  /** The row the query projects for a regular user, before the averages are filled in. */
  function ProjectedRow(db: Store, u: User, now: int): UserTaskReportDto
    reads db
  {
    UserTaskReportDto(u.id, u.name, u.email, 0.0, CompletedCount(db, u.id, now), now)
  }

  function ProjectedRows(db: Store, us: seq<User>, now: int): (r: seq<UserTaskReportDto>)
    reads db
    ensures |r| == |us|
    ensures forall i :: 0 <= i < |us| ==> r[i] == ProjectedRow(db, us[i], now)
  {
    if us == [] then [] else [ProjectedRow(db, us[0], now)] + ProjectedRows(db, us[1..], now)
  }

  /** The finished report row: `AverageCompletedTasks` is the total over thirty days. */
  function ReportRow(db: Store, u: User, now: int): UserTaskReportDto
    reads db
  {
    ProjectedRow(db, u, now).(averageCompletedTasks := CompletedCount(db, u.id, now) as real / 30.0)
  }

  /** `GetUserTaskReportAsync`: refuse anyone but a manager; otherwise one row per
      user whose role is `"User"`, in table order, with the completed-task total of
      the last thirty days (the bound is inclusive) and its daily average. */
  method GetUserTaskReport(db: Store, managerUserId: int, now: int)
    returns (r: Result<seq<UserTaskReportDto>, ServiceError>)
    ensures r.Failure? <==> !IsManager(db, managerUserId)
    ensures r.Failure? ==> r.error == UnauthorizedAccess(ManagersOnlyMessage)
    ensures r.Success? ==> (
      var regular := Filter(db.users, HasRole(UserRole));
      && |r.value| == |regular|
      && forall i :: 0 <= i < |regular| ==> r.value[i] == ReportRow(db, regular[i], now))
  {
    if !IsManager(db, managerUserId) {
      return Failure(UnauthorizedAccess(ManagersOnlyMessage));
    }
    var regular := Filter(db.users, HasRole(UserRole));
    var report := ProjectedRows(db, regular, now);
    var i := 0;
    while i < |report|
      invariant 0 <= i <= |report| == |regular|
      invariant forall k :: 0 <= k < i ==> report[k] == ReportRow(db, regular[k], now)
      invariant forall k :: i <= k < |report| ==> report[k] == ProjectedRow(db, regular[k], now)
    {
      report := report[i := report[i].(averageCompletedTasks := report[i].totalCompletedTasks as real / 30.0)];
      i := i + 1;
    }
    r := Success(report);
  }

  /** Every row's average times thirty is its total, and the total never exceeds
      the number of tasks assigned to the user. */
  lemma ReportRowFacts(db: Store, u: User, now: int)
    ensures var row := ReportRow(db, u, now);
      && row.userId == u.id && row.userName == u.name && row.userEmail == u.email && row.reportDate == now
      && row.averageCompletedTasks * 30.0 == row.totalCompletedTasks as real
      && 0 <= row.totalCompletedTasks <= |Filter(db.tasks, AssignedTo(u.id))|
  {
  }

  /** The report lists exactly the users of role `"User"`: managers never appear. */
  lemma ReportListsRegularUsers(db: Store, u: User)
    ensures u in Filter(db.users, HasRole(UserRole)) <==> u in db.users && u.role == UserRole
    ensures u.role == ManagerRole ==> u !in Filter(db.users, HasRole(UserRole))
  {
  }

  /** The window is inclusive of its start, and a task with no update time never counts. */
  lemma CompletedWindow(t: Task, now: int)
    ensures t.status == Completed && t.updatedAt == Some(now - ThirtyDays) ==> CompletedSince(t.userId, now - ThirtyDays)(t)
    ensures t.updatedAt.None? ==> !CompletedSince(t.userId, now - ThirtyDays)(t)
    ensures t.status != Completed ==> !CompletedSince(t.userId, now - ThirtyDays)(t)
  {
  }

  /** Completing one more task of a user, stamped now, adds one to that user's total. */
  lemma CompletingAddsOne(ts: seq<Task>, i: nat, now: int)
    requires i < |ts| && !CompletedSince(ts[i].userId, now - ThirtyDays)(ts[i])
    ensures var done := ts[i].(status := Completed, updatedAt := Some(now));
      |Filter(ts[i := done], CompletedSince(ts[i].userId, now - ThirtyDays))|
        == |Filter(ts, CompletedSince(ts[i].userId, now - ThirtyDays))| + 1
  {
    FilterCountReplace(ts, i, ts[i].(status := Completed, updatedAt := Some(now)), CompletedSince(ts[i].userId, now - ThirtyDays));
  }
}

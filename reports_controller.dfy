/** The report endpoint (Controllers/ReportsController.cs). */
module ReportsController {
  import opened Wrappers
  import opened Seqs
  import opened Domain
  import opened Db
  import opened Http
  import RS = ReportService

  /** `GET api/reports/user-tasks/{managerUserId}`: 401 with the service's message for
      anyone but a manager, else 200 with one row per regular user. */
  method GetUserTaskReport(db: Store, managerUserId: int, now: int) returns (res: ActionResult<seq<UserTaskReportDto>>)
    ensures res.Ok? || res == Unauthorized(RS.ManagersOnlyMessage)
    ensures res.Ok? <==> RS.IsManager(db, managerUserId)
    ensures res.Ok? ==> (
      var regular := Filter(db.users, RS.HasRole(UserRole));
      && |res.value| == |regular|
      && forall i :: 0 <= i < |regular| ==> res.value[i] == RS.ReportRow(db, regular[i], now))
  {
    var r := RS.GetUserTaskReport(db, managerUserId, now);
    match r
    case Success(rows) => res := Ok(rows);
    case Failure(UnauthorizedAccess(m)) => res := Unauthorized(m);
    case Failure(e) => res := BadRequest("Erro ao gerar relatório: " + ErrorMessage(e));
  }
}

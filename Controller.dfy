/** EmployeeReportController: the request handlers under the "reports" path.

    Each handler is modelled by what it decides: which page it ends on, which
    model attributes that page carries, and which service call it makes. The
    logged-in user is an input (the authentication layer and
    EmployeeService.findByCode are outside the model), form validation is the
    input `hasErrors`, the clock is `now` and the store's integrity exception is
    `storeFails`. */
module Controller {
  import opened Constants
  import opened Repository
  import opened Service

  /** The role value an administrator's employee record carries. */
  const Administrator: string := "管理者"

  /** The redirect every successful POST ends with. */
  const ReportsRedirect: string := "redirect:/reports"

  /** The logged-in employee: code, display name and role value. */
  datatype LoginUser = LoginUser(code: EmployeeCode, name: string, role: string)

  /** What a handler returns: a view with the model attributes it set, or the
      redirect to the list. */
  datatype Page =
    | ListView(listSize: nat, reportList: Table)
    | DetailView(report: Option<Report>, error: Option<ErrorKinds>)
    | NewForm(loginUser: string, error: Option<ErrorKinds>)
    | EditForm(report: Option<Report>)
    | UpdateRetry(error: Option<ErrorKinds>)
    | RedirectToList

  /** The string a handler returns for a page. */
  function ViewName(p: Page): string
  {
    match p
    case ListView(_, _) => "reports/list"
    case DetailView(_, _) => "reports/detail"
    case NewForm(_, _) => "reports/new"
    case EditForm(_) => "reports/update"
    case UpdateRetry(_) => "reports/update"
    case RedirectToList => ReportsRedirect
  }

  /** The error attribute a handler puts on the model for a service outcome: the
      returned kind, or DUPLICATE_EXCEPTION_ERROR for a caught integrity
      exception; none for a kind without a message. */
  function ErrorFor(outcome: Outcome): (e: Option<ErrorKinds>)
    ensures e.None? <==> outcome == Returned(Success)
    ensures outcome == IntegrityViolation ==> e == Some(DuplicateExceptionError)
    ensures outcome.Returned? && outcome.kind != Success ==> e == Some(outcome.kind)
  {
    match outcome
    case IntegrityViolation => Some(DuplicateExceptionError)
    case Returned(kind) => if HasMessage(kind) then Some(kind) else None
  }

  /** POST add, after `save`: a kind with a message or a caught integrity exception
      re-renders the creation form with the error; otherwise the list. */
  function AfterSave(user: LoginUser, outcome: Outcome): (p: Page)
    ensures ViewName(p) == ReportsRedirect <==> outcome == Returned(Success)
    ensures outcome != Returned(Success) ==> p == NewForm(user.name, ErrorFor(outcome)) && p.error.Some?
  {
    match outcome
    case IntegrityViolation => NewForm(user.name, Some(DuplicateExceptionError))
    case Returned(kind) =>
      if HasMessage(kind) then NewForm(user.name, Some(kind)) else RedirectToList
  }

  /** POST update, after `update`: a kind with a message or a caught integrity
      exception re-renders the update form with the error; otherwise the list. */
  function AfterUpdate(outcome: Outcome): (p: Page)
    ensures ViewName(p) == ReportsRedirect <==> outcome == Returned(Success)
    ensures outcome != Returned(Success) ==> p == UpdateRetry(ErrorFor(outcome)) && p.error.Some?
  {
    match outcome
    case IntegrityViolation => UpdateRetry(Some(DuplicateExceptionError))
    case Returned(kind) =>
      if HasMessage(kind) then UpdateRetry(Some(kind)) else RedirectToList
  }

  /** POST delete, after `delete`: a kind with a message re-renders the detail view
      with the error and the reloaded report; otherwise the list. */
  function AfterDelete(result: ErrorKinds, report: Option<Report>): (p: Page)
    ensures ViewName(p) == ReportsRedirect <==> !HasMessage(result)
    ensures HasMessage(result) ==> p == DetailView(report, Some(result))
  {
    if HasMessage(result) then DetailView(report, Some(result)) else RedirectToList
  }

  /** POST update as the handler evidently intends it: the row loaded by the
      path id is the row rewritten, with its owner and creation time kept, so
      the (employee, date) invariant always survives. */
  function UpdateUnderPathId(t: Table, id: ReportId, report: Report, now: int, storeFails: bool): (s: Step)
    requires id in t
    ensures s.outcome == Returned(Success) <==>
      !storeFails && !(report.reportDate != t[id].reportDate &&
                       ExistsByEmployeeAndReportDate(t, t[id].employee, report.reportDate))
    ensures s.outcome != Returned(Success) ==> s.table == t
    ensures s.outcome == Returned(Success) ==>
      && s.table.Keys == t.Keys
      && s.table[id].employee == t[id].employee
      && s.table[id].createdAt == t[id].createdAt
      && s.table[id].reportDate == report.reportDate
      && !s.table[id].deleteFlg
      && (forall k :: k in t && k != id ==> s.table[k] == t[k])
    ensures UniqueDates(t) ==> UniqueDates(s.table)
  {
    var previous := t[id];
    UpdateStep(t, id, report.(employee := previous.employee, createdAt := previous.createdAt), previous, now, storeFails)
  }

  /** POST update as written, with a form id naming another row than the path:
      that row is written with the path row's owner, creation time and date, so
      two rows end up sharing (employee, date) and the invariant is lost. A row
      already stored under the form id also passes to the path row's owner. */
  lemma FormIdOverPathIdBreaksUniqueDates(t: Table, id: ReportId, formId: ReportId, report: Report, now: int)
    requires UniqueDates(t)
    requires id in t && formId != id
    requires report.reportDate == t[id].reportDate
    ensures var previous := t[id];
      var bound := report.(employee := previous.employee, createdAt := previous.createdAt);
      var s := UpdateStep(t, formId, bound, previous, now, false);
      && s.outcome == Returned(Success)
      && s.table[formId].employee == t[id].employee
      && s.table[id] == t[id]
      && !UniqueDates(s.table)
  {
  }

  class EmployeeReportController {
    const reportService: ReportService

    constructor(reportService: ReportService)
      ensures this.reportService == reportService
    {
      this.reportService := reportService;
    }

    /** GET /reports: an administrator sees every row, anyone else only the rows
        they own; deleted rows are listed either way. */
    function List(user: LoginUser): (p: Page)
      reads reportService
      ensures ViewName(p) == "reports/list"
      ensures p.ListView? && p.listSize == |p.reportList|
      ensures forall id :: id in p.reportList ==>
        id in reportService.table && p.reportList[id] == reportService.table[id]
      ensures user.role == Administrator ==> p.reportList.Keys == reportService.table.Keys
      ensures user.role != Administrator ==> forall id :: id in reportService.table ==>
        (id in p.reportList <==> reportService.table[id].employee == user.code)
    {
      if user.role == Administrator then
        ListView(|reportService.FindAll()|, reportService.FindAll())
      else
        ListView(|reportService.FindByEmployee(user.code)|, reportService.FindByEmployee(user.code))
    }

    /** GET /reports/{id}/: the detail view of whatever is stored under `id`, with no
        existence guard (None stands for the null the view then gets). */
    function Detail(id: ReportId): (p: Page)
      reads reportService
      ensures ViewName(p) == "reports/detail"
      ensures p.DetailView? && p.error.None?
      ensures p.report.Some? <==> id in reportService.table
      ensures p.report.Some? ==> p.report.value == reportService.table[id]
    {
      DetailView(reportService.FindByReport(id), None)
    }

    /** GET /reports/add: the creation form, showing the logged-in user's name. */
    function Create(user: LoginUser): (p: Page)
      ensures ViewName(p) == "reports/new"
      ensures p.NewForm? && p.loginUser == user.name && p.error.None?
    {
      NewForm(user.name, None)
    }

    /** GET /reports/{id}/update: the update form for whatever is stored under `id`. */
    function Edit(id: ReportId): (p: Page)
      reads reportService
      ensures ViewName(p) == "reports/update"
      ensures p.EditForm? && (p.report.Some? <==> id in reportService.table)
      ensures p.report.Some? ==> p.report.value == reportService.table[id]
    {
      EditForm(reportService.FindByReport(id))
    }

    /** POST /reports/add. Whatever owner the form carried, the report is saved
        under the logged-in employee. */
    method Add(report: Report, hasErrors: bool, user: LoginUser, id: ReportId, now: int, storeFails: bool)
      returns (p: Page)
      modifies reportService
      ensures hasErrors ==> p == Create(user) && reportService.table == old(reportService.table)
      ensures !hasErrors ==>
        var s := SaveStep(old(reportService.table), id, report.(employee := user.code), now, storeFails);
        reportService.table == s.table && p == AfterSave(user, s.outcome)
      ensures ViewName(p) == ReportsRedirect <==>
        !hasErrors && !storeFails &&
        !ExistsByEmployeeAndReportDate(old(reportService.table), user.code, report.reportDate)
      ensures ViewName(p) != ReportsRedirect ==> reportService.table == old(reportService.table)
      ensures ViewName(p) == ReportsRedirect ==>
        id in reportService.table && reportService.table[id].employee == user.code
      ensures UniqueDates(old(reportService.table)) ==> UniqueDates(reportService.table)
    {
      var employee := user.code;
      if hasErrors {
        return Create(user);
      }
      var bound := report.(employee := employee);
      var outcome := reportService.Save(bound, id, now, storeFails);
      p := AfterSave(user, outcome);
    }

    /** POST /reports/{id}/update. The stored report is loaded by the path id
        `id`, and its owner and creation time are copied onto the submitted one
        before the validation result is checked and before the service call. The
        row is then written under the submitted report's own id, `formId`: Spring
        binds a request parameter named "id" in preference to the path variable,
        so the two differ when the form carries another report's id. */
    method Update(id: ReportId, formId: ReportId, report: Report, hasErrors: bool, now: int, storeFails: bool)
      returns (p: Page)
      requires id in reportService.table
      modifies reportService
      ensures var previous := old(reportService.table)[id];
        var bound := report.(employee := previous.employee, createdAt := previous.createdAt);
        && (hasErrors ==> p == UpdateRetry(None) && reportService.table == old(reportService.table))
        && (!hasErrors ==>
              var s := UpdateStep(old(reportService.table), formId, bound, previous, now, storeFails);
              reportService.table == s.table && p == AfterUpdate(s.outcome))
      ensures formId == id && !hasErrors ==>
        var s := UpdateUnderPathId(old(reportService.table), id, report, now, storeFails);
        reportService.table == s.table && p == AfterUpdate(s.outcome)
      ensures var previous := old(reportService.table)[id];
        ViewName(p) == ReportsRedirect <==>
          && !hasErrors && !storeFails
          && !(report.reportDate != previous.reportDate &&
               ExistsByEmployeeAndReportDate(old(reportService.table), previous.employee, report.reportDate))
      ensures ViewName(p) != ReportsRedirect ==> reportService.table == old(reportService.table)
      ensures ViewName(p) == ReportsRedirect ==>
        && formId in reportService.table
        && reportService.table[formId].employee == old(reportService.table)[id].employee
        && reportService.table[formId].createdAt == old(reportService.table)[id].createdAt
      ensures formId == id && UniqueDates(old(reportService.table)) ==> UniqueDates(reportService.table)
      ensures report.reportDate != old(reportService.table)[id].reportDate && UniqueDates(old(reportService.table)) ==>
        UniqueDates(reportService.table)
    {
      var previous := reportService.FindByReport(id).value;
      var bound := report.(employee := previous.employee);
      bound := bound.(createdAt := previous.createdAt);
      if hasErrors {
        return UpdateRetry(None);
      }
      var outcome := reportService.Update(formId, bound, previous, now, storeFails);
      p := AfterUpdate(outcome);
    }

    /** POST /reports/{id}/delete: always ends on the list, because the service's
        delete only ever returns SUCCESS. No ownership check is made. */
    method Delete(id: ReportId, now: int) returns (p: Page)
      requires id in reportService.table
      modifies reportService
      ensures p == RedirectToList && ViewName(p) == ReportsRedirect
      ensures reportService.table == DeleteStep(old(reportService.table), id, now)
      ensures UniqueDates(old(reportService.table)) ==> UniqueDates(reportService.table)
    {
      var result := reportService.Delete(id, now);
      p := AfterDelete(result, reportService.FindByReport(id));
    }
  }

  /** One employee's report through save, update and delete, starting from an
      empty table, with the owner binding the add handler makes written out and
      the update taken under the path id: the create redirects and is listed for
      its owner, an edit that keeps the date redirects and keeps the creation
      time, and the delete flags the row while it stays in the owner's list and
      the table. */
  lemma CreateUpdateDelete(user: LoginUser, id: ReportId, form: Report, edit: Report,
                           created: int, edited: int, deleted: int)
    requires edit.reportDate == form.reportDate
    ensures var s1 := SaveStep(map[], id, form.(employee := user.code), created, false);
      && s1.outcome == Returned(Success)
      && AfterSave(user, s1.outcome) == RedirectToList
      && FindByEmployee(s1.table, user.code).Keys == {id}
      && var s2 := UpdateUnderPathId(s1.table, id, edit, edited, false);
         && s2.outcome == Returned(Success)
         && AfterUpdate(s2.outcome) == RedirectToList
         && s2.table[id].title == edit.title
         && s2.table[id].createdAt == created
         && var t3 := DeleteStep(s2.table, id, deleted);
            && t3[id].deleteFlg && t3[id].updatedAt == deleted && t3[id].title == edit.title
            && FindByEmployee(t3, user.code).Keys == {id}
  {
  }
}

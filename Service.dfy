/** ReportService: the three state transitions on the report table (save with a
    duplicate-date check, update with a conditional check, soft delete) and the
    pass-through lookups.

    Each transition is first given as a function from the old table to an
    outcome and a new table (SaveStep, UpdateStep, DeleteStep), whose contract
    states the source's promises; the class's methods perform the steps on the
    stored table and are proved to agree with those functions.

    The clock is the parameter `now`. A DataIntegrityViolationException raised by
    the store's write is the input `storeFails`: the surrounding transaction then
    rolls back, so the table is left as it was. */
module Service {
  import opened Constants
  import opened Repository

  /** What a service call ends with: a returned ErrorKinds value, or the
      integrity exception the store raised while writing. */
  datatype Outcome = Returned(kind: ErrorKinds) | IntegrityViolation

  /** An outcome together with the table it leaves behind. */
  datatype Step = Step(outcome: Outcome, table: Table)

  /** save(report), with `id` the primary key the row is written under. The
      store's save is an upsert: under a fresh id the table gains one row, under
      an id already stored that row is replaced. */
  function SaveStep(t: Table, id: ReportId, report: Report, now: int, storeFails: bool): (s: Step)
    ensures s.outcome == Returned(DatecheckError) <==>
      ExistsByEmployeeAndReportDate(t, report.employee, report.reportDate)
    ensures s.outcome == IntegrityViolation <==>
      !ExistsByEmployeeAndReportDate(t, report.employee, report.reportDate) && storeFails
    ensures s.outcome == Returned(Success) <==>
      !ExistsByEmployeeAndReportDate(t, report.employee, report.reportDate) && !storeFails
    ensures s.outcome != Returned(Success) ==> s.table == t
    ensures s.outcome == Returned(Success) ==>
      && s.table.Keys == t.Keys + {id}
      && s.table[id].employee == report.employee
      && s.table[id].reportDate == report.reportDate
      && s.table[id].title == report.title
      && s.table[id].content == report.content
      && !s.table[id].deleteFlg
      && s.table[id].createdAt == now
      && s.table[id].updatedAt == now
      && (forall k :: k in t && k != id ==> s.table[k] == t[k])
    ensures s.outcome == Returned(Success) && id !in t ==> |s.table| == |t| + 1
    ensures s.outcome == Returned(Success) && id in t ==> |s.table| == |t|
    ensures UniqueDates(t) ==> UniqueDates(s.table)
  {
    if ExistsByEmployeeAndReportDate(t, report.employee, report.reportDate) then
      Step(Returned(DatecheckError), t)
    else if storeFails then
      Step(IntegrityViolation, t)
    else
      Step(Returned(Success), t[id := report.(deleteFlg := false, createdAt := now, updatedAt := now)])
  }

  /** update(report, previous), with `id` the primary key of the row being
      rewritten. The date check runs only when the date changed. */
  function UpdateStep(t: Table, id: ReportId, report: Report, previous: Report, now: int, storeFails: bool): (s: Step)
    ensures s.outcome == Returned(DatecheckError) <==>
      report.reportDate != previous.reportDate &&
      ExistsByEmployeeAndReportDate(t, report.employee, report.reportDate)
    ensures report.reportDate == previous.reportDate ==> s.outcome != Returned(DatecheckError)
    ensures s.outcome == IntegrityViolation <==>
      s.outcome != Returned(DatecheckError) && storeFails
    ensures s.outcome == Returned(Success) <==>
      s.outcome != Returned(DatecheckError) && !storeFails
    ensures s.outcome != Returned(Success) ==> s.table == t
    ensures s.outcome == Returned(Success) ==>
      && s.table.Keys == t.Keys + {id}
      && s.table[id].employee == report.employee
      && s.table[id].reportDate == report.reportDate
      && s.table[id].title == report.title
      && s.table[id].content == report.content
      && !s.table[id].deleteFlg
      && s.table[id].createdAt == report.createdAt
      && s.table[id].updatedAt == now
      && (forall k :: k in t && k != id ==> s.table[k] == t[k])
    ensures UniqueDates(t) && id in t && previous == t[id] && report.employee == previous.employee ==>
      UniqueDates(s.table)
    ensures UniqueDates(t) && report.reportDate != previous.reportDate ==> UniqueDates(s.table)
  {
    if report.reportDate != previous.reportDate &&
       ExistsByEmployeeAndReportDate(t, report.employee, report.reportDate) then
      Step(Returned(DatecheckError), t)
    else if storeFails then
      Step(IntegrityViolation, t)
    else
      Step(Returned(Success), t[id := report.(deleteFlg := false, updatedAt := now)])
  }

  /** delete(id): the row stays, flagged deleted and stamped. */
  function DeleteStep(t: Table, id: ReportId, now: int): (t': Table)
    requires id in t
    ensures t'.Keys == t.Keys
    ensures t'[id].deleteFlg && t'[id].updatedAt == now
    ensures t'[id].(deleteFlg := t[id].deleteFlg, updatedAt := t[id].updatedAt) == t[id]
    ensures forall k :: k in t && k != id ==> t'[k] == t[k]
    ensures UniqueDates(t) ==> UniqueDates(t')
  {
    t[id := t[id].(deleteFlg := true, updatedAt := now)]
  }

  class ReportService {
    /** The report table behind ReportRepository. */
    var table: Table

    constructor(initial: Table)
      ensures table == initial
    {
      table := initial;
    }

    /** findAll: every stored row, soft-deleted ones included. */
    function FindAll(): (rows: Table)
      reads this
      ensures rows.Keys == table.Keys
      ensures forall id :: id in rows ==> rows[id] == table[id]
    {
      table
    }

    /** findByReport: the row under `id`, or None where the source returns null. */
    function FindByReport(id: ReportId): (r: Option<Report>)
      reads this
      ensures r.Some? <==> id in table
      ensures r.Some? ==> r.value == table[id]
    {
      FindById(table, id)
    }

    /** findByEmployee: the rows owned by `employee`, soft-deleted ones included. */
    function FindByEmployee(employee: EmployeeCode): (rows: Table)
      reads this
      ensures forall id :: id in rows <==> id in table && table[id].employee == employee
      ensures forall id :: id in rows ==> rows[id] == table[id]
    {
      Repository.FindByEmployee(table, employee)
    }

    /** existsByEmployeeAndDate: whether a row, deleted or not, has both. */
    function ExistsByEmployeeAndDate(employee: EmployeeCode, reportDate: int): (b: bool)
      reads this
      ensures b <==> exists id :: id in table && table[id].employee == employee && table[id].reportDate == reportDate
    {
      ExistsByEmployeeAndReportDate(table, employee, reportDate)
    }

    /** save: the date check, then the stamps, then the write. */
    method Save(report: Report, id: ReportId, now: int, storeFails: bool) returns (outcome: Outcome)
      modifies this
      ensures Step(outcome, table) == SaveStep(old(table), id, report, now, storeFails)
    {
      if ExistsByEmployeeAndDate(report.employee, report.reportDate) {
        return Returned(DatecheckError);
      }
      var row := report.(deleteFlg := false);
      row := row.(createdAt := now);
      row := row.(updatedAt := now);
      if storeFails {
        return IntegrityViolation;
      }
      table := table[id := row];
      return Returned(Success);
    }

    /** update: the date check only when the date changed, then the stamps, then
        the write under the report's id. Owner and creation time are whatever the
        caller put on `report`. */
    method Update(id: ReportId, report: Report, previous: Report, now: int, storeFails: bool) returns (outcome: Outcome)
      modifies this
      ensures Step(outcome, table) == UpdateStep(old(table), id, report, previous, now, storeFails)
    {
      if report.reportDate != previous.reportDate && ExistsByEmployeeAndDate(report.employee, report.reportDate) {
        return Returned(DatecheckError);
      }
      var row := report.(deleteFlg := false);
      row := row.(updatedAt := now);
      if storeFails {
        return IntegrityViolation;
      }
      table := table[id := row];
      return Returned(Success);
    }

    /** delete: the loaded row is stamped and flagged in place; the result is
        always SUCCESS. */
    method Delete(id: ReportId, now: int) returns (result: ErrorKinds)
      requires id in table
      modifies this
      ensures result == Success
      ensures table == DeleteStep(old(table), id, now)
    {
      var report := FindByReport(id).value;
      report := report.(updatedAt := now);
      report := report.(deleteFlg := true);
      table := table[id := report];
      return Success;
    }
  }

  /** Two saves for one employee and one date: the second is rejected and
      leaves the table as the first left it. */
  lemma SameDateTwiceRejected(t: Table, id1: ReportId, id2: ReportId, r1: Report, r2: Report,
                              now1: int, now2: int, storeFails: bool)
    requires SaveStep(t, id1, r1, now1, false).outcome == Returned(Success)
    requires r2.employee == r1.employee && r2.reportDate == r1.reportDate
    ensures var t1 := SaveStep(t, id1, r1, now1, false).table;
      SaveStep(t1, id2, r2, now2, storeFails) == Step(Returned(DatecheckError), t1)
  {
  }

  /** Two saves for one employee on different dates both succeed. */
  lemma DifferentDatesBothSaved(t: Table, id1: ReportId, id2: ReportId, r1: Report, r2: Report,
                                now1: int, now2: int)
    requires r1.employee == r2.employee && r1.reportDate != r2.reportDate
    requires !ExistsByEmployeeAndReportDate(t, r1.employee, r1.reportDate)
    requires !ExistsByEmployeeAndReportDate(t, r2.employee, r2.reportDate)
    ensures SaveStep(t, id1, r1, now1, false).outcome == Returned(Success)
    ensures SaveStep(SaveStep(t, id1, r1, now1, false).table, id2, r2, now2, false).outcome == Returned(Success)
  {
  }

  /** A soft-deleted report still blocks its date for its owner: a later save on
      that date is rejected. */
  lemma DeletedReportBlocksItsDate(t: Table, id: ReportId, now: int, newId: ReportId, report: Report,
                                   later: int, storeFails: bool)
    requires id in t
    requires report.employee == t[id].employee && report.reportDate == t[id].reportDate
    ensures SaveStep(DeleteStep(t, id, now), newId, report, later, storeFails) ==
      Step(Returned(DatecheckError), DeleteStep(t, id, now))
  {
  }

  /** A soft-deleted report does not block its date for good: updating that row
      (owner and creation time copied from it, as the controller does) to a date
      its owner has not used succeeds, clears the delete flag and frees the old
      date. */
  lemma UpdateUndeletesAndFreesDate(t: Table, id: ReportId, deleted: int, edit: Report,
                                    now: int)
    requires UniqueDates(t)
    requires id in t
    requires edit.reportDate != t[id].reportDate
    requires !ExistsByEmployeeAndReportDate(t, t[id].employee, edit.reportDate)
    ensures var t1 := DeleteStep(t, id, deleted);
      var bound := edit.(employee := t1[id].employee, createdAt := t1[id].createdAt);
      var s := UpdateStep(t1, id, bound, t1[id], now, false);
      && s.outcome == Returned(Success)
      && !s.table[id].deleteFlg
      && !ExistsByEmployeeAndReportDate(s.table, t[id].employee, t[id].reportDate)
  {
  }

  /** Soft delete is invisible to both derived queries: the employee's list keeps
      the same ids and every (employee, date) pair keeps its answer. */
  lemma DeleteKeepsQueries(t: Table, id: ReportId, now: int, employee: EmployeeCode, reportDate: int)
    requires id in t
    ensures FindByEmployee(DeleteStep(t, id, now), employee).Keys == FindByEmployee(t, employee).Keys
    ensures ExistsByEmployeeAndReportDate(DeleteStep(t, id, now), employee, reportDate) ==
      ExistsByEmployeeAndReportDate(t, employee, reportDate)
  {
  }
}

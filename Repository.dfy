/** The report table and the queries ReportRepository declares over it.

    The repository is keyed by the report's String id, so the table is a map:
    it holds at most one row per id. Neither derived query looks at the
    soft-delete flag, so deleted rows are seen by both. */
module Repository {

  type EmployeeCode = string
  type ReportId = string

  datatype Option<T> = None | Some(value: T)

  /** One stored daily report. Dates and timestamps are integers. */
  datatype Report = Report(
    employee: EmployeeCode,
    reportDate: int,
    title: string,
    content: string,
    deleteFlg: bool,
    createdAt: int,
    updatedAt: int)

  type Table = map<ReportId, Report>

  /** findById, inherited from the generic repository. */
  function FindById(t: Table, id: ReportId): (r: Option<Report>)
    ensures r.Some? <==> id in t
    ensures r.Some? ==> r.value == t[id]
  {
    if id in t then Some(t[id]) else None
  }

  /** findByEmployee: the rows owned by `employee`, deleted ones included. */
  function FindByEmployee(t: Table, employee: EmployeeCode): (rows: Table)
    ensures rows.Keys <= t.Keys
    ensures forall id :: id in t ==> (id in rows <==> t[id].employee == employee)
    ensures forall id :: id in rows ==> rows[id] == t[id]
  {
    map id | id in t && t[id].employee == employee :: t[id]
  }

  /** The dates on which `employee` owns a stored row. */
  function ReportDates(t: Table, employee: EmployeeCode): set<int>
  {
    set id | id in t && t[id].employee == employee :: t[id].reportDate
  }

  /** existsByEmployeeAndReportDate: some row, deleted or not, has both the
      employee and the date. */
  function ExistsByEmployeeAndReportDate(t: Table, employee: EmployeeCode, reportDate: int): (b: bool)
    ensures b <==> exists id :: id in t && t[id].employee == employee && t[id].reportDate == reportDate
  {
    reportDate in ReportDates(t, employee)
  }

  /** The table invariant the date check maintains: no two stored rows share an
      (employee, reportDate) pair. Soft-deleted rows take part. */
  ghost predicate UniqueDates(t: Table)
  {
    forall i, j :: i in t && j in t && i != j && t[i].employee == t[j].employee ==>
      t[i].reportDate != t[j].reportDate
  }

  /** The two derived queries agree: a row exists for (employee, date) exactly when
      the employee's list holds a row on that date. */
  lemma ExistsIffListedOnDate(t: Table, employee: EmployeeCode, reportDate: int)
    ensures ExistsByEmployeeAndReportDate(t, employee, reportDate) <==>
      exists id :: id in FindByEmployee(t, employee) && FindByEmployee(t, employee)[id].reportDate == reportDate
  {
    var rows := FindByEmployee(t, employee);
    if ExistsByEmployeeAndReportDate(t, employee, reportDate) {
      var id :| id in t && t[id].employee == employee && t[id].reportDate == reportDate;
      assert id in rows && rows[id].reportDate == reportDate;
    }
  }

  /** Under the invariant an employee's list holds exactly one row per reported
      date, so its size is the number of distinct dates reported. */
  lemma {:induction false} OneRowPerDate(t: Table, employee: EmployeeCode)
    requires UniqueDates(t)
    ensures |FindByEmployee(t, employee)| == |ReportDates(t, employee)|
    decreases |t|
  {
    var rows := FindByEmployee(t, employee);
    if rows == map[] {
      assert ReportDates(t, employee) == {};
    } else {
      var id :| id in rows;
      var rest := t - {id};
      assert rest.Keys == t.Keys - {id};
      assert |rest| < |t|;
      OneRowPerDate(rest, employee);
      var restRows := FindByEmployee(rest, employee);
      assert restRows.Keys == rows.Keys - {id};
      assert |restRows| == |rows| - 1 by {
        assert |restRows.Keys| == |rows.Keys - {id}| == |rows.Keys| - 1;
      }
      var d := t[id].reportDate;
      assert d in ReportDates(t, employee);
      assert ReportDates(rest, employee) == ReportDates(t, employee) - {d} by {
        forall x | x in ReportDates(t, employee) - {d}
          ensures x in ReportDates(rest, employee)
        {
          var j :| j in t && t[j].employee == employee && t[j].reportDate == x;
          assert j != id && j in rest;
        }
        forall x | x in ReportDates(rest, employee)
          ensures x in ReportDates(t, employee) - {d}
        {
          var j :| j in rest && rest[j].employee == employee && rest[j].reportDate == x;
          assert j in t && j != id;
        }
      }
    }
  }
}

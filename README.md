# Daily-report store

A Dafny model of the daily-report part of an intranet employee-management
application. Employees file one report per day with a title and a content.
Administrators list every employee's reports; other employees list only their
own. Reports are soft-deleted by setting a flag.

The model has four modules, one per package:

- `Constants`: the `ErrorKinds` result codes and `HasMessage`, which stands for
  `ErrorMessage.contains`.
- `Repository`: the `Report` row, the table (a map from the String id to the
  row, so there is at most one row per id), and the derived queries
  `findByEmployee` and `existsByEmployeeAndReportDate`. It also holds the
  invariant `UniqueDates`: no two stored rows share an (employee, reportDate)
  pair, soft-deleted rows included.
- `Service`: the three transitions `save`, `update` and `delete`, each given as
  a pure step function (`SaveStep`, `UpdateStep`, `DeleteStep`). The contract of
  each step function states the source's promises and preservation of the
  invariant. The class `ReportService` holds the table. Its methods do the
  source's steps on that table and are proved equal to the step functions.
- `Controller`: the class `EmployeeReportController`. Its GET handlers are
  functions over the service's table. Its POST handlers are methods that call
  the service object. The pure functions `AfterSave`, `AfterUpdate` and
  `AfterDelete` map a service result to the page the handler ends on.

Inputs stand in for what the model cannot see:

- the clock (`LocalDateTime.now()`) is the parameter `now`;
- a `DataIntegrityViolationException` from the store's write is the flag
  `storeFails`. The transaction then rolls back, so the table is unchanged;
- the result of bean validation is the flag `hasErrors`;
- the logged-in employee, as `EmployeeService.findByCode` returns it, is a
  `LoginUser` value;
- the primary key a row is written under is the parameter `id` of the
  service's steps. POST update loads the stored report by its path variable
  `id`, but the row is written under the submitted report's own id, the
  parameter `formId`. Spring binds a request parameter named "id" in
  preference to the path variable, so `formId` is the path id unless the form
  carries an id of its own. For `save` it is whatever key the report carries when the store
  writes it: a generated one for a new report, or an `id` the client put in
  the form, since nothing in `add` clears it. The store's save is an upsert,
  so under a fresh id the table gains one row, and under an id already stored
  save replaces that row, whoever owns it.

Behaviour worth knowing:

- The date check counts every stored row, deleted ones included. A
  soft-deleted report therefore keeps blocking its date for its owner, until
  that row itself is updated to another date. POST update has no delete-flag
  guard and the service's `update` clears the flag, so that update also
  un-deletes the row and frees the old date.
- The owner of a new report is set by the controller (`add`), not by the
  service's `save`.
- `delete` changes the loaded row and does not call the store's `save`. The
  model writes the changed row back into the map, which is what the
  transaction's flush makes durable.
- The service's `update` checks the date only when it changed. It trusts the
  owner on the submitted report. A changed date is checked against every
  stored row, so the invariant survives it whichever row is written. The
  invariant can be lost only when the date is unchanged and the row written is
  not the one the owner and creation time were copied from. `UpdateStep`'s last
  two ensures state both conditions. POST update is safe when the form id is
  the path id or the date changed (see Findings).

## Model

| member | source | states |
|---|---|---|
| `Repository.FindById` | src/main/java/com/techacademy/repository/ReportRepository.java:11 | the lookup by String key gives the row stored under the id, or none exactly when no row has that id |
| `Repository.FindByEmployee` | src/main/java/com/techacademy/repository/ReportRepository.java:13 | the result holds exactly the stored rows whose employee is the argument, unchanged, whatever their delete flag |
| `Repository.ExistsByEmployeeAndReportDate` | src/main/java/com/techacademy/repository/ReportRepository.java:16 | true iff some stored row, deleted or not, has both the given employee and the given date |
| `Repository.ExistsIffListedOnDate` | src/main/java/com/techacademy/repository/ReportRepository.java:13-16 | the two derived queries agree: a row exists for (employee, date) iff the employee's list holds a row on that date |
| `Repository.OneRowPerDate` | src/main/java/com/techacademy/repository/ReportRepository.java:13-16 | while no two rows share (employee, date), an employee's list has exactly as many rows as the employee has distinct report dates |
| `Service.SaveStep` | src/main/java/com/techacademy/service/ReportService.java:32-47 | DATECHECK_ERROR iff a row (deleted or not) exists for (employee, date), with the table unchanged; an integrity exception otherwise leaves the table unchanged; on SUCCESS the row under the id has the report's employee, date, title and content, is not deleted, has createdAt = updatedAt = now, and every other row is unchanged; the table gains one row under a fresh id and keeps its size under a stored one (upsert); the no-duplicate-date invariant is preserved |
| `Service.UpdateStep` | src/main/java/com/techacademy/service/ReportService.java:51-67 | DATECHECK_ERROR iff the date changed and a row exists for (employee, new date); never rejected for an unchanged date; rejection and integrity exception leave the table unchanged; on SUCCESS the row under the id is undeleted, stamped updatedAt = now, keeps the caller's employee and createdAt, and every other row is unchanged; the invariant is preserved when the date changed, and when the caller passes the stored row as previous and keeps its owner |
| `Service.DeleteStep` | src/main/java/com/techacademy/service/ReportService.java:71-79 | the row stays under its id, flagged deleted with updatedAt = now, its other fields unchanged; every other row and the key set are unchanged; the invariant is preserved |
| `Service.ReportService.Save` | src/main/java/com/techacademy/service/ReportService.java:32-47 | the outcome and the new table are those `SaveStep` gives for the old table |
| `Service.ReportService.Update` | src/main/java/com/techacademy/service/ReportService.java:51-67 | the outcome and the new table are those `UpdateStep` gives for the old table |
| `Service.ReportService.Delete` | src/main/java/com/techacademy/service/ReportService.java:71-79 | always SUCCESS; the new table is `DeleteStep` of the old one (the row is changed in place) |
| `Service.ReportService.FindAll` | src/main/java/com/techacademy/service/ReportService.java:82-84 | every stored row, soft-deleted ones included |
| `Service.ReportService.FindByReport` | src/main/java/com/techacademy/service/ReportService.java:104-113 | the row stored under the id, or None (the source's null) exactly when the id is absent |
| `Service.ReportService.FindByEmployee` | src/main/java/com/techacademy/service/ReportService.java:115-122 | exactly the stored rows owned by the employee, deleted ones included |
| `Service.ReportService.ExistsByEmployeeAndDate` | src/main/java/com/techacademy/service/ReportService.java:99-101 | true iff some stored row, deleted or not, has the employee and the date |
| `Service.SameDateTwiceRejected` | src/main/java/com/techacademy/service/ReportService.java:35-45 | after a successful save, a second save for the same employee and date is DATECHECK_ERROR and leaves the table as the first save left it |
| `Service.DifferentDatesBothSaved` | src/main/java/com/techacademy/service/ReportService.java:35-45 | two saves for one employee on two free, different dates both succeed |
| `Service.DeletedReportBlocksItsDate` | src/main/java/com/techacademy/service/ReportService.java:35-37 | after a report is soft-deleted, a save for its owner and date is still DATECHECK_ERROR with the table unchanged |
| `Service.UpdateUndeletesAndFreesDate` | src/main/java/com/techacademy/service/ReportService.java:54-65 | updating a soft-deleted row (owner and createdAt copied from it) to a date its owner has not used succeeds, clears the delete flag, and leaves no row on the old date |
| `Service.DeleteKeepsQueries` | src/main/java/com/techacademy/service/ReportService.java:71-79 | soft delete changes neither the employee's list of ids nor any (employee, date) existence answer |
| `Controller.ErrorFor` | src/main/java/com/techacademy/controller/EmployeeReportController.java:99-110 | the error attribute is absent exactly for SUCCESS, DUPLICATE_EXCEPTION_ERROR for a caught integrity exception, and the returned kind otherwise |
| `Controller.AfterSave` | src/main/java/com/techacademy/controller/EmployeeReportController.java:97-112 | `add` redirects to the list iff save returned SUCCESS; otherwise it re-renders the creation form with an error attribute set |
| `Controller.AfterUpdate` | src/main/java/com/techacademy/controller/EmployeeReportController.java:129-146 | POST `update` redirects iff the service returned SUCCESS; otherwise it re-renders the update form with an error attribute set |
| `Controller.AfterDelete` | src/main/java/com/techacademy/controller/EmployeeReportController.java:157-163 | POST `delete` redirects iff the result has no message; otherwise it shows the detail view with the error and the reloaded report |
| `Controller.EmployeeReportController.List` | src/main/java/com/techacademy/controller/EmployeeReportController.java:39-52 | role value "管理者" lists every stored row, any other role exactly the rows owned by the logged-in employee; deleted rows are listed either way; listSize is the length of reportList |
| `Controller.EmployeeReportController.Detail` | src/main/java/com/techacademy/controller/EmployeeReportController.java:56-60 | the detail view carries the row under the id, or none when the id is absent, with no error |
| `Controller.EmployeeReportController.Create` | src/main/java/com/techacademy/controller/EmployeeReportController.java:64-68 | the creation form shows the logged-in user's name and no error |
| `Controller.EmployeeReportController.Edit` | src/main/java/com/techacademy/controller/EmployeeReportController.java:72-77 | the update form carries the row under the id, or none when the id is absent |
| `Controller.EmployeeReportController.Add` | src/main/java/com/techacademy/controller/EmployeeReportController.java:82-113 | validation errors re-render the form without calling save; otherwise the report is saved with its owner forced to the logged-in employee; redirect iff no validation error, no integrity exception and no row for (logged-in employee, date); the table changes only on redirect; the invariant is preserved |
| `Controller.EmployeeReportController.Update` | src/main/java/com/techacademy/controller/EmployeeReportController.java:116-147 | the stored row is loaded by the path id, and its owner and createdAt are copied before the validation result is checked and before the service call; validation errors re-render without calling the service; otherwise the service's update runs on the row under the form-bound id; redirect iff no validation error, no integrity exception and no date conflict for the path row's owner; the table changes only on redirect, and then the row under the form id carries the path row's owner and createdAt; when the form id is the path id the handler is `UpdateUnderPathId`; the invariant is preserved when the form id is the path id or the date changed |
| `Controller.UpdateUnderPathId` | src/main/java/com/techacademy/controller/EmployeeReportController.java:119-131 | POST update with the row key forced to the path id: success iff no integrity exception and no date conflict; the key set is unchanged and the row keeps its owner and createdAt; every other row is unchanged; the invariant is always preserved |
| `Controller.FormIdOverPathIdBreaksUniqueDates` | src/main/java/com/techacademy/controller/EmployeeReportController.java:119-131 | with a form id naming another row than the path and the date unchanged, the update succeeds, the row under the form id takes the path row's owner, the path row is untouched, and two rows share (employee, date) |
| `Controller.EmployeeReportController.Delete` | src/main/java/com/techacademy/controller/EmployeeReportController.java:153-164 | always redirects to the list; the table becomes the service's soft delete of the id; the invariant is preserved |
| `Controller.CreateUpdateDelete` | src/main/java/com/techacademy/controller/EmployeeReportController.java:82-164 | from an empty table, over the service steps with add's owner binding written out and the update taken under the path id (`UpdateUnderPathId`): an add succeeds, redirects and is listed for its owner; an edit on the same date succeeds, redirects and keeps createdAt; a delete flags the row, and the row stays in the owner's list |

## Left out

- Spring MVC and Security plumbing: the `Model` attribute map beyond the view, list and error attributes; dependency injection; the authentication principal. These are framework glue. The form values shown again after a failed POST add or POST update are not modelled.
- `@Transactional`, JPA dirty checking and flush on commit, and the check-then-insert race between concurrent requests. The model runs one request at a time and writes the deleted row back directly.
- Bean-validation constraints on `Report` fields (the entity is not part of this model). They are the input `hasErrors`.
- The `ErrorMessage` tables (not part of this model). A kind has a message exactly when it is not SUCCESS, and the error attribute is represented by the kind itself.
- `EmployeeService.findByCode` is an external collaborator. The model assumes it returns the logged-in employee's own record. The case where it returns null is not modelled.
- `ReportService.findByReports(employeeCode)`: no handler calls it, and its null-employee path depends on how Spring Data treats a null parameter.
- Calendar dates and timestamps are plain integers. Only their equality matters here.
- The service's `delete` and the POST `update` and POST `delete` handlers, on an id with no stored row, throw a null-pointer exception in the source. `Service.DeleteStep`, `Service.ReportService.Delete`, `Controller.EmployeeReportController.Update` and `Controller.EmployeeReportController.Delete` therefore require the id to be present.
- How the detail and update views render a missing report: the model gives them None, standing for the null the source passes on.
- The `Report` entity is not part of this model. The model assumes it has no row filter on `deleteFlg`, so `findById`, `findAll`, `findByEmployee` and `existsByEmployeeAndReportDate` all see soft-deleted rows. Under such a filter, a deleted report would neither block its date nor be found by id. A comment in the add handler says `findById` cannot fetch deleted rows, but that comment is about employee records.
- The order of the lists `findAll` and `findByEmployee` return: the queries have no ORDER BY, so the order is whatever the database gives. The list page holds the rows as a map keyed by id, and no handler depends on the order.

## Findings

| source | as written | input that shows it | evidently intended | confidence | as-written member | corrected member |
|---|---|---|---|---|---|---|
| src/main/java/com/techacademy/controller/EmployeeReportController.java:117-131 | the stored report is loaded by the path id, but the bound report, whose `id` a request parameter can set, is what `ReportService.update` saves | POST `/reports/Y/update` with form field `id=X`, X another row, and the date of row Y: the date check is skipped, and row X is written with Y's owner, createdAt and date | the row loaded by the path id is the row rewritten | medium, not executed | `Controller.FormIdOverPathIdBreaksUniqueDates` | `Controller.UpdateUnderPathId` |

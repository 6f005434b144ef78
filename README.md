# Vehicle permit workflow — a Dafny model

A model of the core of a small Laravel application.
- Employees request a company vehicle through a public form.
- HR approves or rejects the requests from an admin dashboard.
- Both sides are sent a (mocked) WhatsApp message.
- HR can download the filtered permits as CSV.

The model covers five parts of the application:

- the `VehiclePermit` model: mass assignment, nullable columns, the three status scopes and the `employee` relation (`vehicle_permit.dfy`, with the two records in `records.dfy` and the table in `permit_store.dfy`);
- `AdminController`: the dashboard, the approve/reject action, the reject form and the CSV export (`admin_controller.dfy`);
- `VehiclePermitController`: the request form, the submission and the employee lookup (`permit_controller.dfy`);
- `WhatsAppService`: the two messages and the two send operations (`whatsapp_service.dfy`);
- `UpdateEmployeeRequest`: rules, custom messages and authorization (`update_employee_request.dfy`).

`validation.dfy`, `text.dfy`, `sorting.dfy` and `wrappers.dfy` hold the pieces of the framework and of PHP these rely on:
- the `required`/`string`/`max`/`nullable` rules;
- PHP's `trim` blank test and `strtoupper`;
- ORDER BY as a stable sort;
- an `Option` type.

The permits table is a class (`PermitStore.PermitTable`) holding a map from primary key to row and the next auto-increment key. `create` and `update` are methods that change it in place. Rows are datatypes. The dashboard query, the export loop and the controllers' actions are methods proved against functions, and the properties are proved as lemmas about those functions.

Things the code does that a reader might not expect, which the model follows and proves:

- **No pending guard.** `store` approves or rejects a permit whatever its current status. A rejected permit can be approved and keeps its stale rejection reason (`ReapproveKeepsStaleReason`). A second approval succeeds and restamps `processed_at` (`ApproveTwiceRestamps`). A design that allows each permit only one transition out of `pending` is not what the code does; the model follows the code.
- **HR is never notified.** The HR message links to the route names `admin.permits.approve` and `admin.permits.reject`. `routes/web.php` registers neither, so `route()` throws. The exception is caught, and `sendHRNotification` returns false for every permit (`HRNotificationFailsWithAppRoutes`). The submission still reports "HR has been notified".
- **The lookup ignores its path.** `GET /employee/{employee_id}` validates and reads the `employee_id` of the query string or body, never the route parameter. A key given only in the path fails `required`, even for a known employee (`PathKeyAloneIsRequired`).
- **The export can stop early.** A permit whose `employee_id` matches no employee makes the export callback fail on `->name`. The stream then ends after the lines already written (`CsvRowsStop`).

## Model

| member | source | states |
|---|---|---|
| VehiclePermitModel.MassAssign | app/Models/VehiclePermit.php:57-67 | only `$fillable` columns survive mass assignment, with their given values; the key and both audit timestamps can never be assigned |
| VehiclePermitModel.WritesAreFillable | app/Models/VehiclePermit.php:57-67 | every column the submission creates and the approve and reject actions update is fillable, so mass assignment passes those attributes through unchanged |
| VehiclePermitModel.NullColumns | app/Models/VehiclePermit.php:18-21 | only purpose, rejection reason and processed-at can be null, each exactly when the row leaves it unset |
| VehiclePermitModel.WhereStatus | app/Models/VehiclePermit.php:93-112 | `where('status', name)` keeps exactly the rows whose stored status string is `name`, never more rows than it was given |
| VehiclePermitModel.ScopePending | app/Models/VehiclePermit.php:93-96 | selects exactly the pending rows |
| VehiclePermitModel.ScopeApproved | app/Models/VehiclePermit.php:101-104 | selects exactly the approved rows |
| VehiclePermitModel.ScopeRejected | app/Models/VehiclePermit.php:109-112 | selects exactly the rejected rows |
| VehiclePermitModel.ScopesDisjoint | app/Models/VehiclePermit.php:93-112 | no row is in two scopes |
| VehiclePermitModel.ScopeCountsAddUp | app/Models/VehiclePermit.php:93-112 | the three scope counts add up to the number of rows |
| VehiclePermitModel.ScopeCounts | app/Models/VehiclePermit.php:93-112 | a status scope keeps each row of that status as often as the table holds it and drops every row of another status, so its count is the number of rows with that status |
| VehiclePermitModel.EmployeeOf | app/Models/VehiclePermit.php:85-88 | the relation joins on the business key `employee_id`: a found employee carries the permit's key, and none is found exactly when no employee has it |
| Records.ParseStatus | database/migrations/2024_01_01_000002_create_vehicle_permits_table.php:22 | a stored string denotes a status exactly when it is one of the enum's three names |
| Records.StatusRoundTrip | database/migrations/2024_01_01_000002_create_vehicle_permits_table.php:22 | each status is read back from the string it is stored as |
| Records.FirstWithEmployeeId | app/Http/Controllers/VehiclePermitController.php:56 | `where('employee_id', key)->first()` returns a listed employee with that key, or nothing exactly when no employee has it |
| PermitStore.NewPermit | app/Http/Controllers/VehiclePermitController.php:32 | a created permit is pending, copies the submitted fields, has no reason and no processing time, carries `now` as both timestamps, and is well-shaped |
| PermitStore.NewPermitNulls | app/Models/VehiclePermit.php:18-21 | a new permit's null columns are the rejection reason, the processing time, and the purpose exactly when none was submitted |
| PermitStore.RowsBelow | app/Http/Controllers/AdminController.php:128 | a table scan returns every stored row once, in increasing key order |
| PermitStore.PermitTable.constructor | database/migrations/2024_01_01_000002_create_vehicle_permits_table.php:15 | an empty table whose auto-increment counter starts at 1 |
| PermitStore.PermitTable.Find | app/Http/Controllers/AdminController.php:56 | finds the row stored under the id, and nothing for an absent or unknown id |
| PermitStore.PermitTable.Rows | app/Http/Controllers/AdminController.php:128 | every stored row appears, every row returned is the one stored under its key, and rows come in increasing key order |
| PermitStore.PermitTable.Insert | app/Http/Controllers/VehiclePermitController.php:32 | adds the new permit under the next free key, leaves the other rows alone, advances the counter and keeps the table valid |
| PermitStore.PermitTable.Save | app/Http/Controllers/AdminController.php:59-62 | writes one existing row back under its key; the other rows and the counter are unchanged |
| Validation.RequiredString | app/Http/Controllers/AdminController.php:71-73 | `required`, `string`, `max:n` passes exactly for a non-blank string of at most n characters; it fails `required` exactly when the value is null, an empty array or blank, `string` exactly for any other non-string, and `max` exactly for a non-blank string longer than n |
| Validation.NullableString | app/Http/Requests/UpdateEmployeeRequest.php:35 | `nullable`, `string`, `max:n` passes exactly for null or absent, for a blank string and for a string of at most n characters; an empty array is not null, so it fails `string`, as does any other non-string; `max` fails exactly for a non-blank string longer than n; it never fails `required` |
| UpdateEmployeeRequest.Authorize | app/Http/Requests/UpdateEmployeeRequest.php:13-16 | every update request is authorized |
| UpdateEmployeeRequest.Validate | app/Http/Requests/UpdateEmployeeRequest.php:23-37 | no error exactly when every field meets its rules and no other row holds the employee id; `unique` fails exactly for a valid id used by another row; `required` fails on the id exactly when it is missing; the phone is never required; errors arise only for the five fields; each of employee id, name, department and grade has an error exactly when it is not a non-blank string within its limit (or, for the id, is taken), carrying the first of `required`, `string`, `max` that fails; the phone has an error exactly when `nullable|string|max:20` fails, carrying that rule |
| UpdateEmployeeRequest.EmptyPhoneArrayRejected | app/Http/Requests/UpdateEmployeeRequest.php:35 | a phone sent as an empty array fails `string`: `nullable` skips only null or absent values |
| UpdateEmployeeRequest.Message | app/Http/Requests/UpdateEmployeeRequest.php:44-52 | a custom message exists only for `required`, and for `unique` on the employee id; every required field except phone has one |
| UpdateEmployeeRequest.KeepOwnEmployeeId | app/Http/Requests/UpdateEmployeeRequest.php:26-31 | an update may resubmit the employee's own id when no other row holds it |
| UpdateEmployeeRequest.DuplicateEmployeeIdRejected | app/Http/Requests/UpdateEmployeeRequest.php:30-48 | an id held by another row fails with "This employee ID already exists." |
| WhatsAppService.StatusEmoji | app/Services/WhatsAppService.php:94-98 | each status has its own emoji: check for approved, cross for rejected, hourglass for pending |
| WhatsAppService.BuildHRMessage | app/Services/WhatsAppService.php:70-86 | the message exists exactly when both routes resolve and the employee exists; it opens with the car heading; it has the employee line with name and key, and the department, vehicle, licence plate and usage lines; it shows the purpose or "Not specified", carries the approve link, and ends with the reject link |
| WhatsAppService.BuildEmployeeMessage | app/Services/WhatsAppService.php:91-113 | the message exists exactly when the employee exists; it opens with the status emoji, addresses the employee by name, states the upper-cased status, and has the vehicle and licence plate lines; it ends with the usage line, followed by a reason line exactly when a rejected permit has a truthy reason |
| WhatsAppService.UpperStatusNames | app/Services/WhatsAppService.php:102 | the status words are PENDING, APPROVED and REJECTED |
| WhatsAppService.SendHRNotification | app/Services/WhatsAppService.php:13-36 | true exactly when both action routes resolve and some employee has the permit's key; never raises |
| WhatsAppService.SendEmployeeNotification | app/Services/WhatsAppService.php:41-65 | true exactly when some employee has the permit's key; never raises |
| WhatsAppService.HRNotificationFailsWithAppRoutes | app/Services/WhatsAppService.php:73-74 | with the routes the application registers, no HR message can be built and every HR notification reports false |
| AdminController.Select | app/Http/Controllers/AdminController.php:22-33 | the filtered rows are exactly the rows meeting every filled criterion, never more rows than were given |
| AdminController.SelectCounts | app/Http/Controllers/AdminController.php:22-33 | each matching row is kept as many times as it occurs, and every other row is dropped |
| AdminController.SelectKeepsKeyOrder | app/Http/Controllers/AdminController.php:113-128 | filtering rows that come in key order keeps them in key order |
| AdminController.WhereCreatedFrom | app/Http/Controllers/AdminController.php:27-29 | keeps exactly the rows created on or after the given day |
| AdminController.WhereCreatedUntil | app/Http/Controllers/AdminController.php:31-33 | keeps exactly the rows created on or before the given day |
| AdminController.NarrowingSelects | app/Http/Controllers/AdminController.php:19-33 | narrowing the query one filled criterion at a time gives the rows of the single conjunctive filter, in the same order |
| AdminController.NarrowQuery | app/Http/Controllers/AdminController.php:113-126 | the built query returns exactly the filtered rows |
| AdminController.NoCriteriaSelectsAll | app/Http/Controllers/AdminController.php:113-128 | with no criterion filled in, every row is returned, in order |
| AdminController.StatusFilterIsScope | app/Http/Controllers/AdminController.php:22-24 | filtering by a status name alone gives that status's scope |
| AdminController.StatsOf | app/Http/Controllers/AdminController.php:40-45 | the total is the number of rows; the pending, approved and rejected counts are the sizes of the matching scopes (each the number of rows with that status, by `ScopeCounts`), and they add up to the total |
| AdminController.NewestFirst | app/Http/Controllers/AdminController.php:19 | `latest()` returns the same rows, ordered by creation time, newest first |
| AdminController.ResolvePage | app/Http/Controllers/AdminController.php:35 | the page number is the requested one when it is at least 1, and page 1 otherwise |
| AdminController.PageOf | app/Http/Controllers/AdminController.php:35 | a page holds at most 20 rows, each at its position in the ordered list; it is full unless it is the last, and empty past the end |
| AdminController.LastPage | app/Http/Controllers/AdminController.php:35 | the last page is at least 1, and there are just enough pages for every row |
| AdminController.PagesCover | app/Http/Controllers/AdminController.php:35 | every matching row appears on the page its position puts it on, and that page is within the last page |
| AdminController.Index | app/Http/Controllers/AdminController.php:17-47 | the dashboard shows the requested page of the filtered rows, newest first, with their count and page bounds; it echoes the filters, and its counts cover the whole table whatever the filters |
| AdminController.Saved | app/Http/Controllers/AdminController.php:59-62 | an update writes the row and stamps `updated_at` only when some attribute changed |
| AdminController.ApproveRecord | app/Http/Controllers/AdminController.php:58-62 | approval sets the status and the processing time, keeps any earlier rejection reason and leaves the request columns alone; `updated_at` becomes now unless the row was already approved at this instant |
| AdminController.RejectRecord | app/Http/Controllers/AdminController.php:70-79 | rejection sets the status, the reason and the processing time, and leaves the request columns alone; `updated_at` becomes now unless the row was already rejected with this reason at this instant |
| AdminController.Decide | app/Http/Controllers/AdminController.php:54-90 | "approve" always writes the approved row with its flash; "reject" writes only with a valid reason, otherwise it fails validation on `rejection_reason` with the first of `required`, `string`, `max:500` that fails; any other action writes nothing and flashes "Invalid action." |
| AdminController.DecideOnceFromPending | app/Http/Controllers/AdminController.php:58-79 | deciding a well-shaped pending permit gives a well-shaped, no-longer-pending row |
| AdminController.ReapproveKeepsStaleReason | app/Http/Controllers/AdminController.php:58-62 | approving a rejected permit keeps its reason, leaving an approved row with a rejection reason |
| AdminController.ApproveTwiceRestamps | app/Http/Controllers/AdminController.php:58-69 | a second approval is accepted and restamps the processing time |
| AdminController.Store | app/Http/Controllers/AdminController.php:52-91 | an unknown id is a 404 that changes nothing; otherwise the table changes exactly as the decision says; the employee is notified only after a write, and the notifier's answer does not change the response |
| AdminController.Create | app/Http/Controllers/AdminController.php:96-104 | the reject form is shown exactly for a stored permit, whatever its status, with that permit and its employee when one exists |
| AdminController.CreateThenReject | app/Http/Controllers/AdminController.php:70-86 | a permit whose reject form is shown can be rejected with a short, non-blank reason |
| AdminController.ExportFileName | app/Http/Controllers/AdminController.php:132 | the file name is `vehicle-permits-`, then exactly the given day, then `.csv` |
| AdminController.Fields | app/Http/Controllers/AdminController.php:143-175 | a line has as many fields as the header, and each field is the line's value for the header name in the same position |
| AdminController.CsvRow | app/Http/Controllers/AdminController.php:161-175 | a line carries the permit's id, key, vehicle type, licence plate, status, purpose and reason, its employee's name and department, and the formatted usage start, usage end, request time and processing time; null columns become empty fields |
| AdminController.CsvRowReadsBack | app/Http/Controllers/AdminController.php:162-171 | the ID and Status fields read back as the permit's id and status |
| AdminController.CsvRows | app/Http/Controllers/AdminController.php:160-176 | at most one line per permit, in order, each carrying its permit's id |
| AdminController.CompleteExportLines | app/Http/Controllers/AdminController.php:160-176 | when every permit has its employee, there is one line per permit, and line i is the line of permit i |
| AdminController.CsvRowsStop | app/Http/Controllers/AdminController.php:164 | the first permit without an employee ends the export after the lines before it |
| AdminController.WriteRows | app/Http/Controllers/AdminController.php:160-176 | the loop writes exactly the export's lines, and runs to the end exactly when every permit has its employee |
| AdminController.Show | app/Http/Controllers/AdminController.php:111-182 | the download carries the dated file name and the header, then the lines of the filtered rows, which come in key order; it is complete exactly when each of them has its employee, and then has one line per filtered row |
| VehiclePermitController.EmployeesByName | app/Http/Controllers/VehiclePermitController.php:20 | every employee exactly once, names in ascending order |
| VehiclePermitController.Index | app/Http/Controllers/VehiclePermitController.php:18-25 | the form lists every employee, ordered by name, with no message |
| VehiclePermitController.Store | app/Http/Controllers/VehiclePermitController.php:30-46 | the request is stored as a new pending permit under the next key; HR notification is attempted; the success message is returned whatever the notifier answered |
| VehiclePermitController.LookupFailure | app/Http/Controllers/VehiclePermitController.php:52-54 | the lookup passes exactly for a non-blank string some employee has as key; it fails `required` for a null or blank value, `string` for a non-string, and `exists` for an unknown key |
| VehiclePermitController.Show | app/Http/Controllers/VehiclePermitController.php:50-61 | only the `employee_id` input is read, never the path; a failing rule is reported; otherwise the answer holds an employee whose key is exactly the submitted one |
| VehiclePermitController.ShowFindsKnownKey | app/Http/Controllers/VehiclePermitController.php:52-60 | a known non-blank key always finds its employee |
| VehiclePermitController.PathKeyAloneIsRequired | app/Http/Controllers/VehiclePermitController.php:50-54 | a key given only in the path fails `required`, even when an employee has it |
| VehiclePermitController.ShowRejectsUnknownKey | app/Http/Controllers/VehiclePermitController.php:52-54 | an unknown key is refused by `exists`, never answered with null |
| Text.Upper | app/Services/WhatsAppService.php:102 | `strtoupper` keeps the length and maps each character through the ASCII upper-case table |

## Left out

- Rendering is not modelled: Inertia pages, redirects, session flashes and the JSON response become values (views, `Outcome`, `LookupResult`).
- HTTP status codes beyond the 404 of `findOrFail` are not modelled.
- Logging (`Log::info`, `Log::error`) has no effect on any modelled result, so it is not modelled.
- The message texts themselves are logged, never sent.
- Date formatting (Carbon `format`) and URL generation (`route`) are parameters.
  - Their text is not modelled.
  - A route name that does not resolve is `None`.
- The date bounds of the filters are read by a parameter (`DateParser`). Invalid date strings and time zones are not modelled. A timestamp is whole seconds, and its calendar day is seconds / 86400.
- The clock (`now()`) is a parameter.
- CSV quoting and escaping by `fputcsv`, and the HTTP headers of the download, are not modelled. Lines are sequences of fields.
- When the export stops at a permit without an employee, the model records only the lines written and that the stream did not complete. The exception's further handling by the framework is not modelled.
- `StoreVehiclePermitRequest` is not part of this model. The permit submission takes its validated fields as given.
- `EmployeeController` and the `Employee` model's own code are not part of this model. Only the employee rows they maintain are.
- Middleware is not modelled: `TrimStrings`, `ConvertEmptyStringsToNull`, CSRF. Request values reach the rules as submitted. `Blank` stands for the trim test that `required` and `filled` apply.
- Database collation is not modelled. String comparison in `where`, `unique`, `exists` and `orderBy('name')` is exact, and names are ordered by character code.
- The order of permits with equal `created_at` under `latest()` is not modelled. The model keeps them in key order, which the database does not promise.
- A table scan without ORDER BY (the export) is modelled as key order.
- Concurrency is not modelled: two admins deciding the same permit at once, or an auto-increment race.
- The validator's error bag keeps only the first failing rule of each field. A failing `required` stops its field, and under `nullable` a null skips every rule. Laravel does go on past a failing non-implicit rule, though: a non-string that also fails `max`, or an over-long employee id that is also taken, gets a second message the model does not record.
- `UpdateEmployeeRequest.Validate`: the `unique` rule is stated over the employee rows passed in. The route-bound employee is identified by its row id alone.
- `AdminController.CsvRows`: its own contract only bounds the number of lines by the number of permits and fixes each line's id. `CompleteExportLines` states one line per permit when every permit has its employee, `CsvRow` states what each line holds, and `WriteRows` states when the export is complete.
- `create` and `update` build their rows directly (`NewPermit`, `ApproveRecord`, `RejectRecord`) rather than through `MassAssign`. `WritesAreFillable` shows that every column they write is fillable, so mass assignment would pass it through unchanged.
- `AdminController.Store` does not model `update`'s return value. It does not model a failed save either, since the database is assumed to accept the write.

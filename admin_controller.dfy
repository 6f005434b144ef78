/** The HR side: the filtered, newest-first, paginated dashboard with its
    status counts; the approve/reject action; and the CSV export. */
module AdminController {
  import opened Wrappers
  import opened Text
  import opened Sorting
  import opened Records
  import opened Validation
  import opened VehiclePermitModel
  import opened PermitStore
  import opened WhatsAppService

  // ---------------------------------------------------------------------
  // Filtering (shared by the dashboard and the export)
  // ---------------------------------------------------------------------

  /** Rows in strictly increasing key order, as a table scan returns them. */
  predicate KeyOrdered(ps: seq<Permit>) {
    forall i, j :: 0 <= i < j < |ps| ==> ps[i].id < ps[j].id
  }

  /** The query-string criteria `status`, `date_from` and `date_to`. */
  datatype FilterRequest = FilterRequest(status: Option<string>, dateFrom: Option<string>, dateTo: Option<string>)

  /** `$request->filled(key)`: present and not blank. */
  predicate Filled(o: Option<string>) {
    o.Some? && !Blank(o.value)
  }

  /** How the database reads a date bound such as "2025-01-10" (a day number). */
  type DateParser = string -> nat

  /** The filter, stated as one predicate: every filled criterion holds, an
      unfilled one imposes nothing. Dates bound the calendar day of `created_at`
      inclusively. */
  predicate Matches(p: Permit, f: FilterRequest, parseDate: DateParser) {
    && (Filled(f.status) ==> StatusName(p.status) == f.status.value)
    && (Filled(f.dateFrom) ==> parseDate(f.dateFrom.value) <= DayOf(p.createdAt))
    && (Filled(f.dateTo) ==> DayOf(p.createdAt) <= parseDate(f.dateTo.value))
  }

  /** The matching rows, in their original order. */
  function Select(ps: seq<Permit>, f: FilterRequest, parseDate: DateParser): (r: seq<Permit>)
    ensures |r| <= |ps|
    ensures forall p :: p in r <==> p in ps && Matches(p, f, parseDate)
  {
    if ps == [] then []
    else (if Matches(ps[0], f, parseDate) then [ps[0]] else []) + Select(ps[1..], f, parseDate)
  }

  /** Each matching row is kept as often as it occurs, every other row is dropped. */
  lemma {:induction false} SelectCounts(ps: seq<Permit>, f: FilterRequest, parseDate: DateParser, p: Permit)
    ensures multiset(Select(ps, f, parseDate))[p] == if Matches(p, f, parseDate) then multiset(ps)[p] else 0
  {
    if ps != [] {
      assert ps == [ps[0]] + ps[1..];
      SelectCounts(ps[1..], f, parseDate, p);
    }
  }

  /** Filtering rows that come in key order keeps them in key order. */
  lemma {:induction false} SelectKeepsKeyOrder(ps: seq<Permit>, f: FilterRequest, parseDate: DateParser)
    requires KeyOrdered(ps)
    ensures KeyOrdered(Select(ps, f, parseDate))
  {
    if ps != [] {
      SelectKeepsKeyOrder(ps[1..], f, parseDate);
      var rest := Select(ps[1..], f, parseDate);
      forall q | q in rest ensures ps[0].id < q.id {
        var k :| 0 <= k < |ps[1..]| && ps[1..][k] == q;
        assert ps[k + 1] == q;
      }
    }
  }

  /** `whereDate('created_at', '>=', day)`. */
  function WhereCreatedFrom(ps: seq<Permit>, day: nat): (r: seq<Permit>)
    ensures forall p :: p in r <==> p in ps && day <= DayOf(p.createdAt)
  {
    if ps == [] then []
    else (if day <= DayOf(ps[0].createdAt) then [ps[0]] else []) + WhereCreatedFrom(ps[1..], day)
  }

  /** `whereDate('created_at', '<=', day)`. */
  function WhereCreatedUntil(ps: seq<Permit>, day: nat): (r: seq<Permit>)
    ensures forall p :: p in r <==> p in ps && DayOf(p.createdAt) <= day
  {
    if ps == [] then []
    else (if DayOf(ps[0].createdAt) <= day then [ps[0]] else []) + WhereCreatedUntil(ps[1..], day)
  }

  /** The three query steps, each applied only when its criterion is filled. */
  function StatusStep(ps: seq<Permit>, f: FilterRequest): seq<Permit> {
    if Filled(f.status) then WhereStatus(ps, f.status.value) else ps
  }

  function FromStep(ps: seq<Permit>, f: FilterRequest, parseDate: DateParser): seq<Permit> {
    if Filled(f.dateFrom) then WhereCreatedFrom(ps, parseDate(f.dateFrom.value)) else ps
  }

  function UntilStep(ps: seq<Permit>, f: FilterRequest, parseDate: DateParser): seq<Permit> {
    if Filled(f.dateTo) then WhereCreatedUntil(ps, parseDate(f.dateTo.value)) else ps
  }

  lemma {:induction false} WhereStatusConcat(a: seq<Permit>, b: seq<Permit>, name: string)
    ensures WhereStatus(a + b, name) == WhereStatus(a, name) + WhereStatus(b, name)
  {
    if a == [] {
      assert a + b == b;
    } else {
      assert (a + b)[1..] == a[1..] + b;
      WhereStatusConcat(a[1..], b, name);
    }
  }

  lemma {:induction false} WhereCreatedFromConcat(a: seq<Permit>, b: seq<Permit>, day: nat)
    ensures WhereCreatedFrom(a + b, day) == WhereCreatedFrom(a, day) + WhereCreatedFrom(b, day)
  {
    if a == [] {
      assert a + b == b;
    } else {
      assert (a + b)[1..] == a[1..] + b;
      WhereCreatedFromConcat(a[1..], b, day);
    }
  }

  lemma {:induction false} WhereCreatedUntilConcat(a: seq<Permit>, b: seq<Permit>, day: nat)
    ensures WhereCreatedUntil(a + b, day) == WhereCreatedUntil(a, day) + WhereCreatedUntil(b, day)
  {
    if a == [] {
      assert a + b == b;
    } else {
      assert (a + b)[1..] == a[1..] + b;
      WhereCreatedUntilConcat(a[1..], b, day);
    }
  }

  /** Narrowing the query one filled criterion at a time yields exactly the
      rows of the single AND-predicate, in the same order. */
  lemma {:induction false} NarrowingSelects(ps: seq<Permit>, f: FilterRequest, parseDate: DateParser)
    ensures UntilStep(FromStep(StatusStep(ps, f), f, parseDate), f, parseDate) == Select(ps, f, parseDate)
  {
    if ps != [] {
      var head, rest := [ps[0]], ps[1..];
      assert ps == head + rest;
      NarrowingSelects(rest, f, parseDate);
      if Filled(f.status) { WhereStatusConcat(head, rest, f.status.value); }
      var s1h, s1r := StatusStep(head, f), StatusStep(rest, f);
      if Filled(f.dateFrom) { WhereCreatedFromConcat(s1h, s1r, parseDate(f.dateFrom.value)); }
      var s2h, s2r := FromStep(s1h, f, parseDate), FromStep(s1r, f, parseDate);
      if Filled(f.dateTo) { WhereCreatedUntilConcat(s2h, s2r, parseDate(f.dateTo.value)); }
      var s3h := UntilStep(s2h, f, parseDate);
      assert s3h == if Matches(ps[0], f, parseDate) then head else [];
    }
  }

  /** The query builder of `index` and `show`: start from all rows and narrow by
      each criterion that was filled in. */
  method NarrowQuery(rows: seq<Permit>, f: FilterRequest, parseDate: DateParser) returns (q: seq<Permit>)
    ensures q == Select(rows, f, parseDate)
    ensures forall p :: p in q <==> p in rows && Matches(p, f, parseDate)
  {
    q := rows;
    if Filled(f.status) {
      q := WhereStatus(q, f.status.value);
    }
    if Filled(f.dateFrom) {
      q := WhereCreatedFrom(q, parseDate(f.dateFrom.value));
    }
    if Filled(f.dateTo) {
      q := WhereCreatedUntil(q, parseDate(f.dateTo.value));
    }
    NarrowingSelects(rows, f, parseDate);
  }

  /** With no criterion filled in, every row is selected, in order. */
  lemma {:induction false} NoCriteriaSelectsAll(ps: seq<Permit>, f: FilterRequest, parseDate: DateParser)
    requires !Filled(f.status) && !Filled(f.dateFrom) && !Filled(f.dateTo)
    ensures Select(ps, f, parseDate) == ps
  {
    if ps != [] {
      NoCriteriaSelectsAll(ps[1..], f, parseDate);
      assert ps == [ps[0]] + ps[1..];
    }
  }

  /** Filtering by a status name alone is the model's scope for that status. */
  lemma {:induction false} StatusFilterIsScope(ps: seq<Permit>, s: Status, parseDate: DateParser)
    ensures Select(ps, FilterRequest(Some(StatusName(s)), None, None), parseDate) == WhereStatus(ps, StatusName(s))
  {
    if ps != [] {
      StatusFilterIsScope(ps[1..], s, parseDate);
    }
  }

  // ---------------------------------------------------------------------
  // Dashboard
  // ---------------------------------------------------------------------

  /** The header counts, taken over the whole table. */
  datatype Stats = Stats(total: nat, pending: nat, approved: nat, rejected: nat)

  function StatsOf(ps: seq<Permit>): (r: Stats)
    ensures r.total == |ps|
    ensures r.pending + r.approved + r.rejected == r.total
    ensures r.pending == |ScopePending(ps)| && r.approved == |ScopeApproved(ps)| && r.rejected == |ScopeRejected(ps)|
  {
    ScopeCountsAddUp(ps);
    Stats(|ps|, |ScopePending(ps)|, |ScopeApproved(ps)|, |ScopeRejected(ps)|)
  }

  /** `latest()`: ORDER BY created_at DESC. */
  function NewerOrSame(a: Permit, b: Permit): bool {
    a.createdAt >= b.createdAt
  }

  function NewestFirst(ps: seq<Permit>): (r: seq<Permit>)
    ensures forall i :: 0 < i < |r| ==> r[i - 1].createdAt >= r[i].createdAt
    ensures multiset(r) == multiset(ps)
  {
    assert Total(NewerOrSame);
    SortBy(ps, NewerOrSame)
  }

  const PerPage: nat := 20

  /** The `page` query parameter: a whole number of at least 1, otherwise page 1. */
  function ResolvePage(page: Option<int>): (r: nat)
    ensures r >= 1
    ensures page.Some? && page.value >= 1 ==> r == page.value
    ensures (page.None? || page.value < 1) ==> r == 1
  {
    if page.Some? && page.value >= 1 then page.value else 1
  }

  /** `paginate(20)`: the slice of `items` shown on `page` (1-based). */
  function PageOf(items: seq<Permit>, page: nat): (r: seq<Permit>)
    requires page >= 1
    ensures |r| <= PerPage
    ensures forall i :: 0 <= i < |r| ==> (page - 1) * PerPage + i < |items| && r[i] == items[(page - 1) * PerPage + i]
    ensures (page - 1) * PerPage + PerPage <= |items| ==> |r| == PerPage
    ensures (page - 1) * PerPage >= |items| ==> r == []
  {
    var lo := (page - 1) * PerPage;
    if lo >= |items| then []
    else if lo + PerPage <= |items| then items[lo..lo + PerPage]
    else items[lo..]
  }

  /** The last page number: at least 1, and enough pages to hold every item. */
  function LastPage(total: nat): (r: nat)
    ensures r >= 1
    ensures total <= r * PerPage
    ensures r > 1 ==> (r - 1) * PerPage < total
  {
    if total == 0 then 1 else (total + PerPage - 1) / PerPage
  }

  /** Every matching row appears on exactly the page its position puts it on. */
  lemma PagesCover(items: seq<Permit>, i: nat)
    requires i < |items|
    ensures i / PerPage + 1 <= LastPage(|items|)
    ensures i % PerPage < |PageOf(items, i / PerPage + 1)|
    ensures PageOf(items, i / PerPage + 1)[i % PerPage] == items[i]
  {
  }

  /** What `index` hands to the dashboard page. */
  datatype DashboardView = DashboardView(
    permits: seq<Permit>,
    currentPage: nat,
    total: nat,
    lastPage: nat,
    filters: FilterRequest,
    stats: Stats)

  /** `index`: the requested page of the matching permits, newest first, and
      the counts of the whole table whatever the filters. */
  method Index(table: PermitTable, f: FilterRequest, page: Option<int>, parseDate: DateParser) returns (view: DashboardView)
    requires table.Valid()
    ensures |view.permits| <= PerPage
    ensures forall p :: p in view.permits ==> p in table.Rows() && Matches(p, f, parseDate)
    ensures view.permits == PageOf(NewestFirst(Select(table.Rows(), f, parseDate)), ResolvePage(page))
    ensures view.total == |Select(table.Rows(), f, parseDate)|
    ensures view.currentPage == ResolvePage(page) && view.lastPage == LastPage(view.total)
    ensures view.filters == f
    ensures view.stats == StatsOf(table.Rows())
  {
    var rows := table.Rows();
    var matches := NarrowQuery(rows, f, parseDate);
    var ordered := NewestFirst(matches);
    var current := ResolvePage(page);
    var shown := PageOf(ordered, current);
    forall p | p in shown ensures p in matches {
      assert p in multiset(ordered);
    }
    view := DashboardView(shown, current, |matches|, LastPage(|matches|), f, StatsOf(rows));
  }

  // ---------------------------------------------------------------------
  // Approve / reject
  // ---------------------------------------------------------------------

  /** The posted form of the approve/reject action. */
  datatype DecisionRequest = DecisionRequest(action: RequestValue, permitId: Option<nat>, rejectionReason: RequestValue)

  /** The session flash set by the redirect to the dashboard. */
  datatype Flash = Success(message: string) | Error(message: string)

  datatype Outcome =
    | NotFound                                      // findOrFail: a 404 response
    | ValidationFailed(field: string, rule: Rule)   // redirect back with the error
    | Redirect(flash: Flash)                        // redirect to the dashboard

  const ApprovedFlash := "Permit approved successfully! Employee has been notified."
  const RejectedFlash := "Permit rejected successfully! Employee has been notified."
  const InvalidActionFlash := "Invalid action."

  /** The request columns a decision never touches. */
  predicate SameRequest(a: Permit, b: Permit) {
    && a.id == b.id && a.employeeId == b.employeeId
    && a.vehicleType == b.vehicleType && a.licensePlate == b.licensePlate
    && a.usageStart == b.usageStart && a.usageEnd == b.usageEnd
    && a.purpose == b.purpose && a.createdAt == b.createdAt
  }

  /** Eloquent's `update`: the row is written, and `updated_at` stamped, only
      when some attribute actually changed. */
  function Saved(before: Permit, after: Permit, now: Timestamp): (r: Permit)
    ensures after == before ==> r == before
    ensures after != before ==> r == after.(updatedAt := now)
  {
    if after == before then before else after.(updatedAt := now)
  }

  /** `update(['status' => 'approved', 'processed_at' => now()])`, whatever the
      permit's current status. */
  function ApproveRecord(p: Permit, now: Timestamp): (r: Permit)
    ensures r.status == Approved && r.processedAt == Some(now)
    ensures r.rejectionReason == p.rejectionReason
    ensures SameRequest(p, r)
    ensures r.updatedAt == if p.status == Approved && p.processedAt == Some(now) then p.updatedAt else now
  {
    Saved(p, p.(status := Approved, processedAt := Some(now)), now)
  }

  /** `update(['status' => 'rejected', 'rejection_reason' => $reason, 'processed_at' => now()])`. */
  function RejectRecord(p: Permit, reason: string, now: Timestamp): (r: Permit)
    ensures r.status == Rejected && r.rejectionReason == Some(reason) && r.processedAt == Some(now)
    ensures SameRequest(p, r)
    ensures r.updatedAt ==
              if p.status == Rejected && p.rejectionReason == Some(reason) && p.processedAt == Some(now)
              then p.updatedAt else now
  {
    Saved(p, p.(status := Rejected, rejectionReason := Some(reason), processedAt := Some(now)), now)
  }

  /** What `store` does to a permit it found: the response, and the row it
      writes back (None when nothing is written). */
  datatype Decision = Decision(outcome: Outcome, saved: Option<Permit>)

  function Decide(p: Permit, req: DecisionRequest, now: Timestamp): (d: Decision)
    ensures req.action == Str("approve") ==>
              d.outcome == Redirect(Success(ApprovedFlash)) && d.saved == Some(ApproveRecord(p, now))
    ensures req.action == Str("reject") ==>
              (d.saved.Some? <==> req.rejectionReason.Str? && !Blank(req.rejectionReason.s)
                                  && |req.rejectionReason.s| <= 500)
    ensures req.action == Str("reject") && d.saved.Some? ==>
              d.outcome == Redirect(Success(RejectedFlash))
              && d.saved == Some(RejectRecord(p, req.rejectionReason.s, now))
    ensures req.action == Str("reject") && d.saved.None? ==>
              d.outcome == ValidationFailed("rejection_reason", RequiredString(req.rejectionReason, 500).value)
    ensures req.action != Str("approve") && req.action != Str("reject") ==>
              d == Decision(Redirect(Error(InvalidActionFlash)), None)
    ensures d.saved.Some? ==> d.saved.value.processedAt == Some(now) && SameRequest(p, d.saved.value)
  {
    if req.action == Str("approve") then
      Decision(Redirect(Success(ApprovedFlash)), Some(ApproveRecord(p, now)))
    else if req.action == Str("reject") then
      match RequiredString(req.rejectionReason, 500)
      case Some(rule) => Decision(ValidationFailed("rejection_reason", rule), None)
      case None => Decision(Redirect(Success(RejectedFlash)), Some(RejectRecord(p, req.rejectionReason.s, now)))
    else
      Decision(Redirect(Error(InvalidActionFlash)), None)
  }

  /** Deciding a pending, well-shaped permit once leaves it well-shaped: a reason
      exactly when rejected, a processing time now that it is no longer pending. */
  lemma DecideOnceFromPending(p: Permit, req: DecisionRequest, now: Timestamp)
    requires WellShaped(p) && p.status == Pending
    requires Decide(p, req, now).saved.Some?
    ensures WellShaped(Decide(p, req, now).saved.value)
    ensures Decide(p, req, now).saved.value.status != Pending
  {
  }

  /** Nothing stops a rejected permit from being approved: it becomes approved,
      keeps its stale rejection reason, and so loses its shape. */
  lemma ReapproveKeepsStaleReason(p: Permit, now: Timestamp)
    requires p.status == Rejected && p.rejectionReason.Some?
    ensures ApproveRecord(p, now).status == Approved
    ensures ApproveRecord(p, now).rejectionReason == p.rejectionReason
    ensures !WellShaped(ApproveRecord(p, now))
  {
  }

  /** Nor is a second approval refused: it succeeds and restamps `processed_at`. */
  lemma ApproveTwiceRestamps(p: Permit, first: Timestamp, second: Timestamp)
    ensures Decide(ApproveRecord(p, first), DecisionRequest(Str("approve"), Some(p.id), Null), second).outcome
            == Redirect(Success(ApprovedFlash))
    ensures ApproveRecord(ApproveRecord(p, first), second).processedAt == Some(second)
  {
  }

  /** `store`: find the permit (or fail with 404 and change nothing), then apply
      the action; after a successful write the employee is notified, and the
      notifier's answer does not change the response. */
  method Store(table: PermitTable, req: DecisionRequest, now: Timestamp,
               employees: seq<Employee>, format: Formatter)
    returns (outcome: Outcome, notified: Option<bool>)
    requires table.Valid()
    modifies table
    ensures table.Valid() && table.nextId == old(table.nextId)
    ensures old(table.Find(req.permitId)).None? ==>
              outcome == NotFound && notified.None? && table.permits == old(table.permits)
    ensures old(table.Find(req.permitId)).Some? ==>
              var d := Decide(old(table.Find(req.permitId)).value, req, now);
              && outcome == d.outcome
              && (d.saved.None? ==> table.permits == old(table.permits) && notified.None?)
              && (d.saved.Some? ==>
                    table.permits == old(table.permits)[d.saved.value.id := d.saved.value]
                    && notified == Some(SendEmployeeNotification(d.saved.value, employees, format)))
  {
    var found := table.Find(req.permitId);
    if found.None? {
      return NotFound, None;
    }
    var d := Decide(found.value, req, now);
    outcome := d.outcome;
    notified := None;
    if d.saved.Some? {
      table.Save(d.saved.value);
      notified := Some(SendEmployeeNotification(d.saved.value, employees, format));
    }
  }

  /** The props of the reject form: the permit with its employee loaded. */
  datatype RejectForm = RejectForm(permit: Permit, employee: Option<Employee>)

  /** `create`: the reject form for the permit named by `permit_id`; None is
      the 404 of `findOrFail`. The form is shown whatever the permit's status. */
  function Create(table: PermitTable, permitId: Option<nat>, employees: seq<Employee>): (r: Option<RejectForm>)
    reads table
    ensures r.Some? <==> permitId.Some? && permitId.value in table.permits
    ensures r.Some? ==> r.value.permit == table.permits[permitId.value]
    ensures r.Some? && r.value.employee.Some? ==>
              r.value.employee.value in employees && r.value.employee.value.employeeId == r.value.permit.employeeId
    ensures r.Some? && r.value.employee.None? ==>
              forall e :: e in employees ==> e.employeeId != r.value.permit.employeeId
  {
    match table.Find(permitId)
    case None => None
    case Some(p) => Some(RejectForm(p, EmployeeOf(p, employees)))
  }

  /** A permit the reject form is shown for can be rejected with a short,
      non-blank reason, and the 404 of the form and of the action coincide. */
  lemma CreateThenReject(table: PermitTable, permitId: Option<nat>, employees: seq<Employee>,
                         reason: string, now: Timestamp)
    requires Create(table, permitId, employees).Some?
    requires !Blank(reason) && |reason| <= 500
    ensures table.Find(permitId).Some?
    ensures Decide(table.Find(permitId).value, DecisionRequest(Str("reject"), permitId, Str(reason)), now).outcome
            == Redirect(Success(RejectedFlash))
  {
  }

  // ---------------------------------------------------------------------
  // CSV export
  // ---------------------------------------------------------------------

  const CsvHeader: seq<string> := [
    "ID", "Employee ID", "Employee Name", "Department", "Vehicle Type", "License Plate",
    "Usage Start", "Usage End", "Purpose", "Status", "Rejection Reason", "Requested At", "Processed At"
  ]

  /** The Carbon pattern of every timestamp in the export. */
  const CsvDateFormat := "Y-m-d H:i:s"

  /** The export file name for a given day (`Y-m-d`). */
  function ExportFileName(today: string): (r: string)
    ensures "vehicle-permits-" <= r && EndsWith(r, ".csv")
    ensures |r| == |"vehicle-permits-"| + |today| + |".csv"|
    ensures r[|"vehicle-permits-"|..|r| - |".csv"|] == today
  {
    var r := "vehicle-permits-" + today + ".csv";
    assert r[|r| - 4..] == ".csv";
    r
  }

  /** One data line, column by column in header order. */
  datatype CsvLine = CsvLine(
    id: string, employeeId: string, employeeName: string, department: string,
    vehicleType: string, licensePlate: string, usageStart: string, usageEnd: string,
    purpose: string, status: string, rejectionReason: string, requestedAt: string,
    processedAt: string)

  /** The field of a line that belongs under a header name ("" for a name
      that is not a column). */
  function FieldNamed(l: CsvLine, name: string): string {
    match name
    case "ID" => l.id
    case "Employee ID" => l.employeeId
    case "Employee Name" => l.employeeName
    case "Department" => l.department
    case "Vehicle Type" => l.vehicleType
    case "License Plate" => l.licensePlate
    case "Usage Start" => l.usageStart
    case "Usage End" => l.usageEnd
    case "Purpose" => l.purpose
    case "Status" => l.status
    case "Rejection Reason" => l.rejectionReason
    case "Requested At" => l.requestedAt
    case "Processed At" => l.processedAt
    case _ => ""
  }

  /** The fields `fputcsv` writes for a line: each one under its own header. */
  function Fields(l: CsvLine): (r: seq<string>)
    ensures |r| == |CsvHeader|
    ensures forall i :: 0 <= i < |r| ==> r[i] == FieldNamed(l, CsvHeader[i])
  {
    [ l.id, l.employeeId, l.employeeName, l.department, l.vehicleType, l.licensePlate,
      l.usageStart, l.usageEnd, l.purpose, l.status, l.rejectionReason, l.requestedAt,
      l.processedAt ]
  }

  /** One data line: a null column is written as an empty field. */
  function CsvRow(p: Permit, e: Employee, format: Formatter): (r: CsvLine)
    ensures r.id == DecimalString(p.id) && r.employeeId == p.employeeId
    ensures r.employeeName == e.name && r.department == e.department
    ensures r.status == StatusName(p.status)
    ensures r.vehicleType == p.vehicleType && r.licensePlate == p.licensePlate
    ensures r.usageStart == format(p.usageStart, CsvDateFormat) && r.usageEnd == format(p.usageEnd, CsvDateFormat)
    ensures r.requestedAt == format(p.createdAt, CsvDateFormat)
    ensures r.purpose == p.purpose.GetOr("") && r.rejectionReason == p.rejectionReason.GetOr("")
    ensures p.processedAt.None? ==> r.processedAt == ""
    ensures p.processedAt.Some? ==> r.processedAt == format(p.processedAt.value, CsvDateFormat)
  {
    CsvLine(
      DecimalString(p.id), p.employeeId, e.name, e.department, p.vehicleType, p.licensePlate,
      format(p.usageStart, CsvDateFormat), format(p.usageEnd, CsvDateFormat),
      p.purpose.GetOr(""), StatusName(p.status), p.rejectionReason.GetOr(""),
      format(p.createdAt, CsvDateFormat),
      if p.processedAt.Some? then format(p.processedAt.value, CsvDateFormat) else "")
  }

  /** The ID and Status fields of a line read back as the permit's id and status. */
  lemma CsvRowReadsBack(p: Permit, e: Employee, format: Formatter)
    ensures DecimalValue(Fields(CsvRow(p, e, format))[0]) == p.id
    ensures ParseStatus(Fields(CsvRow(p, e, format))[9]) == Some(p.status)
  {
    DecimalRoundTrip(p.id);
    StatusRoundTrip(p.status);
  }

  /** The data lines written for `ps`: the stream stops at the first permit whose
      employee is missing (reading `->name` of null raises inside the callback). */
  function CsvRows(ps: seq<Permit>, employees: seq<Employee>, format: Formatter): (r: seq<CsvLine>)
    ensures |r| <= |ps|
    ensures forall i :: 0 <= i < |r| ==> r[i].id == DecimalString(ps[i].id)
  {
    if ps == [] then []
    else
      match EmployeeOf(ps[0], employees)
      case None => []
      case Some(e) => [CsvRow(ps[0], e, format)] + CsvRows(ps[1..], employees, format)
  }

  /** The streamed download: its name, its lines, and whether it ran to the end. */
  datatype Export = Export(fileName: string, header: seq<string>, lines: seq<CsvLine>, complete: bool)

  /** Extending a fully exportable list by one exportable permit adds its line. */
  lemma {:induction false} CsvRowsAppend(ps: seq<Permit>, p: Permit, employees: seq<Employee>, format: Formatter)
    requires AllJoined(ps, employees)
    requires EmployeeOf(p, employees).Some?
    ensures CsvRows(ps + [p], employees, format)
            == CsvRows(ps, employees, format) + [CsvRow(p, EmployeeOf(p, employees).value, format)]
  {
    if ps == [] {
      assert ps + [p] == [p];
    } else {
      assert (ps + [p])[1..] == ps[1..] + [p];
      CsvRowsAppend(ps[1..], p, employees, format);
    }
  }

  /** The first permit without an employee ends the export. */
  lemma {:induction false} CsvRowsStop(ps: seq<Permit>, k: nat, employees: seq<Employee>, format: Formatter)
    requires k < |ps|
    requires forall j :: 0 <= j < k ==> EmployeeOf(ps[j], employees).Some?
    requires EmployeeOf(ps[k], employees).None?
    ensures CsvRows(ps, employees, format) == CsvRows(ps[..k], employees, format)
  {
    if k > 0 {
      assert ps[..k][1..] == ps[1..][..k - 1];
      CsvRowsStop(ps[1..], k - 1, employees, format);
    }
  }

  /** Every permit in `ps` has its employee. */
  predicate AllJoined(ps: seq<Permit>, employees: seq<Employee>) {
    forall j :: 0 <= j < |ps| ==> EmployeeOf(ps[j], employees).Some?
  }

  /** What one more step of the stream adds to the lines written for a prefix. */
  lemma CsvRowsStep(ps: seq<Permit>, i: nat, employees: seq<Employee>, format: Formatter)
    requires i < |ps| && AllJoined(ps[..i], employees)
    ensures EmployeeOf(ps[i], employees).Some? ==>
              AllJoined(ps[..i + 1], employees)
              && CsvRows(ps[..i + 1], employees, format)
                 == CsvRows(ps[..i], employees, format) + [CsvRow(ps[i], EmployeeOf(ps[i], employees).value, format)]
    ensures EmployeeOf(ps[i], employees).None? ==>
              !AllJoined(ps, employees) && CsvRows(ps, employees, format) == CsvRows(ps[..i], employees, format)
  {
    assert ps[..i + 1] == ps[..i] + [ps[i]];
    if EmployeeOf(ps[i], employees).Some? {
      CsvRowsAppend(ps[..i], ps[i], employees, format);
    } else {
      CsvRowsStop(ps, i, employees, format);
    }
  }

  /** When every permit has its employee, the export writes one line per
      permit, each the line of that permit. */
  lemma {:induction false} CompleteExportLines(ps: seq<Permit>, employees: seq<Employee>, format: Formatter)
    requires AllJoined(ps, employees)
    ensures |CsvRows(ps, employees, format)| == |ps|
    ensures forall i :: 0 <= i < |ps| ==>
              CsvRows(ps, employees, format)[i] == CsvRow(ps[i], EmployeeOf(ps[i], employees).value, format)
  {
    if ps != [] {
      assert AllJoined(ps[1..], employees) by {
        forall j | 0 <= j < |ps[1..]| ensures EmployeeOf(ps[1..][j], employees).Some? {
          assert ps[1..][j] == ps[j + 1];
        }
      }
      CompleteExportLines(ps[1..], employees, format);
    }
  }

  /** The `foreach` of the stream callback: one line per permit, until a permit
      without an employee aborts the stream. */
  method WriteRows(permits: seq<Permit>, employees: seq<Employee>, format: Formatter)
    returns (written: seq<CsvLine>, complete: bool)
    ensures written == CsvRows(permits, employees, format)
    ensures complete <==> AllJoined(permits, employees)
  {
    written := [];
    complete := true;
    var i := 0;
    while i < |permits|
      invariant 0 <= i <= |permits|
      invariant written == CsvRows(permits[..i], employees, format)
      invariant AllJoined(permits[..i], employees)
      invariant complete
    {
      var employee := EmployeeOf(permits[i], employees);
      CsvRowsStep(permits, i, employees, format);
      if employee.None? {
        complete := false;
        break;
      }
      written := written + [CsvRow(permits[i], employee.value, format)];
      i := i + 1;
    }
    if complete {
      assert permits[..i] == permits;
    }
  }

  /** `show`: the same filtered rows as the dashboard, all of them, in table
      order, written as a header line and one line per permit. */
  method Show(table: PermitTable, f: FilterRequest, parseDate: DateParser,
              employees: seq<Employee>, format: Formatter, today: string)
    returns (download: Export)
    requires table.Valid()
    ensures download.fileName == ExportFileName(today)
    ensures download.header == CsvHeader
    ensures download.lines == CsvRows(Select(table.Rows(), f, parseDate), employees, format)
    ensures download.complete <==> AllJoined(Select(table.Rows(), f, parseDate), employees)
    ensures download.complete ==> |download.lines| == |Select(table.Rows(), f, parseDate)|
    ensures KeyOrdered(Select(table.Rows(), f, parseDate))
  {
    var permits := NarrowQuery(table.Rows(), f, parseDate);
    var written, complete := WriteRows(permits, employees, format);
    if complete {
      CompleteExportLines(permits, employees, format);
    }
    SelectKeepsKeyOrder(table.Rows(), f, parseDate);
    download := Export(ExportFileName(today), CsvHeader, written, complete);
  }
}

/** The employee side: the request form with its employee list, the
    submission of a permit request, and the employee lookup by business key. */
module VehiclePermitController {
  import opened Wrappers
  import opened Text
  import opened Sorting
  import opened Records
  import opened Validation
  import opened PermitStore
  import opened WhatsAppService

  /** `orderBy('name')`: compares names character by character. */
  predicate NameBefore(a: Employee, b: Employee) {
    LexLe(a.name, b.name)
  }

  /** `Employee::orderBy('name')->get()`: every employee exactly once, names ascending. */
  function EmployeesByName(employees: seq<Employee>): (r: seq<Employee>)
    ensures forall i :: 0 < i < |r| ==> LexLe(r[i - 1].name, r[i].name)
    ensures multiset(r) == multiset(employees)
  {
    forall a: Employee, b: Employee ensures NameBefore(a, b) || NameBefore(b, a) {
      LexTotal(a.name, b.name);
    }
    SortBy(employees, NameBefore)
  }

  /** The props of the `welcome` page; `message` and `success` are absent from the bare form. */
  datatype WelcomeView = WelcomeView(employees: seq<Employee>, message: Option<string>, success: Option<bool>)

  const SubmittedMessage := "Vehicle permit request submitted successfully! HR has been notified."

  /** `index`: the form, listing every employee by name and nothing else. */
  function Index(employees: seq<Employee>): (view: WelcomeView)
    ensures multiset(view.employees) == multiset(employees)
    ensures forall i :: 0 < i < |view.employees| ==> LexLe(view.employees[i - 1].name, view.employees[i].name)
    ensures view.message.None? && view.success.None?
  {
    WelcomeView(EmployeesByName(employees), None, None)
  }

  /** `store`: inserts the validated request as a new pending permit, tries to
      notify HR, and answers with the form and a success message whatever the
      notification returned (its result is discarded). */
  method Store(table: PermitTable, input: PermitInput, now: Timestamp,
               employees: seq<Employee>, format: Formatter, route: Router)
    returns (view: WelcomeView, notified: bool)
    requires table.Valid()
    modifies table
    ensures table.Valid()
    ensures table.permits == old(table.permits)[old(table.nextId) := NewPermit(input, old(table.nextId), now)]
    ensures table.nextId == old(table.nextId) + 1
    ensures notified <==>
              route(ApproveRouteName, old(table.nextId)).Some? && route(RejectRouteName, old(table.nextId)).Some?
              && (exists e :: e in employees && e.employeeId == input.employeeId)
    ensures view == WelcomeView(EmployeesByName(employees), Some(SubmittedMessage), Some(true))
  {
    var permit := table.Insert(input, now);
    notified := SendHRNotification(permit, employees, format, route);
    view := WelcomeView(EmployeesByName(employees), Some(SubmittedMessage), Some(true));
  }

  /** The first failing rule of `required|string|exists:employees,employee_id`. */
  function LookupFailure(v: RequestValue, employees: seq<Employee>): (r: Option<Rule>)
    ensures r.None? <==> v.Str? && !Blank(v.s) && exists e :: e in employees && e.employeeId == v.s
    ensures r == Some(Required) <==> !Present(v)
    ensures r == Some(MustBeString) <==> v.Other?
    ensures r == Some(Exists) <==> v.Str? && !Blank(v.s) && forall e :: e in employees ==> e.employeeId != v.s
  {
    if !Present(v) then Some(Required)
    else if !v.Str? then Some(MustBeString)
    else if FirstWithEmployeeId(employees, v.s).None? then Some(Exists)
    else None
  }

  /** The answer of `show`: a validation failure, or the JSON `{employee: ...}`. */
  datatype LookupResult = Invalid(rule: Rule) | Json(employee: Option<Employee>)

  /** A request to `GET /employee/{employee_id}`: the key in the path, and the
      `employee_id` entry of the query string and body (`$request->all()`),
      which is all that the validator and the lookup read. */
  datatype LookupRequest = LookupRequest(pathKey: string, input: RequestValue)

  /** `show`: validates the `employee_id` input, then returns the first
      employee with that business key. The path parameter is never read. */
  function Show(req: LookupRequest, employees: seq<Employee>): (r: LookupResult)
    ensures r.Invalid? <==> LookupFailure(req.input, employees).Some?
    ensures r.Invalid? ==> r.rule == LookupFailure(req.input, employees).value
    ensures r.Json? ==> r.employee.Some? && r.employee.value in employees
                        && r.employee.value.employeeId == req.input.s
  {
    match LookupFailure(req.input, employees)
    case Some(rule) => Invalid(rule)
    case None => Json(FirstWithEmployeeId(employees, req.input.s))
  }

  /** A known non-blank business key, submitted as the `employee_id` input,
      always finds its employee. */
  lemma ShowFindsKnownKey(employees: seq<Employee>, e: Employee, pathKey: string)
    requires e in employees && !Blank(e.employeeId)
    ensures Show(LookupRequest(pathKey, Str(e.employeeId)), employees).Json?
    ensures Show(LookupRequest(pathKey, Str(e.employeeId)), employees).employee.value.employeeId == e.employeeId
  {
  }

  /** A key no employee has is refused by the `exists` rule, never answered with null. */
  lemma ShowRejectsUnknownKey(employees: seq<Employee>, key: string, pathKey: string)
    requires !Blank(key) && forall e :: e in employees ==> e.employeeId != key
    ensures Show(LookupRequest(pathKey, Str(key)), employees) == Invalid(Exists)
  {
  }

  /** A key given only in the path fails `required`, even when an employee has it. */
  lemma PathKeyAloneIsRequired(employees: seq<Employee>, e: Employee)
    requires e in employees
    ensures Show(LookupRequest(e.employeeId, Null), employees) == Invalid(Required)
  {
  }
}

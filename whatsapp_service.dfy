/** The mocked WhatsApp notifier: the text of the two messages and the
    catch-everything boundary of the two send operations. */
module WhatsAppService {
  import opened Wrappers
  import opened Text
  import opened Records
  import opened VehiclePermitModel

  /** Laravel's `route(name, id)`: a URL, or None where the name is not a
      defined route (it throws RouteNotFoundException). */
  type Router = (string, nat) -> Option<string>

  const ApproveRouteName := "admin.permits.approve"
  const RejectRouteName := "admin.permits.reject"

  /** The Carbon pattern used for usage windows in messages. */
  const MessageDateFormat := "M j, Y g:i A"

  const CarEmoji := "\U{1F697}"
  const CheckEmoji := "\U{2705}"
  const CrossEmoji := "\U{274C}"
  const HourglassEmoji := "\U{23F3}"

  /** The emoji heading an employee message: one per status. */
  function StatusEmoji(s: Status): (r: string)
    ensures r == CheckEmoji <==> s == Approved
    ensures r == CrossEmoji <==> s == Rejected
    ensures r == HourglassEmoji <==> s == Pending
  {
    match s
    case Approved => CheckEmoji
    case Rejected => CrossEmoji
    case Pending => HourglassEmoji
  }

  /** PHP truthiness of a nullable string: null, '' and '0' are false. */
  predicate Truthy(o: Option<string>) {
    o.Some? && o.value != "" && o.value != "0"
  }

  /** The employee message carries a Reason line. */
  predicate ShowsReason(p: Permit) {
    p.status == Rejected && Truthy(p.rejectionReason)
  }

  function UsageLine(p: Permit, format: Formatter): string {
    "Usage: " + format(p.usageStart, MessageDateFormat) + " - " + format(p.usageEnd, MessageDateFormat) + "\n"
  }

  /** The purpose as shown to HR: `purpose ?? 'Not specified'`. */
  function PurposeText(purpose: Option<string>): string {
    purpose.GetOr("Not specified")
  }

  /** `buildHRNotificationMessage`. None stands for the exceptions it can raise:
      an undefined route name, or a permit whose employee does not exist. */
  function BuildHRMessage(p: Permit, employees: seq<Employee>, format: Formatter, route: Router): (r: Option<string>)
    ensures r.Some? <==>
              route(ApproveRouteName, p.id).Some? && route(RejectRouteName, p.id).Some?
              && EmployeeOf(p, employees).Some?
    ensures r.Some? ==> CarEmoji + " New Vehicle Permit Request\n\n" <= r.value
    ensures r.Some? ==> Contains(r.value, "Employee: " + EmployeeOf(p, employees).value.name
                                          + " (" + p.employeeId + ")\n")
    ensures r.Some? ==> Contains(r.value, "Department: " + EmployeeOf(p, employees).value.department + "\n")
    ensures r.Some? ==> Contains(r.value, "Vehicle: " + p.vehicleType + "\n")
    ensures r.Some? ==> Contains(r.value, "License Plate: " + p.licensePlate + "\n")
    ensures r.Some? ==> Contains(r.value, UsageLine(p, format))
    ensures r.Some? ==> Contains(r.value, "Purpose: " + PurposeText(p.purpose) + "\n\n")
    ensures r.Some? ==> Contains(r.value, "Approve: " + route(ApproveRouteName, p.id).value + "\n")
    ensures r.Some? ==> EndsWith(r.value, "Reject: " + route(RejectRouteName, p.id).value)
  {
    var approveUrl := route(ApproveRouteName, p.id);
    var rejectUrl := route(RejectRouteName, p.id);
    var employee := EmployeeOf(p, employees);
    if approveUrl.None? || rejectUrl.None? || employee.None? then None
    else
      var parts := [
        CarEmoji + " New Vehicle Permit Request\n\n",
        "Employee: " + employee.value.name + " (" + p.employeeId + ")\n",
        "Department: " + employee.value.department + "\n",
        "Vehicle: " + p.vehicleType + "\n",
        "License Plate: " + p.licensePlate + "\n",
        UsageLine(p, format),
        "Purpose: " + PurposeText(p.purpose) + "\n\n",
        "Actions:\n" + CheckEmoji + " ",
        "Approve: " + approveUrl.value + "\n",
        CrossEmoji + " "
      ];
      var reject := "Reject: " + rejectUrl.value;
      ConcatThenEnds(parts, reject);
      ConcatThenContains(parts, reject, 1);
      ConcatThenContains(parts, reject, 2);
      ConcatThenContains(parts, reject, 3);
      ConcatThenContains(parts, reject, 4);
      ConcatThenContains(parts, reject, 5);
      ConcatThenContains(parts, reject, 6);
      ConcatThenContains(parts, reject, 8);
      Some(Concat(parts) + reject)
  }

  /** `buildEmployeeNotificationMessage`. None stands for the exception raised
      when the permit's employee does not exist. */
  function BuildEmployeeMessage(p: Permit, employees: seq<Employee>, format: Formatter): (r: Option<string>)
    ensures r.Some? <==> EmployeeOf(p, employees).Some?
    ensures r.Some? ==> StatusEmoji(p.status) + " Vehicle Permit Update\n\n" <= r.value
    ensures r.Some? ==> Contains(r.value, "Dear " + EmployeeOf(p, employees).value.name + ",\n\n")
    ensures r.Some? ==> Contains(r.value, "has been " + Upper(StatusName(p.status)) + ".")
    ensures r.Some? ==> Contains(r.value, "Vehicle: " + p.vehicleType + "\n")
    ensures r.Some? ==> Contains(r.value, "License Plate: " + p.licensePlate + "\n")
    ensures r.Some? && ShowsReason(p) ==>
              EndsWith(r.value, UsageLine(p, format) + ("\nReason: " + p.rejectionReason.value + "\n"))
    ensures r.Some? && !ShowsReason(p) ==> EndsWith(r.value, UsageLine(p, format))
  {
    match EmployeeOf(p, employees)
    case None => None
    case Some(e) =>
      var parts := [
        StatusEmoji(p.status) + " Vehicle Permit Update\n\n",
        "Dear " + e.name + ",\n\n",
        "Your vehicle permit request ",
        "has been " + Upper(StatusName(p.status)) + ".",
        "\n\nRequest Details:\n",
        "Vehicle: " + p.vehicleType + "\n",
        "License Plate: " + p.licensePlate + "\n"
      ];
      var usage := UsageLine(p, format);
      var reason := if ShowsReason(p) then "\nReason: " + p.rejectionReason.value + "\n" else "";
      ConcatThenEnds(parts, usage + reason);
      ConcatThenContains(parts, usage + reason, 1);
      ConcatThenContains(parts, usage + reason, 3);
      ConcatThenContains(parts, usage + reason, 5);
      ConcatThenContains(parts, usage + reason, 6);
      assert !ShowsReason(p) ==> usage + reason == usage;
      Some(Concat(parts) + (usage + reason))
  }

  /** The status word as the employee message spells it. */
  lemma UpperStatusNames()
    ensures Upper(StatusName(Pending)) == "PENDING"
    ensures Upper(StatusName(Approved)) == "APPROVED"
    ensures Upper(StatusName(Rejected)) == "REJECTED"
  {
  }

  /** `sendHRNotification`: true when the message could be built (and logged),
      false when building threw; it never raises. */
  function SendHRNotification(p: Permit, employees: seq<Employee>, format: Formatter, route: Router): (ok: bool)
    ensures ok <==>
              route(ApproveRouteName, p.id).Some? && route(RejectRouteName, p.id).Some?
              && (exists e :: e in employees && e.employeeId == p.employeeId)
  {
    BuildHRMessage(p, employees, format, route).Some?
  }

  /** The route names the application registers. */
  const AppRouteNames: set<string> := {
    "permits.index", "permits.store", "permits.employee",
    "admin.dashboard", "admin.download-excel", "admin.permits.store", "admin.permits.create",
    "employees.index", "employees.create", "employees.store", "employees.show",
    "employees.edit", "employees.update", "employees.destroy",
    "dashboard"
  }

  /** `route` resolves exactly the names in `names`. */
  ghost predicate ResolvesExactly(route: Router, names: set<string>) {
    forall name, id :: route(name, id).Some? <==> name in names
  }

  /** Neither action link of the HR message names a registered route, so with
      the application's routes every HR notification fails and reports false. */
  lemma HRNotificationFailsWithAppRoutes(p: Permit, employees: seq<Employee>, format: Formatter, route: Router)
    requires ResolvesExactly(route, AppRouteNames)
    ensures BuildHRMessage(p, employees, format, route).None?
    ensures !SendHRNotification(p, employees, format, route)
  {
  }

  /** `sendEmployeeNotification`: true exactly when the permit's employee exists. */
  function SendEmployeeNotification(p: Permit, employees: seq<Employee>, format: Formatter): (ok: bool)
    ensures ok <==> exists e :: e in employees && e.employeeId == p.employeeId
  {
    BuildEmployeeMessage(p, employees, format).Some?
  }
}

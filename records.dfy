/** The two persisted records: rows of `vehicle_permits` and of `employees`. */
module Records {
  import opened Wrappers

  /** A point in time, in whole seconds, in the application's time zone. */
  type Timestamp = nat

  const SecondsPerDay: nat := 86400

  /** The calendar date of a timestamp, as SQL's DATE() sees it (a day number). */
  function DayOf(t: Timestamp): nat {
    t / SecondsPerDay
  }

  /** Carbon's `format(pattern)`; its output is not modelled, so callers pass it in. */
  type Formatter = (Timestamp, string) -> string

  /** The `status` column: ENUM('pending', 'approved', 'rejected') DEFAULT 'pending'. */
  datatype Status = Pending | Approved | Rejected

  /** The string stored in the `status` column. */
  function StatusName(s: Status): string {
    match s
    case Pending => "pending"
    case Approved => "approved"
    case Rejected => "rejected"
  }

  /** The status a stored string denotes, if it is one of the enum's values. */
  function ParseStatus(name: string): (r: Option<Status>)
    ensures r.Some? ==> StatusName(r.value) == name
    ensures r.None? ==> forall s: Status :: StatusName(s) != name
  {
    if name == "pending" then Some(Pending)
    else if name == "approved" then Some(Approved)
    else if name == "rejected" then Some(Rejected)
    else None
  }

  /** Distinct statuses are stored as distinct strings, so a status can be read back. */
  lemma StatusRoundTrip(s: Status)
    ensures ParseStatus(StatusName(s)) == Some(s)
  {
  }

  /** One row of `vehicle_permits`; the nullable columns are the Option fields. */
  datatype Permit = Permit(
    id: nat,
    employeeId: string,
    vehicleType: string,
    licensePlate: string,
    usageStart: Timestamp,
    usageEnd: Timestamp,
    purpose: Option<string>,
    status: Status,
    rejectionReason: Option<string>,
    processedAt: Option<Timestamp>,
    createdAt: Timestamp,
    updatedAt: Timestamp)

  /** The shape a permit has in each state: a rejection reason exactly when it
      was rejected, a processing time exactly when it is no longer pending. */
  predicate WellShaped(p: Permit) {
    && (p.rejectionReason.Some? <==> p.status == Rejected)
    && (p.processedAt.Some? <==> p.status != Pending)
  }

  /** One row of `employees`: `id` is the row key, `employeeId` the business key. */
  datatype Employee = Employee(
    id: nat,
    employeeId: string,
    name: string,
    department: string,
    grade: string,
    phone: Option<string>)

  /** `Employee::where('employee_id', key)->first()`: the first row with that business key. */
  function FirstWithEmployeeId(employees: seq<Employee>, key: string): (r: Option<Employee>)
    ensures r.Some? ==> r.value in employees && r.value.employeeId == key
    ensures r.None? <==> forall e :: e in employees ==> e.employeeId != key
  {
    if employees == [] then None
    else if employees[0].employeeId == key then Some(employees[0])
    else FirstWithEmployeeId(employees[1..], key)
  }
}

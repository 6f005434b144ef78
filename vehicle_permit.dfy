/** The VehiclePermit model: which columns may be mass-assigned, which may be
    null, the three status scopes and the `employee` relation. */
module VehiclePermitModel {
  import opened Wrappers
  import opened Records

  /** The columns of `vehicle_permits`. */
  datatype Column =
    | Id | EmployeeIdColumn | VehicleType | LicensePlate | UsageStart | UsageEnd
    | Purpose | StatusColumn | RejectionReason | ProcessedAt | CreatedAt | UpdatedAt

  /** The `$fillable` list. */
  const Fillable: set<Column> := {
    EmployeeIdColumn, VehicleType, LicensePlate, UsageStart, UsageEnd,
    Purpose, StatusColumn, RejectionReason, ProcessedAt
  }

  /** Mass assignment (`create`/`update` with an array): attributes outside
      `$fillable` are silently dropped, so the key and the audit timestamps
      can never be set from request input. */
  function MassAssign<V>(attributes: map<Column, V>): (r: map<Column, V>)
    ensures r.Keys <= attributes.Keys
    ensures forall c :: c in r ==> r[c] == attributes[c]
    ensures forall c :: c in attributes && c in Fillable ==> c in r
    ensures Id !in r && CreatedAt !in r && UpdatedAt !in r
  {
    map c | c in attributes && c in Fillable :: attributes[c]
  }

  /** The columns the submission passes to `create`, and those the approve and
      reject actions pass to `update`. */
  const SubmittedColumns: set<Column> := {EmployeeIdColumn, VehicleType, LicensePlate, UsageStart, UsageEnd, Purpose}
  const ApproveColumns: set<Column> := {StatusColumn, ProcessedAt}
  const RejectColumns: set<Column> := {StatusColumn, RejectionReason, ProcessedAt}

  /** Every column the application writes through `create` or `update` is
      fillable, so mass assignment passes those attributes through unchanged. */
  lemma WritesAreFillable<V>(attributes: map<Column, V>)
    requires attributes.Keys <= SubmittedColumns || attributes.Keys <= ApproveColumns
             || attributes.Keys <= RejectColumns
    ensures MassAssign(attributes) == attributes
  {
  }

  /** The columns declared `string|null` / `Carbon|null` among the permit's own data. */
  const NullableColumns: set<Column> := {Purpose, RejectionReason, ProcessedAt}

  /** The columns that are null in a given row. */
  function NullColumns(p: Permit): (r: set<Column>)
    ensures r <= NullableColumns
    ensures Purpose in r <==> p.purpose.None?
    ensures RejectionReason in r <==> p.rejectionReason.None?
    ensures ProcessedAt in r <==> p.processedAt.None?
  {
    (if p.purpose.None? then {Purpose} else {})
    + (if p.rejectionReason.None? then {RejectionReason} else {})
    + (if p.processedAt.None? then {ProcessedAt} else {})
  }

  /** `where('status', name)`: the rows whose stored status string equals `name`,
      in their original order. */
  function WhereStatus(ps: seq<Permit>, name: string): (r: seq<Permit>)
    ensures |r| <= |ps|
    ensures forall p :: p in r <==> p in ps && StatusName(p.status) == name
  {
    if ps == [] then []
    else if StatusName(ps[0].status) == name then [ps[0]] + WhereStatus(ps[1..], name)
    else WhereStatus(ps[1..], name)
  }

  /** `scopePending`. */
  function ScopePending(ps: seq<Permit>): (r: seq<Permit>)
    ensures forall p :: p in r <==> p in ps && p.status == Pending
  {
    WhereStatus(ps, "pending")
  }

  /** `scopeApproved`. */
  function ScopeApproved(ps: seq<Permit>): (r: seq<Permit>)
    ensures forall p :: p in r <==> p in ps && p.status == Approved
  {
    WhereStatus(ps, "approved")
  }

  /** `scopeRejected`. */
  function ScopeRejected(ps: seq<Permit>): (r: seq<Permit>)
    ensures forall p :: p in r <==> p in ps && p.status == Rejected
  {
    WhereStatus(ps, "rejected")
  }

  /** No permit is selected by two of the scopes. */
  lemma ScopesDisjoint(ps: seq<Permit>, p: Permit)
    ensures !(p in ScopePending(ps) && p in ScopeApproved(ps))
    ensures !(p in ScopePending(ps) && p in ScopeRejected(ps))
    ensures !(p in ScopeApproved(ps) && p in ScopeRejected(ps))
  {
  }

  /** Every row falls in exactly one scope, so the three scope counts add up to the row count. */
  lemma {:induction false} ScopeCountsAddUp(ps: seq<Permit>)
    ensures |ScopePending(ps)| + |ScopeApproved(ps)| + |ScopeRejected(ps)| == |ps|
  {
    if ps != [] {
      ScopeCountsAddUp(ps[1..]);
    }
  }

  /** A status scope keeps every row of that status as often as the table
      holds it, and no row of another status: the scope's count is the number
      of rows with that status. */
  lemma {:induction false} ScopeCounts(ps: seq<Permit>, s: Status, p: Permit)
    ensures multiset(WhereStatus(ps, StatusName(s)))[p] == if p.status == s then multiset(ps)[p] else 0
  {
    if ps != [] {
      ScopeCounts(ps[1..], s, p);
      assert ps == [ps[0]] + ps[1..];
      StatusRoundTrip(ps[0].status);
      StatusRoundTrip(s);
    }
  }

  /** The `employee` relation: `belongsTo(Employee, 'employee_id', 'employee_id')`
      joins on the business key, never on the employee's row id. */
  function EmployeeOf(p: Permit, employees: seq<Employee>): (r: Option<Employee>)
    ensures r.Some? ==> r.value in employees && r.value.employeeId == p.employeeId
    ensures r.None? <==> forall e :: e in employees ==> e.employeeId != p.employeeId
  {
    FirstWithEmployeeId(employees, p.employeeId)
  }
}

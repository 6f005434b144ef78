/** The `vehicle_permits` table: rows keyed by an auto-increment primary key. */
module PermitStore {
  import opened Wrappers
  import opened Records
  import opened VehiclePermitModel

  /** The validated fields of a permit submission. */
  datatype PermitInput = PermitInput(
    employeeId: string,
    vehicleType: string,
    licensePlate: string,
    usageStart: Timestamp,
    usageEnd: Timestamp,
    purpose: Option<string>)

  /** The row `VehiclePermit::create` inserts: `status` takes the column default
      `pending`, the nullable decision columns stay null, both audit stamps are `now`. */
  function NewPermit(input: PermitInput, id: nat, now: Timestamp): (p: Permit)
    ensures p.id == id && p.status == Pending
    ensures p.employeeId == input.employeeId && p.vehicleType == input.vehicleType
    ensures p.licensePlate == input.licensePlate && p.purpose == input.purpose
    ensures p.usageStart == input.usageStart && p.usageEnd == input.usageEnd
    ensures p.createdAt == now && p.updatedAt == now
    ensures WellShaped(p)
  {
    Permit(id, input.employeeId, input.vehicleType, input.licensePlate,
           input.usageStart, input.usageEnd, input.purpose,
           Pending, None, None, now, now)
  }

  /** A new permit has no rejection reason and no processing time, and a
      purpose only when one was submitted. */
  lemma NewPermitNulls(input: PermitInput, id: nat, now: Timestamp)
    ensures NullColumns(NewPermit(input, id, now))
            == {RejectionReason, ProcessedAt} + (if input.purpose.None? then {Purpose} else {})
  {
  }

  /** The rows with a key below `n`, in key order: a scan of the table. */
  function RowsBelow(m: map<nat, Permit>, n: nat): (r: seq<Permit>)
    requires forall k :: k in m ==> m[k].id == k
    ensures forall i :: 0 <= i < |r| ==> r[i].id < n && r[i].id in m && m[r[i].id] == r[i]
    ensures forall k :: k in m && k < n ==> m[k] in r
    ensures forall i, j :: 0 <= i < j < |r| ==> r[i].id < r[j].id
  {
    if n == 0 then [] else RowsBelow(m, n - 1) + (if n - 1 in m then [m[n - 1]] else [])
  }

  class PermitTable {
    var permits: map<nat, Permit>
    var nextId: nat

    /** Every row is stored under its own id, and every id was handed out already. */
    ghost predicate Valid()
      reads this
    {
      nextId >= 1 && forall k :: k in permits ==> 1 <= k < nextId && permits[k].id == k
    }

    /** An empty table; the auto-increment counter starts at 1. */
    constructor ()
      ensures Valid() && permits == map[] && nextId == 1
    {
      permits := map[];
      nextId := 1;
    }

    /** `VehiclePermit::find($id)`: an absent or unknown id finds nothing. */
    function Find(id: Option<nat>): (r: Option<Permit>)
      reads this
      ensures r.Some? <==> id.Some? && id.value in permits
      ensures r.Some? ==> r.value == permits[id.value]
    {
      if id.Some? && id.value in permits then Some(permits[id.value]) else None
    }

    /** All rows, in primary-key order (a query without ORDER BY). */
    function Rows(): (r: seq<Permit>)
      reads this
      requires Valid()
      ensures forall k :: k in permits ==> permits[k] in r
      ensures forall p :: p in r ==> p.id in permits && permits[p.id] == p
      ensures forall i, j :: 0 <= i < j < |r| ==> r[i].id < r[j].id
    {
      RowsBelow(permits, nextId)
    }

    /** `VehiclePermit::create`: one new row under the next free key. */
    method Insert(input: PermitInput, now: Timestamp) returns (p: Permit)
      requires Valid()
      modifies this
      ensures Valid()
      ensures p == NewPermit(input, old(nextId), now)
      ensures old(nextId) !in old(permits)
      ensures permits == old(permits)[p.id := p]
      ensures nextId == old(nextId) + 1
    {
      p := NewPermit(input, nextId, now);
      permits := permits[nextId := p];
      nextId := nextId + 1;
    }

    /** `$permit->update(...)`: writes one existing row back under its key. */
    method Save(p: Permit)
      requires Valid() && p.id in permits
      modifies this
      ensures Valid()
      ensures permits == old(permits)[p.id := p]
      ensures nextId == old(nextId)
    {
      permits := permits[p.id := p];
    }
  }
}

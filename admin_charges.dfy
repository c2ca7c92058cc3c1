/** The admin-charge routes: one overhead amount per (month, year), staff
    only: an ordered list, a create that refuses a second charge for the same
    month, an amount-only update, and delete. */
module AdminCharges {

  import opened Common
  import opened Tables
  import opened Ordering
  import opened Records
  import opened Server

  const AlreadyExists: string := "Admin charge already exists for this month/year"
  const ChargeNotFound: string := "Admin charge not found"

  /** The `where: { month, year }` condition. */
  function ForPeriod(month: int, year: int): AdminCharge -> bool {
    (c: AdminCharge) => c.month == month && c.year == year
  }

  /** No two charges share a (month, year). */
  ghost predicate UniquePeriods(rows: map<int, AdminCharge>) {
    forall j, k :: j in rows && k in rows && rows[j].month == rows[k].month && rows[j].year == rows[k].year ==> j == k
  }

  /** ORDER BY year DESC, month DESC. */
  function ByPeriodDesc(): (Row<AdminCharge>, Row<AdminCharge>) -> bool {
    (a: Row<AdminCharge>, b: Row<AdminCharge>) =>
      a.rec.year > b.rec.year || (a.rec.year == b.rec.year && a.rec.month >= b.rec.month)
  }

  lemma ByPeriodDescIsPreorder()
    ensures TotalPreorder(ByPeriodDesc())
  {
  }

  /** GET /: staff only; every charge, latest month first. */
  function ListCharges(caller: Principal, charges: Table<AdminCharge>): (r: Response<seq<Row<AdminCharge>>>)
    reads charges
    requires charges.Valid()
    ensures r.Err? <==> !IsStaff(caller.role)
    ensures r.Err? ==> r == Err(403, InsufficientPermissions)
    ensures r.Ok? ==> r.status == 200 && Sorted(r.value, ByPeriodDesc())
    ensures r.Ok? ==> multiset(r.value) == multiset(charges.All())
    ensures r.Ok? ==> forall x :: x in r.value <==> x.id in charges.rows && x.rec == charges.rows[x.id]
  {
    StaffRolesAreStaff(caller);
    var gate := RequireRole(Some(caller), StaffRoles);
    if gate.Stop? then Err(gate.status, gate.message)
    else
      ByPeriodDescIsPreorder();
      var all := charges.All();
      assert forall x :: x in all ==> x.id in charges.rows && x.rec == charges.rows[x.id];
      Ok(200, SortBy(all, ByPeriodDesc()))
  }

  /** The body of POST /. */
  datatype NewCharge = NewCharge(month: Field<int>, year: Field<int>, amount: Field<real>)

  /** `isInt({ min: 1, max: 12 })`, `isInt({ min: 2020 })`, `isFloat({ min: 0 })`. */
  predicate ValidNewCharge(b: NewCharge) {
    b.month.Given? && 1 <= b.month.value <= 12
    && b.year.Given? && b.year.value >= 2020
    && RequiredAtLeast(b.amount, 0.0)
  }

  /** Some charge is recorded for that month. */
  predicate HasPeriod(rows: map<int, AdminCharge>, month: int, year: int) {
    exists k :: k in rows && rows[k].month == month && rows[k].year == year
  }

  /** POST /: 403, 400, 400 again when the month already has a charge, else
      a new charge. */
  method CreateCharge(caller: Principal, charges: Table<AdminCharge>, body: NewCharge) returns (r: Response<Row<AdminCharge>>)
    requires charges.Valid()
    modifies charges
    ensures charges.Valid()
    ensures !IsStaff(caller.role) ==> r == Err(403, InsufficientPermissions)
    ensures IsStaff(caller.role) && !ValidNewCharge(body) ==> r == Err(400, ValidationFailed)
    ensures (IsStaff(caller.role) && ValidNewCharge(body) && HasPeriod(old(charges.rows), body.month.value, body.year.value))
            ==> r == Err(400, AlreadyExists)
    ensures r.Ok? <==> IsStaff(caller.role) && ValidNewCharge(body) && !HasPeriod(old(charges.rows), body.month.value, body.year.value)
    ensures r.Ok? ==> r == Ok(201, Row(old(charges.nextId), AdminCharge(body.month.value, body.year.value, body.amount.value)))
    ensures r.Ok? ==> charges.rows == old(charges.rows)[r.value.id := r.value.rec] && charges.nextId == old(charges.nextId) + 1
    ensures r.Err? ==> charges.rows == old(charges.rows) && charges.nextId == old(charges.nextId)
    ensures old(UniquePeriods(charges.rows)) ==> UniquePeriods(charges.rows)
  {
    StaffRolesAreStaff(caller);
    var gate := RequireRole(Some(caller), StaffRoles);
    if gate.Stop? {
      return Err(gate.status, gate.message);
    }
    if !ValidNewCharge(body) {
      return Err(400, ValidationFailed);
    }
    var month, year := body.month.value, body.year.value;
    var existing := charges.FindOne(ForPeriod(month, year));
    if existing.Some? {
      return Err(400, AlreadyExists);
    }
    assert !HasPeriod(charges.rows, month, year) by {
      forall k | k in charges.rows ensures !(charges.rows[k].month == month && charges.rows[k].year == year) {
        assert !ForPeriod(month, year)(charges.rows[k]);
      }
    }
    var charge := AdminCharge(month, year, body.amount.value);
    var id := charges.Insert(charge);
    r := Ok(201, Row(id, charge));
  }

  /** PUT /:id: only the amount changes, so the month and year stay. */
  method UpdateCharge(caller: Principal, charges: Table<AdminCharge>, id: int, amount: Field<real>) returns (r: Response<Row<AdminCharge>>)
    requires charges.Valid()
    modifies charges
    ensures charges.Valid() && charges.nextId == old(charges.nextId)
    ensures !IsStaff(caller.role) ==> r == Err(403, InsufficientPermissions)
    ensures IsStaff(caller.role) && !RequiredAtLeast(amount, 0.0) ==> r == Err(400, ValidationFailed)
    ensures IsStaff(caller.role) && RequiredAtLeast(amount, 0.0) && id !in old(charges.rows) ==> r == Err(404, ChargeNotFound)
    ensures r.Ok? <==> IsStaff(caller.role) && RequiredAtLeast(amount, 0.0) && id in old(charges.rows)
    ensures r.Ok? ==> r == Ok(200, Row(id, old(charges.rows[id]).(amount := amount.value)))
    ensures r.Ok? ==> charges.rows == old(charges.rows)[id := r.value.rec]
    ensures r.Err? ==> charges.rows == old(charges.rows)
    ensures old(UniquePeriods(charges.rows)) ==> UniquePeriods(charges.rows)
  {
    StaffRolesAreStaff(caller);
    var gate := RequireRole(Some(caller), StaffRoles);
    if gate.Stop? {
      return Err(gate.status, gate.message);
    }
    if !RequiredAtLeast(amount, 0.0) {
      return Err(400, ValidationFailed);
    }
    if id !in charges.rows {
      return Err(404, ChargeNotFound);
    }
    var updated := charges.rows[id].(amount := amount.value);
    charges.Update(id, updated);
    r := Ok(200, Row(id, updated));
  }

  /** DELETE /:id: removes exactly that charge. */
  method DeleteCharge(caller: Principal, charges: Table<AdminCharge>, id: int) returns (r: Response<string>)
    requires charges.Valid()
    modifies charges
    ensures charges.Valid() && charges.nextId == old(charges.nextId)
    ensures !IsStaff(caller.role) ==> r == Err(403, InsufficientPermissions)
    ensures IsStaff(caller.role) && id !in old(charges.rows) ==> r == Err(404, ChargeNotFound)
    ensures r.Ok? <==> IsStaff(caller.role) && id in old(charges.rows)
    ensures r.Ok? ==> r == Ok(200, "Admin charge deleted successfully") && charges.rows == old(charges.rows) - {id}
    ensures r.Err? ==> charges.rows == old(charges.rows)
    ensures old(UniquePeriods(charges.rows)) ==> UniquePeriods(charges.rows)
  {
    StaffRolesAreStaff(caller);
    var gate := RequireRole(Some(caller), StaffRoles);
    if gate.Stop? {
      return Err(gate.status, gate.message);
    }
    if id !in charges.rows {
      return Err(404, ChargeNotFound);
    }
    charges.Destroy(id);
    r := Ok(200, "Admin charge deleted successfully");
  }

  /** Once the charge of a month is deleted no charge of that month is left,
      so creating one for it again succeeds. */
  lemma RecreateAfterDelete(rows: map<int, AdminCharge>, id: int)
    requires UniquePeriods(rows) && id in rows
    ensures !HasPeriod(rows - {id}, rows[id].month, rows[id].year)
  {
  }
}

/** The package routes: the sorted list of active packages, and the
    staff-only create, update and soft delete. */
module Packages {

  import opened Common
  import opened Sanitize
  import opened Text
  import opened Tables
  import opened Ordering
  import opened Records
  import opened Server

  const PackageNotFound: string := "Package not found"

  /** The `where: { isActive: true }` condition. */
  function IsActive(): Package -> bool {
    (p: Package) => p.isActive
  }

  /** ORDER BY name ASC. */
  function ByNameAsc(): (Row<Package>, Row<Package>) -> bool {
    (a: Row<Package>, b: Row<Package>) => StringLe(a.rec.name, b.rec.name)
  }

  lemma ByNameAscIsPreorder()
    ensures TotalPreorder(ByNameAsc())
  {
    forall a: Row<Package>, b: Row<Package> ensures ByNameAsc()(a, b) || ByNameAsc()(b, a) {
      StringLeTotal(a.rec.name, b.rec.name);
    }
    forall a: Row<Package>, b: Row<Package>, c: Row<Package> | ByNameAsc()(a, b) && ByNameAsc()(b, c)
      ensures ByNameAsc()(a, c)
    {
      StringLeTransitive(a.rec.name, b.rec.name, c.rec.name);
    }
  }

  /** Every stored price is at least 0, as the validators demand. */
  ghost predicate PricesNonNegative(packages: Table<Package>)
    reads packages
  {
    forall k :: k in packages.rows ==> packages.rows[k].price >= 0.0
  }

  /** GET /: the active packages, by name. */
  function ListPackages(packages: Table<Package>): (r: seq<Row<Package>>)
    reads packages
    requires packages.Valid()
    ensures Sorted(r, ByNameAsc())
    ensures multiset(r) == multiset(packages.Where(IsActive()))
    ensures forall x :: x in r <==> x.id in packages.rows && x.rec == packages.rows[x.id] && x.rec.isActive
  {
    ByNameAscIsPreorder();
    var active := packages.Where(IsActive());
    assert forall x :: x in active ==> x.id in packages.rows && x.rec == packages.rows[x.id] && x.rec.isActive;
    SortBy(active, ByNameAsc())
  }

  /** The body of POST /, its name as the client sent it. */
  datatype NewPackage = NewPackage(name: string, price: Field<real>)

  predicate ValidNewPackage(b: NewPackage) {
    NotEmpty(b.name) && RequiredAtLeast(b.price, 0.0)
  }

  /** POST /: staff only; a new package is active. */
  method CreatePackage(caller: Principal, packages: Table<Package>, body: NewPackage) returns (r: Response<Row<Package>>)
    requires packages.Valid()
    modifies packages
    ensures packages.Valid()
    ensures !IsStaff(caller.role) ==> r == Err(403, InsufficientPermissions)
    ensures IsStaff(caller.role) && !ValidNewPackage(body) ==> r == Err(400, ValidationFailed)
    ensures r.Ok? <==> IsStaff(caller.role) && ValidNewPackage(body)
    ensures r.Ok? ==> r.status == 201 && r.value == Row(old(packages.nextId), Package(Sanitized(body.name), body.price.value, true))
    ensures r.Ok? ==> packages.rows == old(packages.rows)[r.value.id := r.value.rec] && packages.nextId == old(packages.nextId) + 1
    ensures r.Err? ==> packages.rows == old(packages.rows) && packages.nextId == old(packages.nextId)
    ensures old(PricesNonNegative(packages)) ==> PricesNonNegative(packages)
  {
    StaffRolesAreStaff(caller);
    var gate := RequireRole(Some(caller), StaffRoles);
    if gate.Stop? {
      return Err(gate.status, gate.message);
    }
    if !ValidNewPackage(body) {
      return Err(400, ValidationFailed);
    }
    var p := Package(Sanitized(body.name), body.price.value, true);
    var id := packages.Insert(p);
    r := Ok(201, Row(id, p));
  }

  /** The body of PUT /:id: every field is optional. */
  datatype PackageChanges = PackageChanges(name: Option<string>, price: Field<real>, isActive: Field<bool>)

  predicate ValidPackageChanges(c: PackageChanges) {
    OptionalNotEmpty(c.name) && OptionalAtLeast(c.price, 0.0) && OptionalWellFormed(c.isActive)
  }

  /** `pkg.update(updates)`: the fields present overwrite the columns, the
      name with its sanitized text. */
  function ApplyPackageChanges(p: Package, c: PackageChanges): Package {
    Package(PatchText(SanitizedOption(c.name), p.name), Patch(c.price, p.price), Patch(c.isActive, p.isActive))
  }

  /** PUT /:id: staff only, 404 for an unknown id. */
  method UpdatePackage(caller: Principal, packages: Table<Package>, id: int, changes: PackageChanges) returns (r: Response<Row<Package>>)
    requires packages.Valid()
    modifies packages
    ensures packages.Valid() && packages.nextId == old(packages.nextId)
    ensures !IsStaff(caller.role) ==> r == Err(403, InsufficientPermissions)
    ensures IsStaff(caller.role) && !ValidPackageChanges(changes) ==> r == Err(400, ValidationFailed)
    ensures IsStaff(caller.role) && ValidPackageChanges(changes) && id !in old(packages.rows) ==> r == Err(404, PackageNotFound)
    ensures r.Ok? <==> IsStaff(caller.role) && ValidPackageChanges(changes) && id in old(packages.rows)
    ensures r.Ok? ==> r == Ok(200, Row(id, ApplyPackageChanges(old(packages.rows[id]), changes)))
    ensures r.Ok? ==> packages.rows == old(packages.rows)[id := r.value.rec]
    ensures r.Err? ==> packages.rows == old(packages.rows)
    ensures old(PricesNonNegative(packages)) ==> PricesNonNegative(packages)
  {
    StaffRolesAreStaff(caller);
    var gate := RequireRole(Some(caller), StaffRoles);
    if gate.Stop? {
      return Err(gate.status, gate.message);
    }
    if !ValidPackageChanges(changes) {
      return Err(400, ValidationFailed);
    }
    if id !in packages.rows {
      return Err(404, PackageNotFound);
    }
    var p := ApplyPackageChanges(packages.rows[id], changes);
    packages.Update(id, p);
    r := Ok(200, Row(id, p));
  }

  /** `pkg.update({ isActive: false })`. */
  function Deactivate(p: Package): (q: Package)
    ensures !q.isActive && q.name == p.name && q.price == p.price
  {
    p.(isActive := false)
  }

  /** DELETE /:id: staff only; a soft delete that keeps the row. */
  method DeletePackage(caller: Principal, packages: Table<Package>, id: int) returns (r: Response<string>)
    requires packages.Valid()
    modifies packages
    ensures packages.Valid() && packages.nextId == old(packages.nextId)
    ensures !IsStaff(caller.role) ==> r == Err(403, InsufficientPermissions)
    ensures IsStaff(caller.role) && id !in old(packages.rows) ==> r == Err(404, PackageNotFound)
    ensures r.Ok? <==> IsStaff(caller.role) && id in old(packages.rows)
    ensures r.Ok? ==> r == Ok(200, "Package deactivated successfully")
    ensures r.Ok? ==> packages.rows == old(packages.rows)[id := Deactivate(old(packages.rows[id]))]
    ensures r.Err? ==> packages.rows == old(packages.rows)
    ensures old(PricesNonNegative(packages)) ==> PricesNonNegative(packages)
  {
    StaffRolesAreStaff(caller);
    var gate := RequireRole(Some(caller), StaffRoles);
    if gate.Stop? {
      return Err(gate.status, gate.message);
    }
    if id !in packages.rows {
      return Err(404, PackageNotFound);
    }
    packages.Update(id, Deactivate(packages.rows[id]));
    r := Ok(200, "Package deactivated successfully");
  }

  /** Deleting a package twice leaves the same rows as deleting it once. */
  lemma DeleteIdempotent(rows: map<int, Package>, id: int)
    requires id in rows
    ensures var once := rows[id := Deactivate(rows[id])];
            once[id := Deactivate(once[id])] == once
  {
  }

  /** A deleted package keeps its row but leaves the list. */
  lemma DeletedNotListed(packages: Table<Package>, id: int)
    requires packages.Valid() && id in packages.rows && !packages.rows[id].isActive
    ensures forall x :: x in ListPackages(packages) ==> x.id != id
  {
  }
}

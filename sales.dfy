/** The sale routes under /employee/:employeeId: list, create, update and
    delete, each behind the ownership check. A sale's amount is the price
    of its package, which must be active. */
module Sales {

  import opened Common
  import opened Sanitize
  import opened Calendar
  import opened Tables
  import opened Ordering
  import opened Records
  import opened Access
  import Packages

  const EmployeeNotFound: string := "Employee not found"
  const PackageUnavailable: string := "Package not found or inactive"
  const SaleNotFound: string := "Sale not found"

  /** The `where: { employeeId }` condition. */
  function OfEmployee(employeeId: int): Sale -> bool {
    (s: Sale) => s.employeeId == employeeId
  }

  /** ORDER BY date DESC. */
  function ByDateDesc(): (Row<Sale>, Row<Sale>) -> bool {
    (a: Row<Sale>, b: Row<Sale>) => InstantLe(b.rec.date, a.rec.date)
  }

  lemma ByDateDescIsPreorder()
    ensures TotalPreorder(ByDateDesc())
  {
    forall a: Row<Sale>, b: Row<Sale> ensures ByDateDesc()(a, b) || ByDateDesc()(b, a) {
      InstantLeTotal(a.rec.date, b.rec.date);
    }
    forall a: Row<Sale>, b: Row<Sale>, c: Row<Sale> | ByDateDesc()(a, b) && ByDateDesc()(b, c)
      ensures ByDateDesc()(a, c)
    {
      InstantLeTransitive(c.rec.date, b.rec.date, a.rec.date);
    }
  }

  /** Every stored amount is at least 0. */
  ghost predicate AmountsNonNegative(sales: Table<Sale>)
    reads sales
  {
    forall k :: k in sales.rows ==> sales.rows[k].amount >= 0.0
  }

  /** GET /employee/:employeeId: that employee's sales, newest first. */
  function ListSales(caller: Principal, employees: Table<Employee>, sales: Table<Sale>, employeeId: int): (r: Response<seq<Row<Sale>>>)
    reads employees, sales
    requires employees.Valid() && sales.Valid()
    ensures r.Err? <==> !MayActFor(caller, employees, employeeId)
    ensures r.Err? ==> r == Err(403, AccessDenied)
    ensures r.Ok? ==> r.status == 200 && Sorted(r.value, ByDateDesc())
    ensures r.Ok? ==> multiset(r.value) == multiset(sales.Where(OfEmployee(employeeId)))
    ensures r.Ok? ==> forall x :: x in r.value <==> x.id in sales.rows && x.rec == sales.rows[x.id] && x.rec.employeeId == employeeId
  {
    if !MayActFor(caller, employees, employeeId) then Err(403, AccessDenied)
    else
      ByDateDescIsPreorder();
      var own := sales.Where(OfEmployee(employeeId));
      assert forall x :: x in own ==> x.id in sales.rows && x.rec == sales.rows[x.id] && x.rec.employeeId == employeeId;
      Ok(200, SortBy(own, ByDateDesc()))
  }

  /** The body of POST /employee/:employeeId, its text as the client sent it. */
  datatype NewSale = NewSale(packageId: Field<int>, clientName: string, description: Option<string>)

  /** `isInt({ min: 1 })` on packageId, `notEmpty()` on clientName. */
  predicate ValidNewSale(b: NewSale) {
    b.packageId.Given? && b.packageId.value >= 1 && NotEmpty(b.clientName)
  }

  /** `Package.findOne({ where: { id: packageId, isActive: true } })` finds a row. */
  predicate ActivePackage(packages: Table<Package>, id: int)
    reads packages
  {
    id in packages.rows && packages.rows[id].isActive
  }

  /** POST /employee/:employeeId: 400, 403, 404 for a missing employee, 404
      for a missing or inactive package, else a new sale priced by its
      package and dated `now`. */
  method CreateSale(caller: Principal, employees: Table<Employee>, packages: Table<Package>, sales: Table<Sale>,
                    employeeId: int, body: NewSale, now: Instant) returns (r: Response<Row<Sale>>)
    requires employees.Valid() && packages.Valid() && sales.Valid()
    modifies sales
    ensures sales.Valid()
    ensures !ValidNewSale(body) ==> r == Err(400, ValidationFailed)
    ensures ValidNewSale(body) && !MayActFor(caller, employees, employeeId) ==> r == Err(403, AccessDenied)
    ensures ValidNewSale(body) && MayActFor(caller, employees, employeeId) && employeeId !in employees.rows
            ==> r == Err(404, EmployeeNotFound)
    ensures (ValidNewSale(body) && MayActFor(caller, employees, employeeId) && employeeId in employees.rows
             && !ActivePackage(packages, body.packageId.value))
            ==> r == Err(404, PackageUnavailable)
    ensures r.Ok? <==> ValidNewSale(body) && MayActFor(caller, employees, employeeId) && employeeId in employees.rows
                       && ActivePackage(packages, body.packageId.value)
    ensures r.Ok? ==> r.status == 201 && r.value.id == old(sales.nextId)
    ensures r.Ok? ==> r.value.rec == Sale(employeeId, body.packageId.value, Sanitized(body.clientName),
                                         packages.rows[body.packageId.value].price, now, SanitizedOption(body.description))
    ensures r.Ok? ==> sales.rows == old(sales.rows)[r.value.id := r.value.rec] && sales.nextId == old(sales.nextId) + 1
    ensures r.Err? ==> sales.rows == old(sales.rows) && sales.nextId == old(sales.nextId)
    ensures old(AmountsNonNegative(sales)) && Packages.PricesNonNegative(packages) ==> AmountsNonNegative(sales)
  {
    if !ValidNewSale(body) {
      return Err(400, ValidationFailed);
    }
    if !MayActFor(caller, employees, employeeId) {
      return Err(403, AccessDenied);
    }
    if employeeId !in employees.rows {
      return Err(404, EmployeeNotFound);
    }
    var packageId := body.packageId.value;
    if !ActivePackage(packages, packageId) {
      return Err(404, PackageUnavailable);
    }
    var sale := Sale(employeeId, packageId, Sanitized(body.clientName), packages.rows[packageId].price, now,
                     SanitizedOption(body.description));
    var id := sales.Insert(sale);
    r := Ok(201, Row(id, sale));
  }

  /** The body of PUT /employee/:employeeId/sale/:saleId: every field is optional. */
  datatype SaleChanges = SaleChanges(clientName: Option<string>, amount: Field<real>, description: Option<string>)

  predicate ValidSaleChanges(c: SaleChanges) {
    OptionalNotEmpty(c.clientName) && OptionalAtLeast(c.amount, 0.0)
  }

  /** `sale.update(updates)`: the fields present overwrite the columns with
      their sanitized text; the employee, the package and the date stay. */
  function ApplySaleChanges(s: Sale, c: SaleChanges): (t: Sale)
    ensures t.employeeId == s.employeeId && t.packageId == s.packageId && t.date == s.date
    ensures t.clientName == PatchText(SanitizedOption(c.clientName), s.clientName)
    ensures t.amount == Patch(c.amount, s.amount)
    ensures t.description == PatchOptional(SanitizedOption(c.description), s.description)
  {
    s.(clientName := PatchText(SanitizedOption(c.clientName), s.clientName),
       amount := Patch(c.amount, s.amount),
       description := PatchOptional(SanitizedOption(c.description), s.description))
  }

  /** `Sale.findOne({ where: { id: saleId, employeeId } })` finds a row. */
  predicate SaleOf(sales: Table<Sale>, saleId: int, employeeId: int)
    reads sales
  {
    saleId in sales.rows && sales.rows[saleId].employeeId == employeeId
  }

  /** PUT /employee/:employeeId/sale/:saleId: only a sale with both that id
      and that employee changes. */
  method UpdateSale(caller: Principal, employees: Table<Employee>, sales: Table<Sale>,
                    employeeId: int, saleId: int, changes: SaleChanges) returns (r: Response<Row<Sale>>)
    requires employees.Valid() && sales.Valid()
    modifies sales
    ensures sales.Valid() && sales.nextId == old(sales.nextId)
    ensures !ValidSaleChanges(changes) ==> r == Err(400, ValidationFailed)
    ensures ValidSaleChanges(changes) && !MayActFor(caller, employees, employeeId) ==> r == Err(403, AccessDenied)
    ensures ValidSaleChanges(changes) && MayActFor(caller, employees, employeeId) && !old(SaleOf(sales, saleId, employeeId))
            ==> r == Err(404, SaleNotFound)
    ensures r.Ok? <==> ValidSaleChanges(changes) && MayActFor(caller, employees, employeeId) && old(SaleOf(sales, saleId, employeeId))
    ensures r.Ok? ==> r == Ok(200, Row(saleId, ApplySaleChanges(old(sales.rows[saleId]), changes)))
    ensures r.Ok? ==> sales.rows == old(sales.rows)[saleId := r.value.rec]
    ensures r.Err? ==> sales.rows == old(sales.rows)
    ensures old(AmountsNonNegative(sales)) ==> AmountsNonNegative(sales)
  {
    if !ValidSaleChanges(changes) {
      return Err(400, ValidationFailed);
    }
    if !MayActFor(caller, employees, employeeId) {
      return Err(403, AccessDenied);
    }
    if !SaleOf(sales, saleId, employeeId) {
      return Err(404, SaleNotFound);
    }
    var updated := ApplySaleChanges(sales.rows[saleId], changes);
    sales.Update(saleId, updated);
    r := Ok(200, Row(saleId, updated));
  }

  /** DELETE /employee/:employeeId/sale/:saleId: removes exactly that sale. */
  method DeleteSale(caller: Principal, employees: Table<Employee>, sales: Table<Sale>,
                    employeeId: int, saleId: int) returns (r: Response<string>)
    requires employees.Valid() && sales.Valid()
    modifies sales
    ensures sales.Valid() && sales.nextId == old(sales.nextId)
    ensures !MayActFor(caller, employees, employeeId) ==> r == Err(403, AccessDenied)
    ensures MayActFor(caller, employees, employeeId) && !old(SaleOf(sales, saleId, employeeId)) ==> r == Err(404, SaleNotFound)
    ensures r.Ok? <==> MayActFor(caller, employees, employeeId) && old(SaleOf(sales, saleId, employeeId))
    ensures r.Ok? ==> r == Ok(200, "Sale deleted successfully") && sales.rows == old(sales.rows) - {saleId}
    ensures r.Err? ==> sales.rows == old(sales.rows)
    ensures old(AmountsNonNegative(sales)) ==> AmountsNonNegative(sales)
  {
    if !MayActFor(caller, employees, employeeId) {
      return Err(403, AccessDenied);
    }
    if !SaleOf(sales, saleId, employeeId) {
      return Err(404, SaleNotFound);
    }
    sales.Destroy(saleId);
    r := Ok(200, "Sale deleted successfully");
  }
}

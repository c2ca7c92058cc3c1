/** The receipt routes under /employee/:employeeId: list, create, update and
    delete, behind the same ownership check as the sale routes. A receipt's
    amount is the one the client sent. */
module Receipts {

  import opened Common
  import opened Sanitize
  import opened Calendar
  import opened Tables
  import opened Ordering
  import opened Records
  import opened Access

  const EmployeeNotFound: string := "Employee not found"
  const ReceiptNotFound: string := "Receipt not found"

  /** The `where: { employeeId }` condition. */
  function OfEmployee(employeeId: int): Receipt -> bool {
    (x: Receipt) => x.employeeId == employeeId
  }

  /** ORDER BY date DESC. */
  function ByDateDesc(): (Row<Receipt>, Row<Receipt>) -> bool {
    (a: Row<Receipt>, b: Row<Receipt>) => InstantLe(b.rec.date, a.rec.date)
  }

  lemma ByDateDescIsPreorder()
    ensures TotalPreorder(ByDateDesc())
  {
    forall a: Row<Receipt>, b: Row<Receipt> ensures ByDateDesc()(a, b) || ByDateDesc()(b, a) {
      InstantLeTotal(a.rec.date, b.rec.date);
    }
    forall a: Row<Receipt>, b: Row<Receipt>, c: Row<Receipt> | ByDateDesc()(a, b) && ByDateDesc()(b, c)
      ensures ByDateDesc()(a, c)
    {
      InstantLeTransitive(c.rec.date, b.rec.date, a.rec.date);
    }
  }

  /** Every stored amount is at least 0. */
  ghost predicate AmountsNonNegative(receipts: Table<Receipt>)
    reads receipts
  {
    forall k :: k in receipts.rows ==> receipts.rows[k].amount >= 0.0
  }

  /** GET /employee/:employeeId: that employee's receipts, newest first. */
  function ListReceipts(caller: Principal, employees: Table<Employee>, receipts: Table<Receipt>, employeeId: int): (r: Response<seq<Row<Receipt>>>)
    reads employees, receipts
    requires employees.Valid() && receipts.Valid()
    ensures r.Err? <==> !MayActFor(caller, employees, employeeId)
    ensures r.Err? ==> r == Err(403, AccessDenied)
    ensures r.Ok? ==> r.status == 200 && Sorted(r.value, ByDateDesc())
    ensures r.Ok? ==> multiset(r.value) == multiset(receipts.Where(OfEmployee(employeeId)))
    ensures r.Ok? ==> forall x :: x in r.value <==> x.id in receipts.rows && x.rec == receipts.rows[x.id] && x.rec.employeeId == employeeId
  {
    if !MayActFor(caller, employees, employeeId) then Err(403, AccessDenied)
    else
      ByDateDescIsPreorder();
      var own := receipts.Where(OfEmployee(employeeId));
      assert forall x :: x in own ==> x.id in receipts.rows && x.rec == receipts.rows[x.id] && x.rec.employeeId == employeeId;
      Ok(200, SortBy(own, ByDateDesc()))
  }

  /** The body of POST /employee/:employeeId, its text as the client sent it. */
  datatype NewReceipt = NewReceipt(clientName: string, amount: Field<real>, description: Option<string>)

  /** `notEmpty()` on clientName, `isFloat({ min: 0 })` on amount. */
  predicate ValidNewReceipt(b: NewReceipt) {
    NotEmpty(b.clientName) && RequiredAtLeast(b.amount, 0.0)
  }

  /** POST /employee/:employeeId: 400, 403, 404 for a missing employee,
      else a new receipt with the amount sent, dated `now`. */
  method CreateReceipt(caller: Principal, employees: Table<Employee>, receipts: Table<Receipt>,
                       employeeId: int, body: NewReceipt, now: Instant) returns (r: Response<Row<Receipt>>)
    requires employees.Valid() && receipts.Valid()
    modifies receipts
    ensures receipts.Valid()
    ensures !ValidNewReceipt(body) ==> r == Err(400, ValidationFailed)
    ensures ValidNewReceipt(body) && !MayActFor(caller, employees, employeeId) ==> r == Err(403, AccessDenied)
    ensures ValidNewReceipt(body) && MayActFor(caller, employees, employeeId) && employeeId !in employees.rows
            ==> r == Err(404, EmployeeNotFound)
    ensures r.Ok? <==> ValidNewReceipt(body) && MayActFor(caller, employees, employeeId) && employeeId in employees.rows
    ensures r.Ok? ==> r.status == 201 && r.value.id == old(receipts.nextId)
    ensures r.Ok? ==> r.value.rec == Receipt(employeeId, Sanitized(body.clientName), body.amount.value, now,
                                            SanitizedOption(body.description))
    ensures r.Ok? ==> receipts.rows == old(receipts.rows)[r.value.id := r.value.rec] && receipts.nextId == old(receipts.nextId) + 1
    ensures r.Err? ==> receipts.rows == old(receipts.rows) && receipts.nextId == old(receipts.nextId)
    ensures old(AmountsNonNegative(receipts)) ==> AmountsNonNegative(receipts)
  {
    if !ValidNewReceipt(body) {
      return Err(400, ValidationFailed);
    }
    if !MayActFor(caller, employees, employeeId) {
      return Err(403, AccessDenied);
    }
    if employeeId !in employees.rows {
      return Err(404, EmployeeNotFound);
    }
    var receipt := Receipt(employeeId, Sanitized(body.clientName), body.amount.value, now, SanitizedOption(body.description));
    var id := receipts.Insert(receipt);
    r := Ok(201, Row(id, receipt));
  }

  /** The body of PUT /employee/:employeeId/receipt/:receiptId: every field is optional. */
  datatype ReceiptChanges = ReceiptChanges(clientName: Option<string>, amount: Field<real>, description: Option<string>)

  predicate ValidReceiptChanges(c: ReceiptChanges) {
    OptionalNotEmpty(c.clientName) && OptionalAtLeast(c.amount, 0.0)
  }

  /** `receipt.update(updates)`: the fields present overwrite the columns
      with their sanitized text; the employee and the date stay. */
  function ApplyReceiptChanges(x: Receipt, c: ReceiptChanges): (y: Receipt)
    ensures y.employeeId == x.employeeId && y.date == x.date
    ensures y.clientName == PatchText(SanitizedOption(c.clientName), x.clientName)
    ensures y.amount == Patch(c.amount, x.amount)
    ensures y.description == PatchOptional(SanitizedOption(c.description), x.description)
  {
    x.(clientName := PatchText(SanitizedOption(c.clientName), x.clientName),
       amount := Patch(c.amount, x.amount),
       description := PatchOptional(SanitizedOption(c.description), x.description))
  }

  /** `Receipt.findOne({ where: { id: receiptId, employeeId } })` finds a row. */
  predicate ReceiptOf(receipts: Table<Receipt>, receiptId: int, employeeId: int)
    reads receipts
  {
    receiptId in receipts.rows && receipts.rows[receiptId].employeeId == employeeId
  }

  /** PUT /employee/:employeeId/receipt/:receiptId: only a receipt with both
      that id and that employee changes. */
  method UpdateReceipt(caller: Principal, employees: Table<Employee>, receipts: Table<Receipt>,
                       employeeId: int, receiptId: int, changes: ReceiptChanges) returns (r: Response<Row<Receipt>>)
    requires employees.Valid() && receipts.Valid()
    modifies receipts
    ensures receipts.Valid() && receipts.nextId == old(receipts.nextId)
    ensures !ValidReceiptChanges(changes) ==> r == Err(400, ValidationFailed)
    ensures ValidReceiptChanges(changes) && !MayActFor(caller, employees, employeeId) ==> r == Err(403, AccessDenied)
    ensures (ValidReceiptChanges(changes) && MayActFor(caller, employees, employeeId)
             && !old(ReceiptOf(receipts, receiptId, employeeId)))
            ==> r == Err(404, ReceiptNotFound)
    ensures r.Ok? <==> ValidReceiptChanges(changes) && MayActFor(caller, employees, employeeId)
                       && old(ReceiptOf(receipts, receiptId, employeeId))
    ensures r.Ok? ==> r == Ok(200, Row(receiptId, ApplyReceiptChanges(old(receipts.rows[receiptId]), changes)))
    ensures r.Ok? ==> receipts.rows == old(receipts.rows)[receiptId := r.value.rec]
    ensures r.Err? ==> receipts.rows == old(receipts.rows)
    ensures old(AmountsNonNegative(receipts)) ==> AmountsNonNegative(receipts)
  {
    if !ValidReceiptChanges(changes) {
      return Err(400, ValidationFailed);
    }
    if !MayActFor(caller, employees, employeeId) {
      return Err(403, AccessDenied);
    }
    if !ReceiptOf(receipts, receiptId, employeeId) {
      return Err(404, ReceiptNotFound);
    }
    var updated := ApplyReceiptChanges(receipts.rows[receiptId], changes);
    receipts.Update(receiptId, updated);
    r := Ok(200, Row(receiptId, updated));
  }

  /** DELETE /employee/:employeeId/receipt/:receiptId: removes exactly that receipt. */
  method DeleteReceipt(caller: Principal, employees: Table<Employee>, receipts: Table<Receipt>,
                       employeeId: int, receiptId: int) returns (r: Response<string>)
    requires employees.Valid() && receipts.Valid()
    modifies receipts
    ensures receipts.Valid() && receipts.nextId == old(receipts.nextId)
    ensures !MayActFor(caller, employees, employeeId) ==> r == Err(403, AccessDenied)
    ensures MayActFor(caller, employees, employeeId) && !old(ReceiptOf(receipts, receiptId, employeeId))
            ==> r == Err(404, ReceiptNotFound)
    ensures r.Ok? <==> MayActFor(caller, employees, employeeId) && old(ReceiptOf(receipts, receiptId, employeeId))
    ensures r.Ok? ==> r == Ok(200, "Receipt deleted successfully") && receipts.rows == old(receipts.rows) - {receiptId}
    ensures r.Err? ==> receipts.rows == old(receipts.rows)
    ensures old(AmountsNonNegative(receipts)) ==> AmountsNonNegative(receipts)
  {
    if !MayActFor(caller, employees, employeeId) {
      return Err(403, AccessDenied);
    }
    if !ReceiptOf(receipts, receiptId, employeeId) {
      return Err(404, ReceiptNotFound);
    }
    receipts.Destroy(receiptId);
    r := Ok(200, "Receipt deleted successfully");
  }
}

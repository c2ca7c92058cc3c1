/** The salary routes: POST /generate computes, for every employee, what
    their receipts and sales dated inside the period add up to, takes their
    deduction percentage off and stores one salary per employee; GET
    /employee/:employeeId lists an employee's salaries behind the ownership
    check. The admin charge the generator looks up for the period is never
    used, so it is not an input here. */
module Salaries {

  import opened Common
  import opened Calendar
  import opened Tables
  import opened Ordering
  import opened Records
  import opened Access
  import opened Server

  /** The receipt condition: that employee, dated inside [start, end]. */
  function ReceiptIn(employeeId: int, start: Instant, end: Instant): Receipt -> bool {
    (x: Receipt) => x.employeeId == employeeId && Between(x.date, start, end)
  }

  /** The sale condition: that employee, dated inside [start, end]. */
  function SaleIn(employeeId: int, start: Instant, end: Instant): Sale -> bool {
    (x: Sale) => x.employeeId == employeeId && Between(x.date, start, end)
  }

  function ReceiptAmount(): Receipt -> real {
    (x: Receipt) => x.amount
  }

  function SaleAmount(): Sale -> real {
    (x: Sale) => x.amount
  }

  /** `totalReceipts + totalSales` for one employee and period. */
  function PeriodTotal(employeeId: int, receipts: seq<Row<Receipt>>, sales: seq<Row<Sale>>, start: Instant, end: Instant): real {
    Sum(Filter(receipts, ReceiptIn(employeeId, start, end)), ReceiptAmount())
    + Sum(Filter(sales, SaleIn(employeeId, start, end)), SaleAmount())
  }

  /** `Math.max(0, x)`. */
  function Max0(x: real): (r: real)
    ensures r >= 0.0 && r >= x
    ensures r == x || r == 0.0
  {
    if x < 0.0 then 0.0 else x
  }

  /** `Math.max(0, base - base * (percentage / 100))`. */
  function NetOfDeduction(base: real, percentage: real): (t: real)
    ensures t >= 0.0
  {
    Max0(base - base * (percentage / 100.0))
  }

  /** With a percentage in [0, 100] and a non-negative base the net lies
      between 0 and the base, and 0 percent keeps the whole base. */
  lemma NetOfDeductionBounds(base: real, percentage: real)
    requires 0.0 <= percentage <= 100.0 && 0.0 <= base
    ensures 0.0 <= NetOfDeduction(base, percentage) <= base
    ensures percentage == 0.0 ==> NetOfDeduction(base, percentage) == base
  {
    var q := percentage / 100.0;
    assert 0.0 <= q <= 1.0;
    assert 0.0 <= base * q <= base;
  }

  /** The salary record generated for one employee: the period total as
      base, the base less `deductionPercentage` percent of it (never below
      0) as total, the percentage and the period copied. */
  function SalaryFor(e: Row<Employee>, receipts: seq<Row<Receipt>>, sales: seq<Row<Sale>>, start: Instant, end: Instant): (s: Salary)
    ensures s.employeeId == e.id && s.commissionPercentage == e.rec.deductionPercentage
    ensures s.periodStart == start && s.periodEnd == end
    ensures s.baseSalary == PeriodTotal(e.id, receipts, sales, start, end)
    ensures s.totalSalary == NetOfDeduction(s.baseSalary, e.rec.deductionPercentage)
  {
    var base := PeriodTotal(e.id, receipts, sales, start, end);
    Salary(e.id, base, e.rec.deductionPercentage, NetOfDeduction(base, e.rec.deductionPercentage), start, end)
  }

  /** Every amount in a query result is at least 0. */
  predicate ReceiptAmountsNonNegative(receipts: seq<Row<Receipt>>) {
    forall x :: x in receipts ==> x.rec.amount >= 0.0
  }

  predicate SaleAmountsNonNegative(sales: seq<Row<Sale>>) {
    forall x :: x in sales ==> x.rec.amount >= 0.0
  }

  /** The period total of non-negative amounts is non-negative. */
  lemma PeriodTotalNonNegative(employeeId: int, receipts: seq<Row<Receipt>>, sales: seq<Row<Sale>>, start: Instant, end: Instant)
    requires ReceiptAmountsNonNegative(receipts) && SaleAmountsNonNegative(sales)
    ensures PeriodTotal(employeeId, receipts, sales, start, end) >= 0.0
  {
    FilterMembers(receipts, ReceiptIn(employeeId, start, end));
    FilterMembers(sales, SaleIn(employeeId, start, end));
    SumNonNegative(Filter(receipts, ReceiptIn(employeeId, start, end)), ReceiptAmount());
    SumNonNegative(Filter(sales, SaleIn(employeeId, start, end)), SaleAmount());
  }

  /** With a percentage in [0, 100] (what both user routes validate) and
      non-negative amounts, 0 <= totalSalary <= baseSalary; with 0 percent
      the total is the base. */
  lemma SalaryBounds(e: Row<Employee>, receipts: seq<Row<Receipt>>, sales: seq<Row<Sale>>, start: Instant, end: Instant)
    requires 0.0 <= e.rec.deductionPercentage <= 100.0
    requires ReceiptAmountsNonNegative(receipts) && SaleAmountsNonNegative(sales)
    ensures var s := SalaryFor(e, receipts, sales, start, end);
            0.0 <= s.totalSalary <= s.baseSalary
            && (e.rec.deductionPercentage == 0.0 ==> s.totalSalary == s.baseSalary)
  {
    PeriodTotalNonNegative(e.id, receipts, sales, start, end);
    NetOfDeductionBounds(PeriodTotal(e.id, receipts, sales, start, end), e.rec.deductionPercentage);
  }

  /** Appending rows the condition rejects leaves a filter unchanged. */
  lemma FilterIgnoresRejected<R>(s: seq<Row<R>>, more: seq<Row<R>>, p: R -> bool)
    requires forall x :: x in more ==> !p(x.rec)
    ensures Filter(s + more, p) == Filter(s, p)
  {
    FilterAppend(s, more, p);
    FilterNone(more, p);
    assert Filter(s, p) + [] == Filter(s, p);
  }

  /** Records that are not this employee's, or are dated outside the
      period, do not change what is generated for them. */
  lemma OtherRecordsIgnored(e: Row<Employee>, receipts: seq<Row<Receipt>>, moreReceipts: seq<Row<Receipt>>,
                            sales: seq<Row<Sale>>, moreSales: seq<Row<Sale>>, start: Instant, end: Instant)
    requires forall x :: x in moreReceipts ==> !ReceiptIn(e.id, start, end)(x.rec)
    requires forall x :: x in moreSales ==> !SaleIn(e.id, start, end)(x.rec)
    ensures SalaryFor(e, receipts + moreReceipts, sales + moreSales, start, end) == SalaryFor(e, receipts, sales, start, end)
  {
    FilterIgnoresRejected(receipts, moreReceipts, ReceiptIn(e.id, start, end));
    FilterIgnoresRejected(sales, moreSales, SaleIn(e.id, start, end));
    SalaryForDependsOnTotal(e, receipts + moreReceipts, sales + moreSales, receipts, sales, start, end);
  }

  /** The salary record depends on the records only through the period total. */
  lemma SalaryForDependsOnTotal(e: Row<Employee>, r1: seq<Row<Receipt>>, s1: seq<Row<Sale>>,
                                r2: seq<Row<Receipt>>, s2: seq<Row<Sale>>, start: Instant, end: Instant)
    requires Filter(r1, ReceiptIn(e.id, start, end)) == Filter(r2, ReceiptIn(e.id, start, end))
    requires Filter(s1, SaleIn(e.id, start, end)) == Filter(s2, SaleIn(e.id, start, end))
    ensures SalaryFor(e, r1, s1, start, end) == SalaryFor(e, r2, s2, start, end)
  {
    assert PeriodTotal(e.id, r1, s1, start, end) == PeriodTotal(e.id, r2, s2, start, end);
  }

  /** BETWEEN is inclusive: a receipt of the employee dated inside the
      period, its ends included, adds exactly its amount to the base. */
  lemma InPeriodReceiptCounts(e: Row<Employee>, receipts: seq<Row<Receipt>>, x: Row<Receipt>, sales: seq<Row<Sale>>, start: Instant, end: Instant)
    requires x.rec.employeeId == e.id && (x.rec.date == start || x.rec.date == end || Between(x.rec.date, start, end))
    requires InstantLe(start, end)
    ensures SalaryFor(e, receipts + [x], sales, start, end).baseSalary == SalaryFor(e, receipts, sales, start, end).baseSalary + x.rec.amount
  {
    var p := ReceiptIn(e.id, start, end);
    assert Between(x.rec.date, start, end) by {
      InstantLeReflexive(x.rec.date);
    }
    FilterAppend(receipts, [x], p);
    assert Filter([x], p) == [x];
    SumAppend(Filter(receipts, p), [x], ReceiptAmount());
    assert [x][..0] == [];
  }

  /** A period sent as plain dates compares as midnight instants, so BETWEEN
      stops at the start of the last day: a receipt later that day does not
      count towards the salary. */
  lemma DateOnlyEndDropsLastDay(e: Row<Employee>, receipts: seq<Row<Receipt>>, x: Row<Receipt>,
                                sales: seq<Row<Sale>>, start: Instant, d: Date)
    requires x.rec.date.date == d && x.rec.date.ms > 0
    ensures SalaryFor(e, receipts + [x], sales, start, Midnight(d)) == SalaryFor(e, receipts, sales, start, Midnight(d))
  {
    assert !ReceiptIn(e.id, start, Midnight(d))(x.rec);
    assert forall y :: y in [x] ==> y == x;
    OtherRecordsIgnored(e, receipts, [x], sales, [], start, Midnight(d));
    assert sales + [] == sales;
  }

  /** The body of POST /generate: two ISO 8601 values; a plain date is its
      local midnight. */
  datatype Period = Period(periodStart: Field<Instant>, periodEnd: Field<Instant>)

  predicate ValidPeriod(b: Period) {
    b.periodStart.Given? && b.periodEnd.Given?
  }

  /** Every stored total is at least 0. */
  ghost predicate TotalsNonNegative(salaries: Table<Salary>)
    reads salaries
  {
    forall k :: k in salaries.rows ==> salaries.rows[k].totalSalary >= 0.0
  }

  /** The salary records for a list of employees, one each, in order. */
  function Payroll(staff: seq<Row<Employee>>, receipts: seq<Row<Receipt>>, sales: seq<Row<Sale>>, start: Instant, end: Instant): (slips: seq<Salary>)
    ensures |slips| == |staff|
    ensures forall j :: 0 <= j < |staff| ==> slips[j] == SalaryFor(staff[j], receipts, sales, start, end)
    ensures forall j :: 0 <= j < |staff| ==> slips[j].totalSalary >= 0.0
  {
    seq(|staff|, j requires 0 <= j < |staff| => SalaryFor(staff[j], receipts, sales, start, end))
  }

  /** The loop of POST /generate: `Salary.create` each record in turn and
      push the new row onto `generatedSalaries`. */
  method StoreSalaries(salaries: Table<Salary>, slips: seq<Salary>) returns (generated: seq<Row<Salary>>)
    requires salaries.Valid()
    modifies salaries
    ensures salaries.Valid() && salaries.nextId == old(salaries.nextId) + |slips|
    ensures |generated| == |slips|
    ensures forall j :: 0 <= j < |slips| ==> generated[j] == Row(old(salaries.nextId) + j, slips[j])
    ensures salaries.rows == WithRows(old(salaries.rows), generated)
    ensures old(TotalsNonNegative(salaries)) && (forall j :: 0 <= j < |slips| ==> slips[j].totalSalary >= 0.0)
            ==> TotalsNonNegative(salaries)
  {
    generated := [];
    var i := 0;
    while i < |slips|
      invariant 0 <= i <= |slips| && |generated| == i
      invariant salaries.Valid() && salaries.nextId == old(salaries.nextId) + i
      invariant forall j :: 0 <= j < i ==> generated[j] == Row(old(salaries.nextId) + j, slips[j])
      invariant salaries.rows == WithRows(old(salaries.rows), generated)
      invariant old(TotalsNonNegative(salaries)) && (forall j :: 0 <= j < |slips| ==> slips[j].totalSalary >= 0.0)
                ==> TotalsNonNegative(salaries)
    {
      var id := salaries.Insert(slips[i]);
      var before := generated;
      generated := generated + [Row(id, slips[i])];
      assert generated[..|generated| - 1] == before;
      i := i + 1;
    }
  }

  /** POST /generate: staff only; for each employee in primary-key order,
      insert SalaryFor(employee) and collect the new row. */
  method GenerateSalaries(caller: Principal, employees: Table<Employee>, receipts: Table<Receipt>, sales: Table<Sale>,
                          salaries: Table<Salary>, body: Period) returns (r: Response<seq<Row<Salary>>>)
    requires employees.Valid() && receipts.Valid() && sales.Valid() && salaries.Valid()
    modifies salaries
    ensures salaries.Valid()
    ensures !IsStaff(caller.role) ==> r == Err(403, InsufficientPermissions)
    ensures IsStaff(caller.role) && !ValidPeriod(body) ==> r == Err(400, ValidationFailed)
    ensures r.Ok? <==> IsStaff(caller.role) && ValidPeriod(body)
    ensures r.Ok? ==> r.status == 201 && |r.value| == |employees.All()|
    ensures r.Ok? ==> forall i :: 0 <= i < |r.value| ==>
                        r.value[i] == Row(old(salaries.nextId) + i,
                                          SalaryFor(employees.All()[i], receipts.All(), sales.All(),
                                                    body.periodStart.value, body.periodEnd.value))
    ensures r.Ok? ==> salaries.rows == WithRows(old(salaries.rows), r.value)
                      && salaries.nextId == old(salaries.nextId) + |r.value|
    ensures r.Err? ==> salaries.rows == old(salaries.rows) && salaries.nextId == old(salaries.nextId)
    ensures old(TotalsNonNegative(salaries)) ==> TotalsNonNegative(salaries)
  {
    StaffRolesAreStaff(caller);
    var gate := RequireRole(Some(caller), StaffRoles);
    if gate.Stop? {
      return Err(gate.status, gate.message);
    }
    if !ValidPeriod(body) {
      return Err(400, ValidationFailed);
    }
    var start, end := body.periodStart.value, body.periodEnd.value;
    var staff := employees.All();
    var allReceipts := receipts.All();
    var allSales := sales.All();
    var generated := StoreSalaries(salaries, Payroll(staff, allReceipts, allSales, start, end));
    r := Ok(201, generated);
  }

  /** The `where: { employeeId }` condition on salaries. */
  function OfEmployee(employeeId: int): Salary -> bool {
    (s: Salary) => s.employeeId == employeeId
  }

  /** ORDER BY periodEnd DESC. */
  function ByPeriodEndDesc(): (Row<Salary>, Row<Salary>) -> bool {
    (a: Row<Salary>, b: Row<Salary>) => InstantLe(b.rec.periodEnd, a.rec.periodEnd)
  }

  lemma ByPeriodEndDescIsPreorder()
    ensures TotalPreorder(ByPeriodEndDesc())
  {
    forall a: Row<Salary>, b: Row<Salary> ensures ByPeriodEndDesc()(a, b) || ByPeriodEndDesc()(b, a) {
      InstantLeTotal(a.rec.periodEnd, b.rec.periodEnd);
    }
    forall a: Row<Salary>, b: Row<Salary>, c: Row<Salary> | ByPeriodEndDesc()(a, b) && ByPeriodEndDesc()(b, c)
      ensures ByPeriodEndDesc()(a, c)
    {
      InstantLeTransitive(c.rec.periodEnd, b.rec.periodEnd, a.rec.periodEnd);
    }
  }

  /** GET /employee/:employeeId: that employee's salaries, latest period first. */
  function ListSalaries(caller: Principal, employees: Table<Employee>, salaries: Table<Salary>, employeeId: int): (r: Response<seq<Row<Salary>>>)
    reads employees, salaries
    requires employees.Valid() && salaries.Valid()
    ensures r.Err? <==> !MayActFor(caller, employees, employeeId)
    ensures r.Err? ==> r == Err(403, AccessDenied)
    ensures r.Ok? ==> r.status == 200 && Sorted(r.value, ByPeriodEndDesc())
    ensures r.Ok? ==> multiset(r.value) == multiset(salaries.Where(OfEmployee(employeeId)))
    ensures r.Ok? ==> forall x :: x in r.value <==> x.id in salaries.rows && x.rec == salaries.rows[x.id] && x.rec.employeeId == employeeId
  {
    if !MayActFor(caller, employees, employeeId) then Err(403, AccessDenied)
    else
      ByPeriodEndDescIsPreorder();
      var own := salaries.Where(OfEmployee(employeeId));
      assert forall x :: x in own ==> x.id in salaries.rows && x.rec == salaries.rows[x.id] && x.rec.employeeId == employeeId;
      Ok(200, SortBy(own, ByPeriodEndDesc()))
  }
}

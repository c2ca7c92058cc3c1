/** The analytics routes, staff only. GET /dashboard totals the current
    month's sales, receipts, expenses and salaries, subtracts them and the
    month's admin charge into a net profit, and ranks the top five employees
    and packages; GET /revenue lists, month by month up to the current one,
    the three monthly totals. The current time is a parameter. */
module Analytics {

  import opened Common
  import opened Calendar
  import opened Text
  import opened Tables
  import opened Ordering
  import opened Records
  import opened Server
  import Salaries
  import AdminCharges

  /** The `[Op.between]: [lo, hi]` bounds of a month. */
  datatype Window = Window(lo: Instant, hi: Instant)

  predicate InWindow(t: Instant, w: Window) {
    Between(t, w.lo, w.hi)
  }

  /** The window as the routes build it: `new Date(y, m - 1, 1)` to
      `new Date(y, m, 0)`, both at local midnight. */
  function MonthWindowAsWritten(y: int, m: int): Window
    requires 1 <= m <= 12
  {
    Window(Midnight(StartOfMonth(y, m)), Midnight(EndOfMonth(y, m)))
  }

  /** What the bounds select: the instants of the month up to midnight at
      the start of its last day, so any time later on that day is lost. */
  lemma AsWrittenWindowMisses(y: int, m: int, t: Instant)
    requires 1 <= m <= 12 && ValidInstant(t)
    ensures InWindow(t, MonthWindowAsWritten(y, m)) <==>
              t.date.year == y && t.date.month == m && (t.date.day < DaysInMonth(y, m) || t.ms == 0)
  {
  }

  /** A sale at noon on 31 January 2024 is not counted in January. */
  lemma AsWrittenWindowCounterexample()
    ensures var t := Instant(Date(2024, 1, 31), 12 * 3_600_000);
            ValidInstant(t) && !InWindow(t, MonthWindowAsWritten(2024, 1))
  {
    assert EndOfMonth(2024, 1) == Date(2024, 1, 31);
  }

  /** The month as intended: from midnight of its first day to the last
      millisecond of its last day. */
  function MonthWindow(y: int, m: int): Window
    requires 1 <= m <= 12
  {
    Window(Instant(Date(y, m, 1), 0), Instant(Date(y, m, DaysInMonth(y, m)), MsPerDay - 1))
  }

  /** The corrected window keeps the as-written start and the as-written
      last day, and only moves the end to the last millisecond of that day. */
  lemma MonthWindowFixesEnd(y: int, m: int)
    requires 1 <= m <= 12
    ensures MonthWindow(y, m).lo == MonthWindowAsWritten(y, m).lo
    ensures MonthWindow(y, m).hi == MonthWindowAsWritten(y, m).hi.(ms := MsPerDay - 1)
  {
  }

  /** A valid instant lies in the corrected window iff it falls in that
      calendar month, whatever the month's length. */
  lemma MonthWindowExact(y: int, m: int, t: Instant)
    requires 1 <= m <= 12 && ValidInstant(t)
    ensures InWindow(t, MonthWindow(y, m)) <==> t.date.year == y && t.date.month == m
  {
  }

  /** `Model.sum(attribute, { where })`: SQL SUM, which is NULL over no rows. */
  function SqlSum<R>(s: seq<Row<R>>, amount: R -> real): (r: Option<real>)
    ensures r.None? <==> s == []
    ensures r.Some? ==> r.value == Sum(s, amount)
  {
    if s == [] then None else Some(Sum(s, amount))
  }

  /** `x || 0`: NULL, and 0 itself, read as 0. */
  function OrZero(x: Option<real>): (r: real)
    ensures x.None? ==> r == 0.0
    ensures x.Some? ==> r == x.value
  {
    if x.Some? && x.value != 0.0 then x.value else 0.0
  }

  /** `await Model.sum(...) || 0` is the plain sum, 0 over no rows. */
  function MonthSum<R>(s: seq<Row<R>>, p: R -> bool, amount: R -> real): (r: real)
    ensures r == Sum(Filter(s, p), amount)
    ensures Filter(s, p) == [] ==> r == 0.0
  {
    OrZero(SqlSum(Filter(s, p), amount))
  }

  function SaleDated(w: Window): Sale -> bool {
    (x: Sale) => InWindow(x.date, w)
  }

  function ReceiptDated(w: Window): Receipt -> bool {
    (x: Receipt) => InWindow(x.date, w)
  }

  function ExpenseDated(w: Window): Expense -> bool {
    (x: Expense) => InWindow(x.date, w)
  }

  /** Salaries are selected by the start of their period. */
  function SalaryStarting(w: Window): Salary -> bool {
    (x: Salary) => InWindow(x.periodStart, w)
  }

  function ExpenseAmount(): Expense -> real {
    (x: Expense) => x.amount
  }

  function SalaryTotal(): Salary -> real {
    (x: Salary) => x.totalSalary
  }

  /** The `currentMonth` part of the dashboard. */
  datatype MonthTotals = MonthTotals(
    totalSales: real,
    totalReceipts: real,
    totalExpenses: real,
    totalSalaries: real,
    totalAdminCharges: real,
    netProfit: real)

  /** `adminCharge ? adminCharge.amount : 0`. */
  function ChargeAmount(charge: Option<Row<AdminCharge>>): (r: real)
    ensures charge.None? ==> r == 0.0
    ensures charge.Some? ==> r == charge.value.rec.amount
  {
    if charge.Some? then charge.value.rec.amount else 0.0
  }

  /** The month totals over query snapshots; `charge` is the month's admin
      charge row, if any. */
  function Totals(sales: seq<Row<Sale>>, receipts: seq<Row<Receipt>>, expenses: seq<Row<Expense>>,
                  salaries: seq<Row<Salary>>, charge: Option<Row<AdminCharge>>, w: Window): (t: MonthTotals)
    ensures t.totalSales == Sum(Filter(sales, SaleDated(w)), Salaries.SaleAmount())
    ensures t.totalReceipts == Sum(Filter(receipts, ReceiptDated(w)), Salaries.ReceiptAmount())
    ensures t.totalExpenses == Sum(Filter(expenses, ExpenseDated(w)), ExpenseAmount())
    ensures t.totalSalaries == Sum(Filter(salaries, SalaryStarting(w)), SalaryTotal())
    ensures charge.None? ==> t.totalAdminCharges == 0.0
    ensures charge.Some? ==> t.totalAdminCharges == charge.value.rec.amount
    ensures t.netProfit == t.totalSales + t.totalReceipts - t.totalExpenses - t.totalSalaries - t.totalAdminCharges
  {
    var totalSales := MonthSum(sales, SaleDated(w), Salaries.SaleAmount());
    var totalReceipts := MonthSum(receipts, ReceiptDated(w), Salaries.ReceiptAmount());
    var totalExpenses := MonthSum(expenses, ExpenseDated(w), ExpenseAmount());
    var totalSalaries := MonthSum(salaries, SalaryStarting(w), SalaryTotal());
    var totalAdminCharges := ChargeAmount(charge);
    MonthTotals(totalSales, totalReceipts, totalExpenses, totalSalaries, totalAdminCharges,
                totalSales + totalReceipts - totalExpenses - totalSalaries - totalAdminCharges)
  }

  /** A month with no rows at all and no admin charge totals to zero. */
  lemma EmptyMonth(sales: seq<Row<Sale>>, receipts: seq<Row<Receipt>>, expenses: seq<Row<Expense>>,
                   salaries: seq<Row<Salary>>, w: Window)
    requires forall x :: x in sales ==> !InWindow(x.rec.date, w)
    requires forall x :: x in receipts ==> !InWindow(x.rec.date, w)
    requires forall x :: x in expenses ==> !InWindow(x.rec.date, w)
    requires forall x :: x in salaries ==> !InWindow(x.rec.periodStart, w)
    ensures Totals(sales, receipts, expenses, salaries, None, w) == MonthTotals(0.0, 0.0, 0.0, 0.0, 0.0, 0.0)
  {
    FilterNone(sales, SaleDated(w));
    FilterNone(receipts, ReceiptDated(w));
    FilterNone(expenses, ExpenseDated(w));
    FilterNone(salaries, SalaryStarting(w));
  }

  /** One more sale dated inside the month raises the sales total and the
      net profit by its amount and leaves the other totals as they were. */
  lemma SaleInMonthAdds(sales: seq<Row<Sale>>, x: Row<Sale>, receipts: seq<Row<Receipt>>, expenses: seq<Row<Expense>>,
                        salaries: seq<Row<Salary>>, charge: Option<Row<AdminCharge>>, w: Window)
    requires InWindow(x.rec.date, w)
    ensures var before := Totals(sales, receipts, expenses, salaries, charge, w);
            var after := Totals(sales + [x], receipts, expenses, salaries, charge, w);
            after == before.(totalSales := before.totalSales + x.rec.amount, netProfit := before.netProfit + x.rec.amount)
  {
    FilterAppend(sales, [x], SaleDated(w));
    assert Filter([x], SaleDated(w)) == [x];
    SumAppend(Filter(sales, SaleDated(w)), [x], Salaries.SaleAmount());
    assert [x][..0] == [];
  }

  /** One more expense dated inside the month lowers the net profit by its amount. */
  lemma ExpenseInMonthSubtracts(sales: seq<Row<Sale>>, receipts: seq<Row<Receipt>>, expenses: seq<Row<Expense>>, x: Row<Expense>,
                                salaries: seq<Row<Salary>>, charge: Option<Row<AdminCharge>>, w: Window)
    requires InWindow(x.rec.date, w)
    ensures var before := Totals(sales, receipts, expenses, salaries, charge, w);
            var after := Totals(sales, receipts, expenses + [x], salaries, charge, w);
            after == before.(totalExpenses := before.totalExpenses + x.rec.amount, netProfit := before.netProfit - x.rec.amount)
  {
    FilterAppend(expenses, [x], ExpenseDated(w));
    assert Filter([x], ExpenseDated(w)) == [x];
    SumAppend(Filter(expenses, ExpenseDated(w)), [x], ExpenseAmount());
    assert [x][..0] == [];
  }

  /** Rows dated outside the month change nothing. */
  lemma OutsideMonthIgnored(sales: seq<Row<Sale>>, moreSales: seq<Row<Sale>>, receipts: seq<Row<Receipt>>,
                            expenses: seq<Row<Expense>>, moreExpenses: seq<Row<Expense>>,
                            salaries: seq<Row<Salary>>, charge: Option<Row<AdminCharge>>, w: Window)
    requires forall x :: x in moreSales ==> !InWindow(x.rec.date, w)
    requires forall x :: x in moreExpenses ==> !InWindow(x.rec.date, w)
    ensures Totals(sales + moreSales, receipts, expenses + moreExpenses, salaries, charge, w)
            == Totals(sales, receipts, expenses, salaries, charge, w)
  {
    Salaries.FilterIgnoresRejected(sales, moreSales, SaleDated(w));
    Salaries.FilterIgnoresRejected(expenses, moreExpenses, ExpenseDated(w));
  }

  /** One entry of `employeePerformance`. */
  datatype Performance = Performance(id: int, name: string, totalSales: real, totalReceipts: real, total: real)

  /** The `sales` association of an employee restricted to the window. */
  function SaleOfIn(employeeId: int, w: Window): Sale -> bool {
    (x: Sale) => x.employeeId == employeeId && InWindow(x.date, w)
  }

  function ReceiptOfIn(employeeId: int, w: Window): Receipt -> bool {
    (x: Receipt) => x.employeeId == employeeId && InWindow(x.date, w)
  }

  /** The figures of one employee for the month. */
  function PerformanceOf(e: Row<Employee>, sales: seq<Row<Sale>>, receipts: seq<Row<Receipt>>, w: Window): (p: Performance)
    ensures p.id == e.id && p.name == e.rec.name
    ensures p.totalSales == Sum(Filter(sales, SaleOfIn(e.id, w)), Salaries.SaleAmount())
    ensures p.totalReceipts == Sum(Filter(receipts, ReceiptOfIn(e.id, w)), Salaries.ReceiptAmount())
    ensures p.total == p.totalSales + p.totalReceipts
  {
    var totalSales := Sum(Filter(sales, SaleOfIn(e.id, w)), Salaries.SaleAmount());
    var totalReceipts := Sum(Filter(receipts, ReceiptOfIn(e.id, w)), Salaries.ReceiptAmount());
    Performance(e.id, e.rec.name, totalSales, totalReceipts, totalSales + totalReceipts)
  }

  /** Filters under conditions that agree on every record are equal. */
  lemma {:induction false} FilterSameCondition<R>(s: seq<Row<R>>, p: R -> bool, q: R -> bool)
    requires forall x :: p(x) == q(x)
    ensures Filter(s, p) == Filter(s, q)
  {
    if s != [] {
      FilterSameCondition(s[1..], p, q);
    }
  }

  /** An employee's dashboard total over a month is the base salary that
      POST /generate computes for them over the same window. */
  lemma PerformanceIsPeriodTotal(e: Row<Employee>, sales: seq<Row<Sale>>, receipts: seq<Row<Receipt>>, w: Window)
    ensures PerformanceOf(e, sales, receipts, w).total == Salaries.PeriodTotal(e.id, receipts, sales, w.lo, w.hi)
  {
    FilterSameCondition(sales, SaleOfIn(e.id, w), Salaries.SaleIn(e.id, w.lo, w.hi));
    FilterSameCondition(receipts, ReceiptOfIn(e.id, w), Salaries.ReceiptIn(e.id, w.lo, w.hi));
  }

  /** `.sort((a, b) => b.total - a.total)`: larger totals first. */
  function ByTotalDesc(): (Performance, Performance) -> bool {
    (a: Performance, b: Performance) => a.total >= b.total
  }

  lemma ByTotalDescIsPreorder()
    ensures TotalPreorder(ByTotalDesc())
  {
  }

  /** The `map` over the `Employee.findAll` result. */
  function Performances(staff: seq<Row<Employee>>, sales: seq<Row<Sale>>, receipts: seq<Row<Receipt>>, w: Window): (r: seq<Performance>)
    ensures |r| == |staff|
    ensures forall j :: 0 <= j < |staff| ==> r[j] == PerformanceOf(staff[j], sales, receipts, w)
  {
    seq(|staff|, j requires 0 <= j < |staff| => PerformanceOf(staff[j], sales, receipts, w))
  }

  /** `employeePerformance`: the five best totals, best first; every
      employee left out has a total no larger than the last one listed. */
  function TopEmployees(staff: seq<Row<Employee>>, sales: seq<Row<Sale>>, receipts: seq<Row<Receipt>>, w: Window): (r: seq<Performance>)
    ensures |r| == if |staff| < 5 then |staff| else 5
    ensures Sorted(r, ByTotalDesc())
    ensures forall p :: p in r ==> p in Performances(staff, sales, receipts, w)
    ensures multiset(r) <= multiset(Performances(staff, sales, receipts, w))
    ensures forall j :: 0 <= j < |staff| ==>
              var p := PerformanceOf(staff[j], sales, receipts, w);
              p in r || p.total <= r[|r| - 1].total
  {
    ByTotalDescIsPreorder();
    var all := Performances(staff, sales, receipts, w);
    var r := Top(all, 5, ByTotalDesc());
    assert forall j :: 0 <= j < |staff| ==> all[j] in all;
    r
  }

  /** One entry of `popularPackages`. */
  datatype Popularity = Popularity(id: int, name: string, price: real, salesCount: nat, totalRevenue: real)

  /** The `sales` association of a package restricted to the window. */
  function SaleOfPackageIn(packageId: int, w: Window): Sale -> bool {
    (x: Sale) => x.packageId == packageId && InWindow(x.date, w)
  }

  /** The figures of one package for the month: how many sales, and their sum. */
  function PopularityOf(p: Row<Package>, sales: seq<Row<Sale>>, w: Window): (r: Popularity)
    ensures r.id == p.id && r.name == p.rec.name && r.price == p.rec.price
    ensures r.salesCount == |Filter(sales, SaleOfPackageIn(p.id, w))|
    ensures r.totalRevenue == Sum(Filter(sales, SaleOfPackageIn(p.id, w)), Salaries.SaleAmount())
  {
    var sold := Filter(sales, SaleOfPackageIn(p.id, w));
    Popularity(p.id, p.rec.name, p.rec.price, |sold|, Sum(sold, Salaries.SaleAmount()))
  }

  /** The ranking does not look at isActive: a deactivated package keeps its figures. */
  lemma PopularityIgnoresActive(p: Row<Package>, sales: seq<Row<Sale>>, w: Window)
    ensures PopularityOf(Row(p.id, p.rec.(isActive := false)), sales, w) == PopularityOf(p, sales, w)
  {
  }

  /** `.sort((a, b) => b.salesCount - a.salesCount)`: more sales first. */
  function BySalesCountDesc(): (Popularity, Popularity) -> bool {
    (a: Popularity, b: Popularity) => a.salesCount >= b.salesCount
  }

  lemma BySalesCountDescIsPreorder()
    ensures TotalPreorder(BySalesCountDesc())
  {
  }

  function Popularities(packages: seq<Row<Package>>, sales: seq<Row<Sale>>, w: Window): (r: seq<Popularity>)
    ensures |r| == |packages|
    ensures forall j :: 0 <= j < |packages| ==> r[j] == PopularityOf(packages[j], sales, w)
  {
    seq(|packages|, j requires 0 <= j < |packages| => PopularityOf(packages[j], sales, w))
  }

  /** `popularPackages`: the five packages with most sales in the month,
      ranked by count and not by revenue; every package left out has no
      more sales than the last one listed. */
  function TopPackages(packages: seq<Row<Package>>, sales: seq<Row<Sale>>, w: Window): (r: seq<Popularity>)
    ensures |r| == if |packages| < 5 then |packages| else 5
    ensures Sorted(r, BySalesCountDesc())
    ensures forall p :: p in r ==> p in Popularities(packages, sales, w)
    ensures multiset(r) <= multiset(Popularities(packages, sales, w))
    ensures forall j :: 0 <= j < |packages| ==>
              var p := PopularityOf(packages[j], sales, w);
              p in r || p.salesCount <= r[|r| - 1].salesCount
  {
    BySalesCountDescIsPreorder();
    var all := Popularities(packages, sales, w);
    var r := Top(all, 5, BySalesCountDesc());
    assert forall j :: 0 <= j < |packages| ==> all[j] in all;
    r
  }

  /** The whole JSON body of GET /dashboard. */
  datatype Dashboard = Dashboard(currentMonth: MonthTotals, employeePerformance: seq<Performance>, popularPackages: seq<Popularity>)

  /** GET /dashboard at the instant `now`: staff only. */
  function GetDashboard(caller: Principal, employees: Table<Employee>, packages: Table<Package>, sales: Table<Sale>,
                        receipts: Table<Receipt>, expenses: Table<Expense>, salaries: Table<Salary>,
                        charges: Table<AdminCharge>, now: Instant): (r: Response<Dashboard>)
    reads employees, packages, sales, receipts, expenses, salaries, charges
    requires charges.Valid() && ValidInstant(now)
    ensures r.Err? <==> !IsStaff(caller.role)
    ensures r.Err? ==> r == Err(403, InsufficientPermissions)
    ensures r.Ok? ==>
              var w := MonthWindow(now.date.year, now.date.month);
              var charge := charges.FindOne(AdminCharges.ForPeriod(now.date.month, now.date.year));
              r.status == 200
              && r.value.currentMonth == Totals(sales.All(), receipts.All(), expenses.All(), salaries.All(), charge, w)
              && r.value.employeePerformance == TopEmployees(employees.All(), sales.All(), receipts.All(), w)
              && r.value.popularPackages == TopPackages(packages.All(), sales.All(), w)
  {
    StaffRolesAreStaff(caller);
    var gate := RequireRole(Some(caller), StaffRoles);
    if gate.Stop? then Err(gate.status, gate.message)
    else
      var w := MonthWindow(now.date.year, now.date.month);
      var charge := charges.FindOne(AdminCharges.ForPeriod(now.date.month, now.date.year));
      Ok(200, Dashboard(Totals(sales.All(), receipts.All(), expenses.All(), salaries.All(), charge, w),
                        TopEmployees(employees.All(), sales.All(), receipts.All(), w),
                        TopPackages(packages.All(), sales.All(), w)))
  }

  /** `parseInt(req.query.months) || 12`: a missing or non-numeric parameter
      (None, parseInt's NaN) and 0 both fall back to 12. */
  function MonthsParam(q: Option<int>): (n: int)
    ensures q.None? || q == Some(0) ==> n == 12
    ensures q.Some? && q.value != 0 ==> n == q.value
    ensures n != 0
  {
    if q.Some? && q.value != 0 then q.value else 12
  }

  /** `${year}-${month.toString().padStart(2, '0')}`. */
  function Label(year: int, month: int): string
    requires 1 <= month <= 12
  {
    IntToString(year) + "-" + PadStart(NatToString(month), 2, '0')
  }

  /** The two-digit month field of a label reads back as the month. */
  lemma MonthFieldRoundTrip(month: int)
    requires 1 <= month <= 12
    ensures var f := PadStart(NatToString(month), 2, '0');
            |f| == 2 && AllDigits(f) && DigitsValue(f) == month
  {
    var d := NatToString(month);
    NatToStringRoundTrip(month);
    var f := PadStart(d, 2, '0');
    if month < 10 {
      assert f == ['0'] + d;
      assert f[..1] == ['0'];
    }
  }

  /** IntToString is one to one. */
  lemma IntToStringInjective(a: int, b: int)
    requires IntToString(a) == IntToString(b)
    ensures a == b
  {
  }

  /** A label is the year's decimal text, a dash and two digits that read
      back as the month; hence distinct months have distinct labels. */
  lemma LabelFormat(year: int, month: int)
    requires 1 <= month <= 12
    ensures var s := Label(year, month);
            |s| >= 4 && s[..|s| - 3] == IntToString(year) && s[|s| - 3] == '-'
            && AllDigits(s[|s| - 2..]) && DigitsValue(s[|s| - 2..]) == month
  {
    LabelParts(year, month);
    MonthFieldRoundTrip(month);
  }

  /** The year text before the dash and the month field after it. */
  lemma LabelParts(year: int, month: int)
    requires 1 <= month <= 12
    ensures var s := Label(year, month);
            |s| >= 4 && s[..|s| - 3] == IntToString(year) && s[|s| - 3] == '-'
            && s[|s| - 2..] == PadStart(NatToString(month), 2, '0')
  {
    MonthFieldLength(month);
    Joined(IntToString(year), PadStart(NatToString(month), 2, '0'), Label(year, month));
  }

  lemma MonthFieldLength(month: int)
    requires 1 <= month <= 12
    ensures |PadStart(NatToString(month), 2, '0')| == 2
  {
    if month >= 10 {
      assert NatToString(month) == NatToString(month / 10) + [DigitChar(month % 10)];
    }
  }

  /** The parts of a string built as `a-f` with a two-character f. */
  lemma Joined(a: string, f: string, s: string)
    requires s == a + "-" + f && |f| == 2
    ensures |s| == |a| + 3 && s[..|s| - 3] == a && s[|s| - 3] == '-' && s[|s| - 2..] == f
  {
    DashJoin(a, f);
  }

  /** The parts of `a-b` around its dash at index |a|. */
  lemma DashJoin(a: string, b: string)
    ensures var s := a + "-" + b;
            |s| == |a| + 1 + |b| && s[..|a|] == a && s[|a|] == '-' && s[|a| + 1..] == b
  {
    var s := a + "-" + b;
    assert s[..|a|] == a;
    assert s[|a| + 1..] == b;
  }

  lemma LabelInjective(y1: int, m1: int, y2: int, m2: int)
    requires 1 <= m1 <= 12 && 1 <= m2 <= 12
    requires Label(y1, m1) == Label(y2, m2)
    ensures y1 == y2 && m1 == m2
  {
    var a1, f1 := IntToString(y1), PadStart(NatToString(m1), 2, '0');
    var a2, f2 := IntToString(y2), PadStart(NatToString(m2), 2, '0');
    MonthFieldRoundTrip(m1);
    MonthFieldRoundTrip(m2);
    DashJoin(a1, f1);
    DashJoin(a2, f2);
    assert a1 == a2 && f1 == f2;
    IntToStringInjective(y1, y2);
  }

  /** One entry of the revenue series. The entry's `month` key is the
      text Label(year, month); the entry keeps the two numbers it is
      printed from. */
  datatype MonthRevenue = MonthRevenue(year: int, month: int, sales: real, receipts: real, expenses: real, totalRevenue: real)

  /** The `month` key of an entry. */
  function MonthKey(p: MonthRevenue): string
    requires 1 <= p.month <= 12
  {
    Label(p.year, p.month)
  }

  /** The entry for month m of year y over query snapshots. */
  function MonthPoint(sales: seq<Row<Sale>>, receipts: seq<Row<Receipt>>, expenses: seq<Row<Expense>>, y: int, m: int): (p: MonthRevenue)
    requires 1 <= m <= 12
    ensures p.year == y && p.month == m
    ensures p.sales == Sum(Filter(sales, SaleDated(MonthWindow(y, m))), Salaries.SaleAmount())
    ensures p.receipts == Sum(Filter(receipts, ReceiptDated(MonthWindow(y, m))), Salaries.ReceiptAmount())
    ensures p.expenses == Sum(Filter(expenses, ExpenseDated(MonthWindow(y, m))), ExpenseAmount())
    ensures p.totalRevenue == p.sales + p.receipts
  {
    var w := MonthWindow(y, m);
    var s := MonthSum(sales, SaleDated(w), Salaries.SaleAmount());
    var r := MonthSum(receipts, ReceiptDated(w), Salaries.ReceiptAmount());
    MonthRevenue(y, m, s, r, MonthSum(expenses, ExpenseDated(w), ExpenseAmount()), s + r)
  }

  /** The month the as-written loop reports for step i: `setMonth(getMonth() - i)`
      on today's date, which can overflow into the following month. */
  function AsWrittenMonthBack(today: Date, i: int): (r: (int, int))
    requires ValidDate(today)
    ensures 1 <= r.1 <= 12
  {
    var d := SetMonth(today, today.month - 1 - i);
    (d.year, d.month)
  }

  /** On 31 March 2024 the step one month back lands on 2 March, so the
      series shows "2024-03" twice and never shows February. */
  lemma AsWrittenSeriesRepeatsMonth()
    ensures AsWrittenMonthBack(Date(2024, 3, 31), 1) == AsWrittenMonthBack(Date(2024, 3, 31), 0) == (2024, 3)
  {
    assert FirstOfMonthIndex(2024, 1) == Date(2024, 2, 1);
    assert DaysInMonth(2024, 2) == 29;
  }

  /** On days 1 to 28 the as-written step and month arithmetic agree. */
  lemma AsWrittenAgreesEarlyInMonth(today: Date, i: int)
    requires ValidDate(today) && today.day <= 28
    ensures AsWrittenMonthBack(today, i) == MonthsBack(today.year, today.month, i)
  {
    SetMonthTarget(today, today.month - 1 - i);
    var a := AsWrittenMonthBack(today, i);
    var b := MonthsBack(today.year, today.month, i);
    MonthNumberInjective(a.0, a.1, b.0, b.1);
  }

  /** A month number determines the year and the month. */
  lemma MonthNumberInjective(y1: int, m1: int, y2: int, m2: int)
    requires 1 <= m1 <= 12 && 1 <= m2 <= 12
    requires MonthNumber(y1, m1) == MonthNumber(y2, m2)
    ensures y1 == y2 && m1 == m2
  {
  }

  /** Different steps back reach different months, so the corrected series
      has no repeated label. */
  lemma SeriesLabelsDistinct(y: int, m: int, i: int, j: int)
    requires 1 <= m <= 12 && i != j
    ensures var a := MonthsBack(y, m, i);
            var b := MonthsBack(y, m, j);
            Label(a.0, a.1) != Label(b.0, b.1)
  {
    var a := MonthsBack(y, m, i);
    var b := MonthsBack(y, m, j);
    if Label(a.0, a.1) == Label(b.0, b.1) {
      LabelInjective(a.0, a.1, b.0, b.1);
    }
  }

  /** The series entry for the month i months before the month of `today`. */
  function PointBack(sales: seq<Row<Sale>>, receipts: seq<Row<Receipt>>, expenses: seq<Row<Expense>>, today: Date, i: int): (p: MonthRevenue)
    requires 1 <= today.month <= 12
    ensures var ym := MonthsBack(today.year, today.month, i);
            p == MonthPoint(sales, receipts, expenses, ym.0, ym.1)
  {
    var ym := MonthsBack(today.year, today.month, i);
    MonthPoint(sales, receipts, expenses, ym.0, ym.1)
  }

  /** The series entry of each number of months back from the month of `today`. */
  function PointsBack(sales: seq<Row<Sale>>, receipts: seq<Row<Receipt>>, expenses: seq<Row<Expense>>, today: Date): int -> MonthRevenue
    requires 1 <= today.month <= 12
  {
    (i: int) => PointBack(sales, receipts, expenses, today, i)
  }

  /** `for (let i = top; ...; i--) data.push(f(i))`, run `count` times:
      f(top), f(top - 1), ..., f(top - count + 1). */
  function Countdown<T>(f: int -> T, top: int, count: nat): (s: seq<T>)
    ensures |s| == count
  {
    if count == 0 then [] else Countdown(f, top, count - 1) + [f(top - (count - 1))]
  }

  /** Entry k of the countdown is f(top - k). */
  lemma {:induction false} CountdownAt<T>(f: int -> T, top: int, count: nat, k: int)
    requires 0 <= k < count
    ensures Countdown(f, top, count)[k] == f(top - k)
  {
    if k < count - 1 {
      CountdownAt(f, top, count - 1, k);
    }
  }

  /** Entry k of a series counting down from `top` is the month top - k months back. */
  lemma SeriesEntryAt(sales: seq<Row<Sale>>, receipts: seq<Row<Receipt>>, expenses: seq<Row<Expense>>,
                      today: Date, top: int, count: nat, k: int)
    requires 1 <= today.month <= 12 && 0 <= k < count
    ensures var ym := MonthsBack(today.year, today.month, top - k);
            Countdown(PointsBack(sales, receipts, expenses, today), top, count)[k] == MonthPoint(sales, receipts, expenses, ym.0, ym.1)
  {
    var f := PointsBack(sales, receipts, expenses, today);
    var p := PointBack(sales, receipts, expenses, today, top - k);
    CountdownAt(f, top, count, k);
    assert Countdown(f, top, count)[k] == p;
  }

  /** No two entries of the series are for the same month, so by
      LabelInjective no two share a `month` key. */
  lemma SeriesMonthsDistinct(sales: seq<Row<Sale>>, receipts: seq<Row<Receipt>>, expenses: seq<Row<Expense>>,
                           today: Date, top: int, count: nat, j: int, k: int)
    requires 1 <= today.month <= 12 && 0 <= j < k < count
    ensures var s := Countdown(PointsBack(sales, receipts, expenses, today), top, count);
            s[j].year != s[k].year || s[j].month != s[k].month
  {
    var s := Countdown(PointsBack(sales, receipts, expenses, today), top, count);
    SeriesEntryAt(sales, receipts, expenses, today, top, count, j);
    SeriesEntryAt(sales, receipts, expenses, today, top, count, k);
    var a := MonthsBack(today.year, today.month, top - j);
    var b := MonthsBack(today.year, today.month, top - k);
    assert s[j].year == a.0 && s[j].month == a.1;
    assert s[k].year == b.0 && s[k].month == b.1;
  }

  /** The last entry of a series of n months, i = 0, is the current month. */
  lemma SeriesEndsNow(sales: seq<Row<Sale>>, receipts: seq<Row<Receipt>>, expenses: seq<Row<Expense>>, today: Date, n: int)
    requires 1 <= today.month <= 12 && n >= 1
    ensures var s := Countdown(PointsBack(sales, receipts, expenses, today), n - 1, n);
            s[n - 1].year == today.year && s[n - 1].month == today.month
  {
    SeriesEntryAt(sales, receipts, expenses, today, n - 1, n, n - 1);
    var ym := MonthsBack(today.year, today.month, 0);
    MonthNumberInjective(ym.0, ym.1, today.year, today.month);
  }

  /** The loop `for (let i = n - 1; i >= 0; i--) data.push(point(i))`. */
  method CountdownLoop<T>(point: int -> T, n: int) returns (data: seq<T>)
    ensures data == Countdown(point, n - 1, if n >= 1 then n else 0)
  {
    data := [];
    var i := n - 1;
    while i >= 0
      invariant (n >= 1 ==> -1 <= i < n) && (n < 1 ==> i == n - 1)
      invariant data == Countdown(point, n - 1, if n >= 1 then n - 1 - i else 0)
      decreases i
    {
      data := data + [point(i)];
      i := i - 1;
    }
  }

  /** GET /revenue at the instant `now`: staff only; for i from months - 1
      down to 0, the entry of the month i months before the current one. */
  method RevenueSeries(caller: Principal, sales: Table<Sale>, receipts: Table<Receipt>, expenses: Table<Expense>,
                       months: Option<int>, now: Instant) returns (r: Response<seq<MonthRevenue>>)
    requires ValidInstant(now)
    ensures r.Err? <==> !IsStaff(caller.role)
    ensures r.Err? ==> r == Err(403, InsufficientPermissions)
    ensures r.Ok? ==> r.status == 200
    ensures r.Ok? ==> var n := MonthsParam(months);
                      r.value == Countdown(PointsBack(sales.All(), receipts.All(), expenses.All(), now.date),
                                           n - 1, if n >= 1 then n else 0)
    ensures r.Ok? && |r.value| > 0 ==> r.value[|r.value| - 1].year == now.date.year && r.value[|r.value| - 1].month == now.date.month
  {
    StaffRolesAreStaff(caller);
    var gate := RequireRole(Some(caller), StaffRoles);
    if gate.Stop? {
      return Err(gate.status, gate.message);
    }
    var n := MonthsParam(months);
    var data := CountdownLoop(PointsBack(sales.All(), receipts.All(), expenses.All(), now.date), n);
    if n >= 1 {
      SeriesEndsNow(sales.All(), receipts.All(), expenses.All(), now.date, n);
    }
    r := Ok(200, data);
  }
}

/** The expense routes: a staff-only list, a create open to every
    authenticated user that stamps the creator, and an update and delete
    allowed to staff and to the creator. Existence is checked before
    permission. */
module Expenses {

  import opened Common
  import opened Sanitize
  import opened Calendar
  import opened Tables
  import opened Ordering
  import opened Records
  import opened Server

  const ExpenseNotFound: string := "Expense not found"
  const AccessDenied: string := "Access denied"

  /** ORDER BY date DESC. */
  function ByDateDesc(): (Row<Expense>, Row<Expense>) -> bool {
    (a: Row<Expense>, b: Row<Expense>) => InstantLe(b.rec.date, a.rec.date)
  }

  lemma ByDateDescIsPreorder()
    ensures TotalPreorder(ByDateDesc())
  {
    forall a: Row<Expense>, b: Row<Expense> ensures ByDateDesc()(a, b) || ByDateDesc()(b, a) {
      InstantLeTotal(a.rec.date, b.rec.date);
    }
    forall a: Row<Expense>, b: Row<Expense>, c: Row<Expense> | ByDateDesc()(a, b) && ByDateDesc()(b, c)
      ensures ByDateDesc()(a, c)
    {
      InstantLeTransitive(c.rec.date, b.rec.date, a.rec.date);
    }
  }

  /** Every stored amount is at least 0. */
  ghost predicate AmountsNonNegative(expenses: Table<Expense>)
    reads expenses
  {
    forall k :: k in expenses.rows ==> expenses.rows[k].amount >= 0.0
  }

  /** GET /: staff only; every expense, newest first. */
  function ListExpenses(caller: Principal, expenses: Table<Expense>): (r: Response<seq<Row<Expense>>>)
    reads expenses
    requires expenses.Valid()
    ensures r.Err? <==> !IsStaff(caller.role)
    ensures r.Err? ==> r == Err(403, InsufficientPermissions)
    ensures r.Ok? ==> r.status == 200 && Sorted(r.value, ByDateDesc())
    ensures r.Ok? ==> multiset(r.value) == multiset(expenses.All())
    ensures r.Ok? ==> forall x :: x in r.value <==> x.id in expenses.rows && x.rec == expenses.rows[x.id]
  {
    StaffRolesAreStaff(caller);
    var gate := RequireRole(Some(caller), StaffRoles);
    if gate.Stop? then Err(gate.status, gate.message)
    else
      ByDateDescIsPreorder();
      var all := expenses.All();
      assert forall x :: x in all ==> x.id in expenses.rows && x.rec == expenses.rows[x.id];
      Ok(200, SortBy(all, ByDateDesc()))
  }

  /** The body of POST /, its text as the client sent it. */
  datatype NewExpense = NewExpense(category: string, amount: Field<real>, description: Option<string>)

  predicate ValidNewExpense(b: NewExpense) {
    NotEmpty(b.category) && RequiredAtLeast(b.amount, 0.0)
  }

  /** POST /: any authenticated caller; the expense is dated `now` and
      createdBy is the caller. */
  method CreateExpense(caller: Principal, expenses: Table<Expense>, body: NewExpense, now: Instant) returns (r: Response<Row<Expense>>)
    requires expenses.Valid()
    modifies expenses
    ensures expenses.Valid()
    ensures r.Err? <==> !ValidNewExpense(body)
    ensures r.Err? ==> r == Err(400, ValidationFailed)
    ensures r.Ok? ==> r == Ok(201, Row(old(expenses.nextId), Expense(Sanitized(body.category), body.amount.value, now,
                                                                     SanitizedOption(body.description), caller.id)))
    ensures r.Ok? ==> expenses.rows == old(expenses.rows)[r.value.id := r.value.rec] && expenses.nextId == old(expenses.nextId) + 1
    ensures r.Err? ==> expenses.rows == old(expenses.rows) && expenses.nextId == old(expenses.nextId)
    ensures old(AmountsNonNegative(expenses)) ==> AmountsNonNegative(expenses)
  {
    if !ValidNewExpense(body) {
      return Err(400, ValidationFailed);
    }
    var expense := Expense(Sanitized(body.category), body.amount.value, now, SanitizedOption(body.description), caller.id);
    var id := expenses.Insert(expense);
    r := Ok(201, Row(id, expense));
  }

  /** The caller is admin, superAdmin, or the user who recorded the expense. */
  predicate MayChange(caller: Principal, e: Expense) {
    IsStaff(caller.role) || e.createdBy == caller.id
  }

  /** The body of PUT /:id: every field is optional. */
  datatype ExpenseChanges = ExpenseChanges(category: Option<string>, amount: Field<real>, description: Option<string>)

  predicate ValidExpenseChanges(c: ExpenseChanges) {
    OptionalNotEmpty(c.category) && OptionalAtLeast(c.amount, 0.0)
  }

  /** `expense.update(updates)`: the fields present overwrite the columns
      with their sanitized text; the date and the creator stay. */
  function ApplyExpenseChanges(e: Expense, c: ExpenseChanges): (f: Expense)
    ensures f.date == e.date && f.createdBy == e.createdBy
    ensures f.category == PatchText(SanitizedOption(c.category), e.category)
    ensures f.amount == Patch(c.amount, e.amount)
    ensures f.description == PatchOptional(SanitizedOption(c.description), e.description)
  {
    e.(category := PatchText(SanitizedOption(c.category), e.category),
       amount := Patch(c.amount, e.amount),
       description := PatchOptional(SanitizedOption(c.description), e.description))
  }

  /** PUT /:id: 400, then 404 for an unknown id (whoever asks), then 403
      unless the caller may change that expense. */
  method UpdateExpense(caller: Principal, expenses: Table<Expense>, id: int, changes: ExpenseChanges) returns (r: Response<Row<Expense>>)
    requires expenses.Valid()
    modifies expenses
    ensures expenses.Valid() && expenses.nextId == old(expenses.nextId)
    ensures !ValidExpenseChanges(changes) ==> r == Err(400, ValidationFailed)
    ensures ValidExpenseChanges(changes) && id !in old(expenses.rows) ==> r == Err(404, ExpenseNotFound)
    ensures (ValidExpenseChanges(changes) && id in old(expenses.rows) && !MayChange(caller, old(expenses.rows[id])))
            ==> r == Err(403, AccessDenied)
    ensures r.Ok? <==> ValidExpenseChanges(changes) && id in old(expenses.rows) && MayChange(caller, old(expenses.rows[id]))
    ensures r.Ok? ==> r == Ok(200, Row(id, ApplyExpenseChanges(old(expenses.rows[id]), changes)))
    ensures r.Ok? ==> expenses.rows == old(expenses.rows)[id := r.value.rec]
    ensures r.Err? ==> expenses.rows == old(expenses.rows)
    ensures old(AmountsNonNegative(expenses)) ==> AmountsNonNegative(expenses)
  {
    if !ValidExpenseChanges(changes) {
      return Err(400, ValidationFailed);
    }
    if id !in expenses.rows {
      return Err(404, ExpenseNotFound);
    }
    if !MayChange(caller, expenses.rows[id]) {
      return Err(403, AccessDenied);
    }
    var updated := ApplyExpenseChanges(expenses.rows[id], changes);
    expenses.Update(id, updated);
    r := Ok(200, Row(id, updated));
  }

  /** DELETE /:id: 404 for an unknown id, 403 unless the caller may change
      it, else exactly that expense is removed. */
  method DeleteExpense(caller: Principal, expenses: Table<Expense>, id: int) returns (r: Response<string>)
    requires expenses.Valid()
    modifies expenses
    ensures expenses.Valid() && expenses.nextId == old(expenses.nextId)
    ensures id !in old(expenses.rows) ==> r == Err(404, ExpenseNotFound)
    ensures id in old(expenses.rows) && !MayChange(caller, old(expenses.rows[id])) ==> r == Err(403, AccessDenied)
    ensures r.Ok? <==> id in old(expenses.rows) && MayChange(caller, old(expenses.rows[id]))
    ensures r.Ok? ==> r == Ok(200, "Expense deleted successfully") && expenses.rows == old(expenses.rows) - {id}
    ensures r.Err? ==> expenses.rows == old(expenses.rows)
  {
    if id !in expenses.rows {
      return Err(404, ExpenseNotFound);
    }
    if !MayChange(caller, expenses.rows[id]) {
      return Err(403, AccessDenied);
    }
    expenses.Destroy(id);
    r := Ok(200, "Expense deleted successfully");
  }
}

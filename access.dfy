/** The ownership check that the sale, receipt and salary routes repeat
    before acting on `/employee/:employeeId`: a caller who is not staff must
    be the user of that employee record. */
module Access {

  import opened Common
  import opened Tables
  import opened Records

  const AccessDenied: string := "Access denied"

  /** The `where: { userId }` condition on employees. */
  function UserIs(userId: int): Employee -> bool {
    (e: Employee) => e.userId == userId
  }

  /** `Employee.findOne({ where: { userId: req.user.id } })`. */
  function OwnEmployee(employees: Table<Employee>, userId: int): (r: Option<Row<Employee>>)
    reads employees
    requires employees.Valid()
    ensures r.Some? ==> r.value.id in employees.rows && r.value.rec == employees.rows[r.value.id]
    ensures r.Some? ==> r.value.rec.userId == userId
    ensures r.None? <==> forall k :: k in employees.rows ==> employees.rows[k].userId != userId
  {
    employees.FindOne(UserIs(userId))
  }

  /** The caller is admin or superAdmin, or their own employee record has
      the id of the path. */
  predicate MayActFor(caller: Principal, employees: Table<Employee>, employeeId: int)
    reads employees
    requires employees.Valid()
  {
    IsStaff(caller.role) || (var e := OwnEmployee(employees, caller.id); e.Some? && e.value.id == employeeId)
  }

  /** No two employee records belong to the same user. */
  ghost predicate OneEmployeePerUser(rows: map<int, Employee>) {
    forall j, k :: j in rows && k in rows && rows[j].userId == rows[k].userId ==> j == k
  }

  /** A caller who is not staff may act exactly for their own employee
      record, whenever each user has at most one. */
  lemma MayActForOwnRecord(caller: Principal, employees: Table<Employee>, employeeId: int)
    requires employees.Valid() && OneEmployeePerUser(employees.rows)
    ensures MayActFor(caller, employees, employeeId)
            <==> IsStaff(caller.role)
                 || (employeeId in employees.rows && employees.rows[employeeId].userId == caller.id)
  {
    if !IsStaff(caller.role) && employeeId in employees.rows && employees.rows[employeeId].userId == caller.id {
      var e := OwnEmployee(employees, caller.id);
      assert e.Some?;
    }
  }

  /** Without the invariant the check is still sound: acting for another
      user's record needs a staff role. */
  lemma MayActForIsSound(caller: Principal, employees: Table<Employee>, employeeId: int)
    requires employees.Valid() && MayActFor(caller, employees, employeeId) && !IsStaff(caller.role)
    ensures employeeId in employees.rows && employees.rows[employeeId].userId == caller.id
  {
  }
}

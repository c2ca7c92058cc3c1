/** The record shapes of the Sequelize models the routes read and write
    (the files under src/models, and the bundled definitions for the models whose
    source file is not part of this model). The primary key `id` is not a
    field: it is the key of the row in its table. DECIMAL columns are exact
    reals, DATE columns are instants, nullable columns are options. */
module Records {

  import opened Common
  import opened Calendar

  /** users: username and email are UNIQUE columns. */
  datatype User = User(
    username: string,
    email: string,
    passwordHash: string,
    role: Role,
    avatar: Option<string>,
    isActive: bool)

  /** employees: each belongs to one user through userId. */
  datatype Employee = Employee(
    userId: int,
    name: string,
    position: string,
    hireDate: Instant,
    deductionPercentage: real,
    contract: Option<string>,
    employmentDeclaration: Option<string>,
    certification: Option<string>)

  /** packages: isActive defaults to true. */
  datatype Package = Package(name: string, price: real, isActive: bool)

  /** sales: date defaults to the time of insertion. */
  datatype Sale = Sale(
    employeeId: int,
    packageId: int,
    clientName: string,
    amount: real,
    date: Instant,
    description: Option<string>)

  /** receipts: what a client paid an employee directly. */
  datatype Receipt = Receipt(
    employeeId: int,
    clientName: string,
    amount: real,
    date: Instant,
    description: Option<string>)

  /** expenses: createdBy is the id of the user who recorded it. */
  datatype Expense = Expense(
    category: string,
    amount: real,
    date: Instant,
    description: Option<string>,
    createdBy: int)

  /** salaries: one generated pay slip of an employee for a period. */
  datatype Salary = Salary(
    employeeId: int,
    baseSalary: real,
    commissionPercentage: real,
    totalSalary: real,
    periodStart: Instant,
    periodEnd: Instant)

  /** admin_charges: the monthly overhead, with the single `amount` the
      routes read and write. */
  datatype AdminCharge = AdminCharge(month: int, year: int, amount: real)
}

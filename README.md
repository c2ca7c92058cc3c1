# gestionBarber back end, modelled in Dafny

gestionBarber is the back end of a barber shop. It is an Express server over a Sequelize database. This project models its business rules:

- the authentication and authorisation middleware of `src/server.js`;
- the guarded create, read, update and delete routes over each table: users with their employee records, packages, sales, receipts, expenses and the monthly administrative charges;
- the salary generation of `salaryRoutes.js`;
- the monthly dashboard and revenue series of `analyticsRoutes.js`.

How the program is represented:

- **Tables.** Each table is an object of the class `Tables.Table<R>`. It holds the rows as a `map<int, R>` and the next auto-increment key.
  - `findAll`, `findOne` and `sum` become functions over the rows, taken in primary-key order.
  - `create`, `update` and `destroy` become methods that reassign the map.
- **Routes.** A route handler is a method, or a function when it only reads. It takes the caller (`Principal`, the decoded token) and the tables it touches. It returns a `Response`: `Ok(status, body)` or `Err(status, message)`.
- **Contracts.** Each handler states:
  - every error status the route can answer, in the order the route checks them;
  - the rows it creates or rewrites;
  - that on an error nothing changes;
  - the table invariant it keeps.
- **Values.** Money and percentages are exact `real`s. Dates are `(year, month, day)` with the milliseconds since local midnight.
- **Time and hashing.** The clock and the password hash are parameters.

Module layout:

- `Common`: responses, roles, validated fields.
- `Text`: decimal strings, `padStart`, `indexOf`.
- `Sanitize`: the express-validator sanitizers `trim` and `escape`.
- `Calendar`: dates and the `Date` month arithmetic.
- `Tables`: rows, filters and sums, the table class.
- `Ordering`: `ORDER BY`, `sort`, `slice`.
- `Records`: the record shapes.
- `Server`: the middleware and the catch-all route.
- `Access`: the own-employee gate.
- One module per route file: `Users`, `Packages`, `Sales`, `Receipts`, `Expenses`, `AdminCharges`, `Salaries`, `Analytics`.

## Model

| member | source | states |
|---|---|---|
| Server.HeaderToken | src/server.js:179 | A header token is `Some` only when the header is present; it is then the non-empty second piece of the header split at `Bearer `. |
| Server.TokenFrom | src/server.js:179-180 | The header's token wins whenever it exists. Otherwise the `accessToken` cookie is used, when it is non-empty. The result is never the empty string. |
| Server.BearerHeaderRoundTrip | src/server.js:179-180 | For a token t without `Bearer ` inside it, the header `Bearer t` yields exactly t, whatever the cookie holds. |
| Server.CookieFallback | src/server.js:179-180 | A header that contains no `Bearer ` leaves the choice to the cookie. |
| Server.Authenticate | src/server.js:178-194 | Answers 401 "No access token provided" iff no token is found. Answers 401 "Invalid access token" iff verification of the token fails. Otherwise passes the decoded principal on. |
| Server.AuthenticateBearer | src/server.js:178-194 | A well-formed bearer header whose token verifies authenticates as the verified principal. |
| Server.RequireRole | src/server.js:196-203 | Passes iff a user is present and their role is in the list; otherwise 403 "Insufficient permissions". |
| Server.StaffRolesAreStaff | src/server.js:196-203 | The gate `['admin', 'superAdmin']` passes exactly the staff roles, and `['superAdmin']` only superAdmin. |
| Server.ValidateRequest | src/server.js:205-218 | The loop stops at the first validation that reports errors and returns that validation's errors. It answers 400 iff some validation failed. |
| Server.CatchAll | src/server.js:148-155 | A path starting with `/api` gets 404 "API endpoint not found"; every other path gets index.html. |
| Server.CatchAllPrefix | src/server.js:150-153 | Every `/api…` path is refused. Under `/`, only paths that do not continue with `api` serve the page. |
| Access.OwnEmployee | src/routes/saleRoutes.js:34 | `Employee.findOne({ where: { userId } })`: the row found belongs to that user. None means no employee row has that user id. |
| Access.MayActForOwnRecord | src/routes/saleRoutes.js:33-38 | When each user owns at most one employee row, an employee acting on their own employee id always passes the gate. |
| Access.MayActForIsSound | src/routes/saleRoutes.js:33-38 | A non-staff caller passes the gate only for an existing employee row whose userId is the caller's id. |
| Text.NatToStringRoundTrip | src/routes/analyticsRoutes.js:212 | Reading back the decimal digits of `toString()` gives the number. |
| Text.IndexOf | src/server.js:179 | The first occurrence of the separator at or after the start position, or None when there is none. |
| Text.PadStart | src/routes/analyticsRoutes.js:212 | `padStart`: the result has the requested width or more, ends with the input and is filled on the left. |
| Sanitize.TrimSlice | src/routes/saleRoutes.js:96 | `trim()` returns a contiguous slice of its input. Everything cut before and after it is white space in the sense of JavaScript's `\s`. |
| Sanitize.TrimmedEnds | src/routes/saleRoutes.js:96 | A trimmed value is empty or starts and ends with a non-space character. |
| Sanitize.TrimIdempotent | src/routes/saleRoutes.js:96 | Trimming twice is trimming once. |
| Sanitize.EscapeLeavesNoMarkup | src/routes/saleRoutes.js:96 | After `escape()` no `"`, `'`, `<`, `>`, `/`, `\` or backquote is left; only the `&`, `#` and `;` of the entities remain. |
| Sanitize.EscapeRoundTrip | src/routes/saleRoutes.js:96 | Decoding the entities of an escaped value gives back the value: `escape()` loses nothing. |
| Sanitize.EscapePlain | src/routes/saleRoutes.js:96 | A value without any of the escaped characters is left as is. |
| Sanitize.BlankPassesNotEmpty | src/routes/userRoutes.js:96 | `notEmpty()` runs before `trim()`: a name of three spaces passes and is stored empty. |
| Sanitize.PaddedPassesLength | src/routes/userRoutes.js:93 | `isLength({ min: 3 })` runs before `trim()`: the username ` ab ` passes and is stored as `ab`. |
| Sanitize.ShortGrowsWhenEscaped | src/routes/userRoutes.js:93 | The two-character username `a<` fails `isLength({ min: 3 })`, though its escaped form has five characters. |
| Calendar.EndOfMonth | src/routes/analyticsRoutes.js:28 | `new Date(y, m, 0)` is the last day of month m: 28 to 31 days by the leap-year rule, and its next day is the first of the following month. |
| Calendar.StartOfMonth | src/routes/analyticsRoutes.js:27 | `new Date(y, m - 1, 1)` is the first of month m. |
| Calendar.SetMonthTarget | src/routes/analyticsRoutes.js:179-180 | `setMonth` lands in the requested month on days 1 to 28. On later days it may land in the month after. |
| Calendar.MonthsBack | src/routes/analyticsRoutes.js:180-182 | Stepping i months back gives month number exactly i below the current one, as a valid (year, month). |
| Tables.FilterMembers | src/routes/saleRoutes.js:40-41 | A `where` filter keeps exactly the rows that satisfy the condition. |
| Tables.FilterAscending | src/routes/saleRoutes.js:40-41 | A filter keeps primary-key order. |
| Tables.SumAppend | src/routes/salaryRoutes.js:101 | A sum over two concatenated selections is the sum of the two sums. |
| Tables.SumNonNegative | src/routes/salaryRoutes.js:101 | A sum of non-negative amounts is non-negative. |
| Tables.Table.Where | src/routes/expenseRoutes.js:22 | `findAll({ where })` returns rows of the table that satisfy the condition, in key order, and every such row. |
| Tables.Table.FindOne | src/routes/userRoutes.js:105 | `findOne({ where })` finds the first matching row by key, and None iff no row matches. |
| Tables.Table.Insert | src/routes/packageRoutes.js:69 | `create` puts the record under a key no row used before and advances the counter; no other row changes. |
| Ordering.SortBy | src/routes/packageRoutes.js:24 | `ORDER BY` returns a permutation of its input that is sorted whenever the order is a total preorder. |
| Ordering.Top | src/routes/analyticsRoutes.js:109 | `sort(...).slice(0, n)`: at most n elements, sorted, and a sub-multiset of the input: no element is kept more often than it occurs there. Every element left out may follow the last one kept. |
| Packages.ByNameAscIsPreorder | src/routes/packageRoutes.js:24 | Ordering by name (code-point order) is a total preorder. |
| Packages.ListPackages | src/routes/packageRoutes.js:20-26 | The listing holds exactly the active packages, as a permutation of them, sorted by name ascending. |
| Packages.CreatePackage | src/routes/packageRoutes.js:62-76 | Staff only (403); a non-empty name and a price of at least 0 (400). The package is created active under the next key, and prices stay non-negative. Text fields are stored sanitized (`Sanitize.Sanitized`), while the checks see the value as sent. |
| Packages.UpdatePackage | src/routes/packageRoutes.js:118-136 | Checks 403, then 400, then 404 for an unknown id. Only that row is rewritten with the changes given; nothing changes on an error. Text fields are stored sanitized (`Sanitize.Sanitized`), while the checks see the value as sent. |
| Packages.Deactivate | src/routes/packageRoutes.js:173 | The soft delete clears `isActive` and keeps name and price. |
| Packages.DeletePackage | src/routes/packageRoutes.js:164-175 | Checks 403, then 404. The row is kept with `isActive` cleared, and no row is removed. |
| Packages.DeleteIdempotent | src/routes/packageRoutes.js:173 | Deleting a package twice leaves the same table as deleting it once. |
| Packages.DeletedNotListed | src/routes/packageRoutes.js:22-25 | A deactivated package is absent from the listing. |
| AdminCharges.ByPeriodDescIsPreorder | src/routes/adminChargeRoutes.js:23 | Year descending, then month descending, is a total preorder. |
| AdminCharges.ListCharges | src/routes/adminChargeRoutes.js:20-25 | Staff only (403). Every charge, as a permutation, sorted by year then month, both descending. |
| AdminCharges.CreateCharge | src/routes/adminChargeRoutes.js:66-88 | Checks 403, then 400 unless 1 ≤ month ≤ 12, year ≥ 2020 and amount ≥ 0. A second charge for a taken (month, year) gets 400 and changes nothing. At most one charge per period is kept. |
| AdminCharges.UpdateCharge | src/routes/adminChargeRoutes.js:126-142 | Checks 403, then 400, then 404. Only the amount changes, so month, year and period uniqueness are kept. |
| AdminCharges.DeleteCharge | src/routes/adminChargeRoutes.js:170-181 | Checks 403, then 404. Exactly that row is removed. |
| AdminCharges.RecreateAfterDelete | src/routes/adminChargeRoutes.js:75-78 | After a delete, its (month, year) is free for a new charge. |
| Sales.ByDateDescIsPreorder | src/routes/saleRoutes.js:46 | Date descending is a total preorder. |
| Sales.ListSales | src/routes/saleRoutes.js:28-49 | 403 "Access denied" iff the own-employee gate fails. Otherwise exactly that employee's sales, as a permutation, sorted by date descending. |
| Sales.CreateSale | src/routes/saleRoutes.js:94-140 | Checks 400, then 403, then 404 for an unknown employee, then 404 for a missing or inactive package. The new sale's amount is the package's price and its date is the current time. Amounts stay non-negative when prices are. Text fields are stored sanitized (`Sanitize.Sanitized`), while the checks see the value as sent. |
| Sales.ApplySaleChanges | src/routes/saleRoutes.js:209 | An update patches only the fields given. Its employee, package and date are kept. Text fields are stored sanitized (`Sanitize.Sanitized`), while the checks see the value as sent. |
| Sales.UpdateSale | src/routes/saleRoutes.js:187-226 | Checks 400, then 403, then 404 unless the sale id and the employee id both match. Only that sale changes. |
| Sales.DeleteSale | src/routes/saleRoutes.js:253-272 | Checks 403, then 404 unless the (sale id, employee id) pair matches. Exactly that sale is removed. |
| Receipts.ByDateDescIsPreorder | src/routes/receiptRoutes.js:43 | Date descending is a total preorder. |
| Receipts.ListReceipts | src/routes/receiptRoutes.js:28-46 | 403 iff the own-employee gate fails. Otherwise exactly that employee's receipts, as a permutation, sorted by date descending. |
| Receipts.CreateReceipt | src/routes/receiptRoutes.js:92-129 | Checks 400 (non-empty client name, amount ≥ 0), then 403, then 404. The receipt stores the amount exactly as sent, dated now. Text fields are stored sanitized (`Sanitize.Sanitized`), while the checks see the value as sent. |
| Receipts.ApplyReceiptChanges | src/routes/receiptRoutes.js:197 | Patches the given fields; the employee and the date are kept. Text fields are stored sanitized (`Sanitize.Sanitized`), while the checks see the value as sent. |
| Receipts.UpdateReceipt | src/routes/receiptRoutes.js:175-206 | Checks 400, then 403, then 404 unless the (receipt id, employee id) pair matches. Only that receipt changes. |
| Receipts.DeleteReceipt | src/routes/receiptRoutes.js:238-257 | Checks 403, then 404 for a pair that does not match. Exactly that receipt is removed. |
| Expenses.ByDateDescIsPreorder | src/routes/expenseRoutes.js:23 | Date descending is a total preorder. |
| Expenses.ListExpenses | src/routes/expenseRoutes.js:20-26 | Staff only (403). Every expense, as a permutation, sorted by date descending. |
| Expenses.CreateExpense | src/routes/expenseRoutes.js:64-85 | Any authenticated caller; 400 iff the category is empty or the amount is below 0. The expense is dated now and `createdBy` is the caller's id. Text fields are stored sanitized (`Sanitize.Sanitized`), while the checks see the value as sent. |
| Expenses.ApplyExpenseChanges | src/routes/expenseRoutes.js:146 | Patches the given fields; the date and the creator are kept. Text fields are stored sanitized (`Sanitize.Sanitized`), while the checks see the value as sent. |
| Expenses.UpdateExpense | src/routes/expenseRoutes.js:127-154 | Checks 400, then 404 for an unknown id before the permission check, then 403 unless the caller is staff or the creator. Only that expense changes. |
| Expenses.DeleteExpense | src/routes/expenseRoutes.js:182-198 | Checks 404, then 403 for a caller who is neither staff nor the creator. Exactly that expense is removed. |
| Salaries.NetOfDeduction | src/routes/salaryRoutes.js:124-133 | `Math.max(0, base - base * pct / 100)` is never negative. |
| Salaries.NetOfDeductionBounds | src/routes/salaryRoutes.js:124-133 | For a percentage in [0, 100] and a non-negative base, the net lies in [0, base]. A 0 % deduction keeps the base. |
| Salaries.SalaryFor | src/routes/salaryRoutes.js:92-136 | The base is the sum of the employee's receipts and sales dated within [periodStart, periodEnd], both ends inclusive. The total is the base net of the deduction. The percentage and the period bounds are copied unchanged. |
| Salaries.DateOnlyEndDropsLastDay | src/routes/salaryRoutes.js:92-101 | When periodEnd is a plain date, it is that day's midnight. A receipt later on that day does not count towards the salary. |
| Salaries.SalaryBounds | src/routes/salaryRoutes.js:124-133 | With non-negative amounts and a percentage in [0, 100], 0 ≤ totalSalary ≤ baseSalary. |
| Salaries.OtherRecordsIgnored | src/routes/salaryRoutes.js:92-110 | Receipts and sales of other employees, or dated outside the period, leave a salary unchanged. |
| Salaries.SalaryForDependsOnTotal | src/routes/salaryRoutes.js:116-121 | The salary depends on nothing but the employee, the period and the period's totals; in particular not on any admin charge. |
| Salaries.InPeriodReceiptCounts | src/routes/salaryRoutes.js:92-101 | One more receipt of the employee within the period raises the base by its amount. |
| Salaries.Payroll | src/routes/salaryRoutes.js:87-139 | One salary per employee, in employee order, each with a non-negative total. |
| Salaries.StoreSalaries | src/routes/salaryRoutes.js:129-138 | Inserts the salaries under consecutive fresh keys and returns them in order. |
| Salaries.GenerateSalaries | src/routes/salaryRoutes.js:80-143 | Staff only (403); 400 without a valid period. Answers 201 with one stored salary per employee, each equal to SalaryFor. No row is written on an error, and stored totals stay non-negative. |
| Salaries.ListSalaries | src/routes/salaryRoutes.js:27-45 | 403 iff the own-employee gate fails. Otherwise exactly that employee's salaries, as a permutation, sorted by periodEnd descending. |
| Analytics.MonthWindowExact | src/routes/analyticsRoutes.js:27-28 | The window of a month contains an instant iff the instant's calendar month is that month. |
| Analytics.SqlSum | src/routes/analyticsRoutes.js:31-37 | `Model.sum` is NULL iff no row is selected, and otherwise the sum. |
| Analytics.MonthSum | src/routes/analyticsRoutes.js:31-64 | `sum(...) \|\| 0` is the sum of the selection, and 0 when nothing is selected. |
| Analytics.ChargeAmount | src/routes/analyticsRoutes.js:67-70 | A missing admin charge counts as 0. |
| Analytics.Totals | src/routes/analyticsRoutes.js:31-73 | Each month total sums the rows dated in the window; salaries are selected by periodStart. Also `netProfit = sales + receipts - expenses - salaries - adminCharges`. |
| Analytics.EmptyMonth | src/routes/analyticsRoutes.js:31-73 | With no rows and no charge, every figure, the net profit included, is 0. |
| Analytics.SaleInMonthAdds | src/routes/analyticsRoutes.js:31-73 | One more sale in the month raises totalSales and netProfit by its amount. |
| Analytics.ExpenseInMonthSubtracts | src/routes/analyticsRoutes.js:49-73 | One more expense in the month lowers netProfit by its amount. |
| Analytics.OutsideMonthIgnored | src/routes/analyticsRoutes.js:31-73 | Sales and expenses dated outside the window change no figure. |
| Analytics.PerformanceOf | src/routes/analyticsRoutes.js:102-108 | An employee's entry: in-window sales, in-window receipts, and total = totalSales + totalReceipts. |
| Analytics.PerformanceIsPeriodTotal | src/routes/analyticsRoutes.js:102-108 | An employee's dashboard total equals the salary base for the same window. |
| Analytics.TopEmployees | src/routes/analyticsRoutes.js:102-109 | At most 5 entries, non-increasing by total, and a sub-multiset of the employees' entries, so no entry is listed twice. Every employee left out has a total at most the last one listed. |
| Analytics.PopularityOf | src/routes/analyticsRoutes.js:128-133 | salesCount is the number of in-window sales of the package; totalRevenue is their sum. |
| Analytics.PopularityIgnoresActive | src/routes/analyticsRoutes.js:112-126 | An inactive package is ranked like an active one: the flag is not filtered. |
| Analytics.TopPackages | src/routes/analyticsRoutes.js:128-134 | At most 5 entries, a sub-multiset of the packages' entries, ranked by salesCount descending, not by revenue. Every package left out has at most the last listed count. |
| Analytics.GetDashboard | src/routes/analyticsRoutes.js:20-146 | Staff only (403). The body is the month totals, the top employees and the top packages of the current month's window. The window is the corrected `Analytics.MonthWindow`, which covers the whole last day; the route as written uses `Analytics.MonthWindowAsWritten`. |
| Analytics.MonthsParam | src/routes/analyticsRoutes.js:175 | A missing, non-numeric or 0 `months` means 12. Any other value is kept. |
| Analytics.LabelFormat | src/routes/analyticsRoutes.js:212 | A label is the year, `-`, and the month as exactly two digits. |
| Analytics.LabelInjective | src/routes/analyticsRoutes.js:212 | Distinct months give distinct labels. |
| Analytics.MonthPoint | src/routes/analyticsRoutes.js:184-216 | A series entry sums the month's sales, receipts and expenses over the corrected `Analytics.MonthWindow`, with totalRevenue = sales + receipts. |
| Analytics.SeriesEntryAt | src/routes/analyticsRoutes.js:178-216 | The k-th entry of the series is the month `months - 1 - k` months before the current one. |
| Analytics.SeriesMonthsDistinct | src/routes/analyticsRoutes.js:178-182 | No month appears twice in the series. |
| Analytics.RevenueSeries | src/routes/analyticsRoutes.js:173-220 | Staff only (403). For `months` ≥ 1 there are exactly `months` entries, oldest first, ending at the current month; a negative value gives none. Each entry uses the corrected month window and plain month arithmetic. |
| Analytics.AsWrittenWindowCounterexample | src/routes/analyticsRoutes.js:27-28 | A sale at noon on the last day of January lies outside the window as written. |
| Analytics.AsWrittenWindowMisses | src/routes/analyticsRoutes.js:27-28 | As written, the window holds the month's instants except those after midnight of its last day. |
| Analytics.AsWrittenSeriesRepeatsMonth | src/routes/analyticsRoutes.js:179-182 | As written, on 31 March 2024 the entries for i = 1 and i = 0 both fall in March 2024. |
| Analytics.AsWrittenAgreesEarlyInMonth | src/routes/analyticsRoutes.js:179-182 | On days 1 to 28 the `setMonth` step agrees with plain month arithmetic. |
| Users.PasswordRule | src/routes/userRoutes.js:95 | A password is accepted iff it has at least 14 characters and its first character is in `[A-Za-z\d@$!%*?&]`. A lowercase letter, an uppercase letter, a digit and one of `@$!%*?&` must each occur before the first line break. |
| Users.PasswordRuleSingleLine | src/routes/userRoutes.js:95 | On one line: accepted iff the length, the first character and the occurrence of each of the four classes hold. |
| Users.PasswordSuffixFree | src/routes/userRoutes.js:95 | Without an end anchor, anything appended to an accepted password is accepted. |
| Users.PasswordWithoutUpperRejected | src/routes/userRoutes.js:95 | A password with no uppercase letter is refused. |
| Users.PasswordSymbolAfterBreakRejected | src/routes/userRoutes.js:95 | A symbol that only appears after a line break does not satisfy the lookahead. |
| Users.DeductionOrDefault | src/routes/userRoutes.js:99-102 | An absent deductionPercentage becomes 0; a given one, checked to lie in [0, 100], is kept. |
| Users.UploadNameRoundTrip | src/routes/userRoutes.js:124-142 | A stored name `prefix_timestamp_name` always gives back its time stamp and original file name. |
| Users.NewUserRecord | src/routes/userRoutes.js:148-154 | The new user's role is always `user`, whatever the body asks, and it is active. It stores the password hash and the uploaded avatar's name. The username is stored sanitized (`Sanitize.Sanitized`). |
| Users.NewEmployeeRecord | src/routes/userRoutes.js:157-166 | The employee row points to the new user's id and takes the body's fields and the default percentage. It stores the upload names, or nothing for a missing file. Text fields are stored sanitized (`Sanitize.Sanitized`), while the checks see the value as sent. |
| Users.CreateUser | src/routes/userRoutes.js:92-178 | Checks 403, then 400 on validation. A registered e-mail gets 400 "User already exists" and changes nothing. Otherwise a user row and an employee row linked to it are created, and unique e-mails and usernames are kept. Text fields are stored sanitized (`Sanitize.Sanitized`), while the checks see the value as sent. |
| Users.ApplyUserChanges | src/routes/userRoutes.js:236 | The fields given overwrite username, e-mail, role and isActive. The password hash and the avatar are kept. Text fields are stored sanitized (`Sanitize.Sanitized`), while the checks see the value as sent. |
| Users.UpdateUser | src/routes/userRoutes.js:221-247 | Checks 403, then 400, then 404 "User not found" for an unknown id. Only that user row changes. |
| Users.UpdateDeduction | src/routes/userRoutes.js:287-308 | Checks 403, then 400 unless the percentage is in [0, 100]. Looks the employee up by user id and answers 404 when there is none. Only its deductionPercentage changes. |
| Users.DeleteUser | src/routes/userRoutes.js:335-346 | superAdmin only (403), then 404. Exactly that user row is removed. |
| Users.ListUsers | src/routes/userRoutes.js:24-30 | 403 iff the caller is not staff. Otherwise one view per user. |
| Users.ListedUsersShown | src/routes/userRoutes.js:26-28 | Each view shows the user's columns without the password hash, along with the user's own employee row. |
| Users.ListedUsersComplete | src/routes/userRoutes.js:26-28 | Every user row appears in the listing. |
| Users.ListedUsersOrdered | src/routes/userRoutes.js:26-28 | The listing is in primary-key order. |

## Left out

- Express plumbing is not modelled: helmet, rate limiting, CORS, CSRF, the upload middleware, Swagger, static serving and `listen`. They are framework I/O.
- JWT signing and verification are left out. `Server.Authenticate` takes the verifier as a function parameter.
- scrypt hashing is left out. `Users.CreateUser` takes the hash as a function parameter.
- The clock is a parameter. `Date.now()` and `new Date()` become the `now` instant or an upload's time stamp.
- Moving uploaded files to disk is left out. Only their stored names are modelled.
- The `normalizeEmail` sanitizer is left out: an e-mail is stored as sent. `trim` and `escape` are modelled in `Sanitize`: the validators see the value as sent and the sanitized value is stored. `isEmail`, `isISO8601`, `isInt` and `isBoolean` are folded into the `Field` type: `Missing`, `Malformed` or `Given`.
- Server.ValidateRequest: the validator's error objects are left out. A failing route answers the fixed message "Validation failed" in place of the list.
- Users.PasswordRule: `isLength` does not count the variation selectors U+FE0E and U+FE0F towards the length. The model counts every character. The same holds for the username's `isLength({ min: 3 })`.
- DECIMAL(10,2) and DECIMAL(5,2) rounding and JavaScript floating point are left out. Amounts are exact reals, so `parseFloat` and number sums are exact.
- Time zones are left out. Every instant is local time.
- Database collation, and the order of rows that tie under `ORDER BY`, are left out. The listings are stated as sorted permutations and do not fix an order among ties.
- Ordering.Top: JavaScript's `sort` is stable, so employees or packages with equal totals keep their input order in the top-5 lists. The model states a sorted sub-multiset and leaves the order among ties open, so `Analytics.TopEmployees` and `Analytics.TopPackages` do not fix which of several tied entries fills the last place.
- Update routes pass the whole request body to `update`. Keys other than the validated ones are left out, so an update writes only the validated fields. Sale and receipt updates can therefore not rewrite employeeId or date. In the route, an employee who passes the own-employee gate can send a new employeeId or date and so move a sale or receipt to another employee or period, which changes the salaries generated later.
- Users.DeleteUser: removes only the users row. The database's foreign-key actions on the employee row are not modelled.
- Users.CreateUser: a database error other than the unique indexes on e-mail and username is left out. The username clash is modelled as the 500 answer of the failing insert.
- Path parameters are taken as integers. A non-numeric id, which would make the query match nothing or fail, is left out.
- Roles outside `user`, `admin` and `superAdmin` are not modelled. The role column is an enumeration.
- The `include` of the related package, employee and user in the sale and receipt responses is left out. The responses carry the row itself.
- Salaries.GenerateSalaries: the admin charge the route fetches for the period is never used. The model does not fetch it, which `Salaries.SalaryForDependsOnTotal` justifies.
- Analytics.MonthPoint: an entry keeps the year and the month. Its `YYYY-MM` label is `Analytics.MonthKey`. It sums over the corrected `Analytics.MonthWindow`; the route as written ends the window at midnight of the last day, as `Analytics.AsWrittenWindowMisses` states.
- Analytics.GetDashboard: the month window is the corrected `Analytics.MonthWindow`. The route as written uses `Analytics.MonthWindowAsWritten`, which leaves out the last day after midnight (see Findings).
- Analytics.RevenueSeries: the entries use the corrected month window and plain month arithmetic. The route as written steps back with `setMonth`, which `Analytics.AsWrittenSeriesRepeatsMonth` shows can repeat a month.
- AdminCharges.CreateCharge: handlers are modelled as atomic. Two requests that interleave at an `await` are not modelled, and `src/models/AdminCharge.js` declares no unique index behind the period check, so two such requests could both create a charge for one period.
- Salaries.GenerateSalaries: the model's database never fails. In the route, a database error in the middle of the loop answers 500 but keeps the salary rows already inserted, since there is no transaction. The model's "no row is written on an error" covers only the 403 and 400 answers.
- Salaries.GenerateSalaries: the period bounds are taken as given. A plain-date periodEnd is its midnight, so the rest of the last day is excluded as in the route (`Salaries.DateOnlyEndDropsLastDay`).
- The following wiring defects are modelled as the handlers intend:
  - `validateRequest` is passed uncalled where a validation list is expected;
  - `User` is used without being imported in `src/routes/saleRoutes.js` (lines 44, 134 and 214) and `src/routes/receiptRoutes.js` (lines 42, 123 and 200). As written, `Sales.ListSales` and `Receipts.ListReceipts` would answer 500 before reading any row. `Sales.CreateSale`, `Sales.UpdateSale`, `Receipts.CreateReceipt` and `Receipts.UpdateReceipt` would answer 500 after the row is already written, so the client sees an error for a change that was stored. The model answers as the handlers intend: the row is written and returned;
  - the admin-charge `amount` column is absent from the model file.
- `src/lib/tokens.js`, `src/lib/auth.js`, the Sequelize model index and the React front end are not part of this model.

## Findings

| source | as written | input that shows it | evidently intended | confidence | as-written member | corrected member |
|---|---|---|---|---|---|---|
| src/routes/analyticsRoutes.js:27-28 | The month window (here and again at lines 184-185) ends at `new Date(y, m, 0)`, which is midnight at the start of the month's last day, and `Op.between` includes that bound. | A sale stamped 2024-01-31 12:00 is outside January's window and is counted in no month. | Every instant of the month's last day belongs to the month. | not executed | Analytics.AsWrittenWindowCounterexample | Analytics.MonthWindowExact |
| src/routes/analyticsRoutes.js:179-182 | Each entry steps back from today with `setMonth(getMonth() - i)`, which keeps the day of the month and lets it overflow. | On 2024-03-31 the entry for i = 1 lands on 2 March, so both i = 1 and i = 0 report 2024-03, and February is missing. | The entry for i is the calendar month i months before the current one. | not executed | Analytics.AsWrittenSeriesRepeatsMonth | Analytics.SeriesMonthsDistinct |

/** The user routes: the staff list of accounts, the creation of a user
    together with its employee record (request validators, the duplicate
    e-mail check, the forced role and the stored upload names), the account
    update, the deduction-percentage update and the superAdmin-only delete. */
module Users {

  import opened Common
  import opened Sanitize
  import opened Text
  import opened Calendar
  import opened Tables
  import opened Records
  import opened Server
  import opened Access

  const UserExists: string := "User already exists"
  const UserNotFound: string := "User not found"
  const EmployeeNotFound: string := "Employee not found"

  // The password rule: `isLength({ min: 14 })` and the pattern
  // `^(?=.*[a-z])(?=.*[A-Z])(?=.*\d)(?=.*[@$!%*?&])[A-Za-z\d@$!%*?&]`.

  /** The characters `.` does not match in a pattern without the `s` flag. */
  predicate IsLineTerminator(c: char) {
    c == '\n' || c == '\r' || c == '\U{2028}' || c == '\U{2029}'
  }

  predicate IsLower(c: char) {
    'a' <= c <= 'z'
  }

  predicate IsUpper(c: char) {
    'A' <= c <= 'Z'
  }

  /** `[@$!%*?&]`. */
  predicate IsPasswordSymbol(c: char) {
    c == '@' || c == '$' || c == '!' || c == '%' || c == '*' || c == '?' || c == '&'
  }

  /** `[A-Za-z\d@$!%*?&]`. */
  predicate IsPasswordChar(c: char) {
    IsLower(c) || IsUpper(c) || IsDigit(c) || IsPasswordSymbol(c)
  }

  /** The lookahead `(?=.*[class])` tried at position i, as backtracking
      over `.*` decides it: scan forward for a character of the class, and
      give up at a line terminator or at the end of the input. */
  function LookaheadFrom(s: string, i: nat, cls: char -> bool): bool
    decreases |s| - i
  {
    if i >= |s| then false
    else if cls(s[i]) then true
    else if IsLineTerminator(s[i]) then false
    else LookaheadFrom(s, i + 1, cls)
  }

  /** A character of the class occurs at or after i, before any line terminator. */
  predicate FoundBeforeBreak(s: string, i: nat, cls: char -> bool) {
    exists k :: i <= k < |s| && cls(s[k]) && forall j :: i <= j < k ==> !IsLineTerminator(s[j])
  }

  /** The scan succeeds exactly when such a character exists. */
  lemma {:induction false} LookaheadFromMeaning(s: string, i: nat, cls: char -> bool)
    ensures LookaheadFrom(s, i, cls) <==> FoundBeforeBreak(s, i, cls)
    decreases |s| - i
  {
    if i < |s| && !cls(s[i]) {
      if IsLineTerminator(s[i]) {
        forall k | i <= k < |s| && cls(s[k]) ensures i <= i < k && IsLineTerminator(s[i]) {
          assert k != i;
        }
      } else {
        LookaheadFromMeaning(s, i + 1, cls);
        if FoundBeforeBreak(s, i + 1, cls) {
          var k :| i + 1 <= k < |s| && cls(s[k]) && forall j :: i + 1 <= j < k ==> !IsLineTerminator(s[j]);
          assert forall j :: i <= j < k ==> !IsLineTerminator(s[j]);
        }
        if FoundBeforeBreak(s, i, cls) {
          var k :| i <= k < |s| && cls(s[k]) && forall j :: i <= j < k ==> !IsLineTerminator(s[j]);
          assert k != i;
          assert FoundBeforeBreak(s, i + 1, cls);
        }
      }
    } else if i < |s| {
      assert FoundBeforeBreak(s, i, cls);
    }
  }

  /** The pattern: four lookaheads from the start, then one character of the
      set. There is no end anchor, so the rest of the input is free. */
  predicate PasswordPattern(s: string) {
    LookaheadFrom(s, 0, IsLower) && LookaheadFrom(s, 0, IsUpper)
    && LookaheadFrom(s, 0, IsDigit) && LookaheadFrom(s, 0, IsPasswordSymbol)
    && |s| > 0 && IsPasswordChar(s[0])
  }

  /** The `password` validator of POST /. */
  predicate StrongPassword(s: string) {
    |s| >= 14 && PasswordPattern(s)
  }

  /** The rule in words: at least 14 characters, a lowercase letter, an
      uppercase letter, a digit and a symbol before the first line break,
      and a first character from the allowed set. */
  lemma PasswordRule(s: string)
    ensures StrongPassword(s) <==>
              |s| >= 14 && IsPasswordChar(s[0])
              && FoundBeforeBreak(s, 0, IsLower) && FoundBeforeBreak(s, 0, IsUpper)
              && FoundBeforeBreak(s, 0, IsDigit) && FoundBeforeBreak(s, 0, IsPasswordSymbol)
  {
    LookaheadFromMeaning(s, 0, IsLower);
    LookaheadFromMeaning(s, 0, IsUpper);
    LookaheadFromMeaning(s, 0, IsDigit);
    LookaheadFromMeaning(s, 0, IsPasswordSymbol);
  }

  /** Some character of the input belongs to the class. */
  predicate Contains(s: string, cls: char -> bool) {
    exists k :: 0 <= k < |s| && cls(s[k])
  }

  /** On a single line the lookaheads only ask that each class occurs somewhere. */
  lemma PasswordRuleSingleLine(s: string)
    requires forall i :: 0 <= i < |s| ==> !IsLineTerminator(s[i])
    ensures StrongPassword(s) <==>
              |s| >= 14 && IsPasswordChar(s[0])
              && Contains(s, IsLower) && Contains(s, IsUpper) && Contains(s, IsDigit) && Contains(s, IsPasswordSymbol)
  {
    PasswordRule(s);
  }

  /** Without an end anchor, whatever follows an accepted password is accepted too. */
  lemma PasswordSuffixFree(s: string, t: string)
    requires StrongPassword(s)
    ensures StrongPassword(s + t)
  {
    PasswordRule(s);
    PasswordRule(s + t);
    var u := s + t;
    forall cls: char -> bool | FoundBeforeBreak(s, 0, cls) ensures FoundBeforeBreak(u, 0, cls) {
      var k :| 0 <= k < |s| && cls(s[k]) && forall j :: 0 <= j < k ==> !IsLineTerminator(s[j]);
      assert u[k] == s[k];
      assert forall j :: 0 <= j < k ==> u[j] == s[j];
    }
    assert u[0] == s[0];
  }

  /** Accepted and rejected passwords: a symbol after a line break does not
      satisfy the lookahead, and neither does a leading space. */
  lemma PasswordAccepted()
    ensures StrongPassword("Abcdefghijk1@x")
  {
  }

  lemma PasswordWithoutUpperRejected()
    ensures !StrongPassword("abcdefghijk1@x")
  {
    var s := "abcdefghijk1@x";
    assert s == "abcdefghijk" + "1@x";
    LookaheadAbsent(s, 0, IsUpper);
  }

  /** The scan fails when no character from i onwards belongs to the class. */
  lemma {:induction false} LookaheadAbsent(s: string, i: nat, cls: char -> bool)
    requires forall k :: i <= k < |s| ==> !cls(s[k])
    ensures !LookaheadFrom(s, i, cls)
    decreases |s| - i
  {
    if i < |s| {
      LookaheadAbsent(s, i + 1, cls);
    }
  }

  lemma PasswordSymbolAfterBreakRejected()
    ensures !StrongPassword("Abcdefghijkl1\n@")
  {
    var s := "Abcdefghijkl1\n@";
    LookaheadFromMeaning(s, 0, IsPasswordSymbol);
    assert forall k :: 0 <= k < 14 ==> !IsPasswordSymbol(s[k]);
    assert IsLineTerminator(s[13]);
  }

  lemma PasswordLeadingSpaceRejected()
    ensures !StrongPassword(" Abcdefghijk1@")
  {
  }

  // The other validators of POST /.

  /** `isFloat({ min: 0, max: 100 })` on a required field. */
  predicate PercentageGiven(f: Field<real>) {
    f.Given? && 0.0 <= f.value <= 100.0
  }

  /** `optional().isFloat({ min: 0, max: 100 })`. */
  predicate OptionalPercentage(f: Field<real>) {
    f.Missing? || PercentageGiven(f)
  }

  /** `deductionPercentage = 0` in the destructuring: the default for an absent field. */
  function DeductionOrDefault(f: Field<real>): (pct: real)
    requires OptionalPercentage(f)
    ensures 0.0 <= pct <= 100.0
    ensures f.Missing? ==> pct == 0.0
    ensures f.Given? ==> pct == f.value
  {
    if f.Given? then f.value else 0.0
  }

  /** The body of POST /. The text fields hold what the client sent, which
      the checks see; `email` holds the address as sent, once `isEmail` has
      accepted it (`normalizeEmail` is not modelled); `role` is whatever role the body names,
      which the handler ignores. */
  datatype NewUser = NewUser(
    username: string,
    email: Field<string>,
    password: string,
    name: string,
    position: string,
    hireDate: Field<Instant>,
    deductionPercentage: Field<real>,
    role: Field<Role>)

  predicate ValidNewUser(b: NewUser) {
    |b.username| >= 3 && b.email.Given? && StrongPassword(b.password)
    && NotEmpty(b.name) && NotEmpty(b.position) && b.hireDate.Given?
    && OptionalPercentage(b.deductionPercentage)
  }

  // Uploaded files.

  /** An attached file: its original name and the `Date.now()` read when it is stored. */
  datatype Upload = Upload(name: string, stamp: nat)

  /** The four optional files of the multipart body (none when `req.files` is unset). */
  datatype Uploads = Uploads(
    avatar: Option<Upload>,
    contract: Option<Upload>,
    employmentDeclaration: Option<Upload>,
    certification: Option<Upload>)

  const AvatarPrefix: string := "avatar"
  const ContractPrefix: string := "contract"
  const DeclarationPrefix: string := "employment_declaration"
  const CertificationPrefix: string := "certification"

  /** `${prefix}_${Date.now()}_${file.name}`. */
  function UploadName(prefix: string, stamp: nat, name: string): string {
    prefix + "_" + NatToString(stamp) + "_" + name
  }

  /** The path stored for one file field: null when no file was attached. */
  function StoredName(prefix: string, file: Option<Upload>): Option<string> {
    if file.None? then None else Some(UploadName(prefix, file.value.stamp, file.value.name))
  }

  /** Reading a stored name back: the prefix and "_", the digits of the
      stamp up to the next "_", and the original name after it. */
  function ParseUploadName(prefix: string, s: string): Option<(nat, string)> {
    var head := prefix + "_";
    if |s| < |head| || s[..|head|] != head then None
    else
      var rest := s[|head|..];
      match IndexOf(rest, "_", 0)
      case None => None
      case Some(k) =>
        if k == 0 || !AllDigits(rest[..k]) then None
        else Some((DigitsValue(rest[..k]), rest[k + 1..]))
  }

  /** In `digits_name`, the first "_" is the one after the digits. */
  lemma FirstUnderscore(digits: string, name: string)
    requires AllDigits(digits)
    ensures IndexOf(digits + "_" + name, "_", 0) == Some(|digits|)
  {
    var rest := digits + "_" + name;
    assert OccursAt(rest, "_", |digits|) by {
      assert rest[|digits|..|digits| + 1] == "_";
    }
    forall j | 0 <= j < |digits| ensures !OccursAt(rest, "_", j) {
      assert rest[j..j + 1] == [digits[j]];
    }
  }

  /** A stored name determines the time stamp and the original file name. */
  lemma UploadNameRoundTrip(prefix: string, stamp: nat, name: string)
    ensures ParseUploadName(prefix, UploadName(prefix, stamp, name)) == Some((stamp, name))
  {
    var head := prefix + "_";
    var digits := NatToString(stamp);
    var s := UploadName(prefix, stamp, name);
    var rest := digits + "_" + name;
    assert s == head + rest;
    assert s[..|head|] == head && s[|head|..] == rest;
    FirstUnderscore(digits, name);
    assert rest[..|digits|] == digits && rest[|digits| + 1..] == name;
    NatToStringRoundTrip(stamp);
  }

  /** The users row POST / creates: the role is always 'user'. */
  function NewUserRecord(b: NewUser, files: Uploads, hash: string -> string): (u: User)
    requires ValidNewUser(b)
    ensures u.role == UserRole && u.isActive
    ensures u.username == Sanitized(b.username) && u.email == b.email.value && u.passwordHash == hash(b.password)
    ensures u.avatar == StoredName(AvatarPrefix, files.avatar)
  {
    User(Sanitized(b.username), b.email.value, hash(b.password), UserRole, StoredName(AvatarPrefix, files.avatar), true)
  }

  /** The employees row POST / creates for the new user. */
  function NewEmployeeRecord(userId: int, b: NewUser, files: Uploads): (e: Employee)
    requires ValidNewUser(b)
    ensures e.userId == userId && e.name == Sanitized(b.name) && e.position == Sanitized(b.position)
    ensures e.hireDate == b.hireDate.value
    ensures e.deductionPercentage == DeductionOrDefault(b.deductionPercentage)
    ensures e.contract == StoredName(ContractPrefix, files.contract)
    ensures e.employmentDeclaration == StoredName(DeclarationPrefix, files.employmentDeclaration)
    ensures e.certification == StoredName(CertificationPrefix, files.certification)
  {
    Employee(userId, Sanitized(b.name), Sanitized(b.position), b.hireDate.value, DeductionOrDefault(b.deductionPercentage),
             StoredName(ContractPrefix, files.contract),
             StoredName(DeclarationPrefix, files.employmentDeclaration),
             StoredName(CertificationPrefix, files.certification))
  }

  // The tables and the invariant the routes keep.

  /** The UNIQUE index on users.email. */
  ghost predicate UniqueEmails(rows: map<int, User>) {
    forall j, k :: j in rows && k in rows && rows[j].email == rows[k].email ==> j == k
  }

  /** The UNIQUE index on users.username. */
  ghost predicate UniqueUsernames(rows: map<int, User>) {
    forall j, k :: j in rows && k in rows && rows[j].username == rows[k].username ==> j == k
  }

  /** Every employee's userId was handed out by the users counter. */
  ghost predicate UserIdsIssued(employeeRows: map<int, Employee>, userNext: int) {
    forall k :: k in employeeRows ==> employeeRows[k].userId < userNext
  }

  /** What the two tables keep between requests: both unique indexes, at
      most one employee per user, and no employee ahead of the users. */
  ghost predicate Linked(userRows: map<int, User>, userNext: int, employeeRows: map<int, Employee>) {
    UniqueEmails(userRows) && UniqueUsernames(userRows)
    && OneEmployeePerUser(employeeRows) && UserIdsIssued(employeeRows, userNext)
  }

  ghost predicate Consistent(users: Table<User>, employees: Table<Employee>)
    reads users, employees
  {
    users.Valid() && employees.Valid() && Linked(users.rows, users.nextId, employees.rows)
  }

  /** The `where: { email }` condition. */
  function EmailIs(email: string): User -> bool {
    (u: User) => u.email == email
  }

  predicate EmailTaken(rows: map<int, User>, email: string) {
    exists k :: k in rows && rows[k].email == email
  }

  /** The UNIQUE index on username rejects an insert exactly when a row holds it. */
  predicate UsernameTaken(rows: map<int, User>, username: string) {
    exists k :: k in rows && rows[k].username == username
  }

  /** Creating a user under the next id with a free e-mail and username,
      and its employee under a fresh key, keeps the tables linked. */
  lemma CreateKeepsLinked(userRows: map<int, User>, userNext: int, employeeRows: map<int, Employee>,
                          employeeId: int, u: User, e: Employee)
    requires Linked(userRows, userNext, employeeRows)
    requires userNext !in userRows && employeeId !in employeeRows && e.userId == userNext
    requires !EmailTaken(userRows, u.email) && !UsernameTaken(userRows, u.username)
    ensures Linked(userRows[userNext := u], userNext + 1, employeeRows[employeeId := e])
  {
    var us := userRows[userNext := u];
    var es := employeeRows[employeeId := e];
    assert forall j :: j in us && j != userNext ==> j in userRows && us[j] == userRows[j];
    assert forall j :: j in es && j != employeeId ==> j in employeeRows && es[j] == employeeRows[j];
    assert forall j :: j in employeeRows ==> employeeRows[j].userId != userNext;
  }

  /** The UNIQUE indexes reject an update exactly when another row already
      holds the e-mail or the username of `u`. */
  predicate ClashesWithOther(rows: map<int, User>, id: int, u: User) {
    exists k :: k in rows && k != id && (rows[k].email == u.email || rows[k].username == u.username)
  }

  /** Rewriting a user with an e-mail and a username no other row holds
      keeps the tables linked. */
  lemma UpdateKeepsLinked(userRows: map<int, User>, userNext: int, employeeRows: map<int, Employee>, id: int, v: User)
    requires Linked(userRows, userNext, employeeRows) && id in userRows
    requires !ClashesWithOther(userRows, id, v)
    ensures Linked(userRows[id := v], userNext, employeeRows)
  {
    var us := userRows[id := v];
    assert forall j :: j in us && j != id ==> j in userRows && us[j] == userRows[j];
  }

  /** Rewriting an employee without changing its userId keeps the tables linked. */
  lemma EmployeeUpdateKeepsLinked(userRows: map<int, User>, userNext: int, employeeRows: map<int, Employee>, id: int, e: Employee)
    requires Linked(userRows, userNext, employeeRows) && id in employeeRows
    requires e.userId == employeeRows[id].userId
    ensures Linked(userRows, userNext, employeeRows[id := e])
  {
    var es := employeeRows[id := e];
    assert forall k :: k in es ==> es[k].userId == employeeRows[k].userId;
  }

  /** Removing a user keeps the tables linked (the counter does not move). */
  lemma DeleteKeepsLinked(userRows: map<int, User>, userNext: int, employeeRows: map<int, Employee>, id: int)
    requires Linked(userRows, userNext, employeeRows)
    ensures Linked(userRows - {id}, userNext, employeeRows)
  {
    var us := userRows - {id};
    assert forall k :: k in us ==> k in userRows && us[k] == userRows[k];
  }

  /** The 201 body: the new user without its password hash, and its employee. */
  datatype CreatedUser = CreatedUser(
    id: int,
    username: string,
    email: string,
    role: Role,
    avatar: Option<string>,
    employee: Row<Employee>)

  /** POST /: staff only. A registered e-mail gives 400 and a taken username
      fails the UNIQUE index (500), both without any change; otherwise one
      users row with role 'user' and one employees row pointing to it. */
  method CreateUser(caller: Principal, users: Table<User>, employees: Table<Employee>,
                    body: NewUser, files: Uploads, hash: string -> string) returns (r: Response<CreatedUser>)
    requires Consistent(users, employees)
    modifies users, employees
    ensures Consistent(users, employees)
    ensures !IsStaff(caller.role) ==> r == Err(403, InsufficientPermissions)
    ensures IsStaff(caller.role) && !ValidNewUser(body) ==> r == Err(400, ValidationFailed)
    ensures IsStaff(caller.role) && ValidNewUser(body) && EmailTaken(old(users.rows), body.email.value)
            ==> r == Err(400, UserExists)
    ensures (IsStaff(caller.role) && ValidNewUser(body) && !EmailTaken(old(users.rows), body.email.value)
             && UsernameTaken(old(users.rows), Sanitized(body.username))) ==> r == Err(500, InternalError)
    ensures r.Ok? <==> IsStaff(caller.role) && ValidNewUser(body)
                       && !EmailTaken(old(users.rows), body.email.value)
                       && !UsernameTaken(old(users.rows), Sanitized(body.username))
    ensures r.Ok? ==>
              var u := NewUserRecord(body, files, hash);
              var e := NewEmployeeRecord(old(users.nextId), body, files);
              r == Ok(201, CreatedUser(old(users.nextId), u.username, u.email, u.role, u.avatar, Row(old(employees.nextId), e)))
              && users.rows == old(users.rows)[old(users.nextId) := u] && users.nextId == old(users.nextId) + 1
              && employees.rows == old(employees.rows)[old(employees.nextId) := e]
              && employees.nextId == old(employees.nextId) + 1
    ensures r.Err? ==> users.rows == old(users.rows) && users.nextId == old(users.nextId)
                       && employees.rows == old(employees.rows) && employees.nextId == old(employees.nextId)
  {
    StaffRolesAreStaff(caller);
    var gate := RequireRole(Some(caller), StaffRoles);
    if gate.Stop? {
      return Err(gate.status, gate.message);
    }
    if !ValidNewUser(body) {
      return Err(400, ValidationFailed);
    }
    if users.FindOne(EmailIs(body.email.value)).Some? {
      return Err(400, UserExists);
    }
    if UsernameTaken(users.rows, Sanitized(body.username)) {
      return Err(500, InternalError);
    }
    var userRows, employeeRows := users.rows, employees.rows;
    var u := NewUserRecord(body, files, hash);
    var uid := users.Insert(u);
    var e := NewEmployeeRecord(uid, body, files);
    var eid := employees.Insert(e);
    CreateKeepsLinked(userRows, uid, employeeRows, eid, u, e);
    r := Ok(201, CreatedUser(uid, u.username, u.email, u.role, u.avatar, Row(eid, e)));
  }

  /** The validated fields of the PUT /:id body. */
  datatype UserChanges = UserChanges(
    username: Option<string>,
    email: Field<string>,
    role: Field<Role>,
    isActive: Field<bool>)

  predicate ValidUserChanges(c: UserChanges) {
    (c.username.None? || |c.username.value| >= 3)
    && OptionalWellFormed(c.email) && OptionalWellFormed(c.role) && OptionalWellFormed(c.isActive)
  }

  /** `user.update(updates)`: the fields present overwrite the columns, the
      username with its sanitized text; the password hash and the avatar are kept. */
  function ApplyUserChanges(u: User, c: UserChanges): (v: User)
    ensures v.passwordHash == u.passwordHash && v.avatar == u.avatar
    ensures v.username == (if c.username.Some? then Sanitized(c.username.value) else u.username)
    ensures v.email == (if c.email.Given? then c.email.value else u.email)
    ensures v.role == (if c.role.Given? then c.role.value else u.role)
    ensures v.isActive == (if c.isActive.Given? then c.isActive.value else u.isActive)
  {
    u.(username := PatchText(SanitizedOption(c.username), u.username), email := Patch(c.email, u.email),
       role := Patch(c.role, u.role), isActive := Patch(c.isActive, u.isActive))
  }

  /** The 200 body of PUT /:id. */
  datatype UpdatedUser = UpdatedUser(id: int, username: string, email: string, role: Role, isActive: bool)

  /** PUT /:id: staff only, 404 for an unknown id, 500 when the new e-mail
      or username belongs to another user. */
  method UpdateUser(caller: Principal, users: Table<User>, employees: Table<Employee>, id: int,
                    changes: UserChanges) returns (r: Response<UpdatedUser>)
    requires Consistent(users, employees)
    modifies users
    ensures Consistent(users, employees) && users.nextId == old(users.nextId)
    ensures !IsStaff(caller.role) ==> r == Err(403, InsufficientPermissions)
    ensures IsStaff(caller.role) && !ValidUserChanges(changes) ==> r == Err(400, ValidationFailed)
    ensures IsStaff(caller.role) && ValidUserChanges(changes) && id !in old(users.rows) ==> r == Err(404, UserNotFound)
    ensures (IsStaff(caller.role) && ValidUserChanges(changes) && id in old(users.rows)
             && ClashesWithOther(old(users.rows), id, ApplyUserChanges(old(users.rows)[id], changes))) ==> r == Err(500, InternalError)
    ensures r.Ok? <==> IsStaff(caller.role) && ValidUserChanges(changes) && id in old(users.rows)
                       && !ClashesWithOther(old(users.rows), id, ApplyUserChanges(old(users.rows)[id], changes))
    ensures r.Ok? ==>
              var v := ApplyUserChanges(old(users.rows[id]), changes);
              r == Ok(200, UpdatedUser(id, v.username, v.email, v.role, v.isActive))
              && users.rows == old(users.rows)[id := v]
    ensures r.Err? ==> users.rows == old(users.rows)
  {
    StaffRolesAreStaff(caller);
    var gate := RequireRole(Some(caller), StaffRoles);
    if gate.Stop? {
      return Err(gate.status, gate.message);
    }
    if !ValidUserChanges(changes) {
      return Err(400, ValidationFailed);
    }
    if id !in users.rows {
      return Err(404, UserNotFound);
    }
    var v := ApplyUserChanges(users.rows[id], changes);
    if ClashesWithOther(users.rows, id, v) {
      return Err(500, InternalError);
    }
    UpdateKeepsLinked(users.rows, users.nextId, employees.rows, id, v);
    users.Update(id, v);
    r := Ok(200, UpdatedUser(id, v.username, v.email, v.role, v.isActive));
  }

  /** The 200 body of PUT /:id/deduction-percentage. */
  datatype DeductionView = DeductionView(id: int, userId: int, deductionPercentage: real)

  /** PUT /:id/deduction-percentage: staff only; the path id is a USER id,
      the employee is looked up by it (404 when there is none), and only its
      deduction percentage changes. */
  method UpdateDeduction(caller: Principal, users: Table<User>, employees: Table<Employee>, userId: int,
                         pct: Field<real>) returns (r: Response<DeductionView>)
    requires Consistent(users, employees)
    modifies employees
    ensures Consistent(users, employees) && employees.nextId == old(employees.nextId)
    ensures !IsStaff(caller.role) ==> r == Err(403, InsufficientPermissions)
    ensures IsStaff(caller.role) && !PercentageGiven(pct) ==> r == Err(400, ValidationFailed)
    ensures IsStaff(caller.role) && PercentageGiven(pct) && old(OwnEmployee(employees, userId)).None?
            ==> r == Err(404, EmployeeNotFound)
    ensures r.Ok? <==> IsStaff(caller.role) && PercentageGiven(pct) && old(OwnEmployee(employees, userId)).Some?
    ensures r.Ok? ==>
              var e := old(OwnEmployee(employees, userId)).value;
              r == Ok(200, DeductionView(e.id, userId, pct.value))
              && employees.rows == old(employees.rows)[e.id := e.rec.(deductionPercentage := pct.value)]
    ensures r.Err? ==> employees.rows == old(employees.rows)
  {
    StaffRolesAreStaff(caller);
    var gate := RequireRole(Some(caller), StaffRoles);
    if gate.Stop? {
      return Err(gate.status, gate.message);
    }
    if !PercentageGiven(pct) {
      return Err(400, ValidationFailed);
    }
    var found := OwnEmployee(employees, userId);
    if found.None? {
      return Err(404, EmployeeNotFound);
    }
    var e := found.value;
    EmployeeUpdateKeepsLinked(users.rows, users.nextId, employees.rows, e.id, e.rec.(deductionPercentage := pct.value));
    employees.Update(e.id, e.rec.(deductionPercentage := pct.value));
    r := Ok(200, DeductionView(e.id, userId, pct.value));
  }

  /** DELETE /:id: superAdmin only, 404 for an unknown id. */
  method DeleteUser(caller: Principal, users: Table<User>, employees: Table<Employee>, id: int) returns (r: Response<string>)
    requires Consistent(users, employees)
    modifies users
    ensures Consistent(users, employees) && users.nextId == old(users.nextId)
    ensures caller.role != SuperAdminRole ==> r == Err(403, InsufficientPermissions)
    ensures caller.role == SuperAdminRole && id !in old(users.rows) ==> r == Err(404, UserNotFound)
    ensures r.Ok? <==> caller.role == SuperAdminRole && id in old(users.rows)
    ensures r.Ok? ==> r == Ok(200, "User deleted successfully") && users.rows == old(users.rows) - {id}
    ensures r.Err? ==> users.rows == old(users.rows)
  {
    StaffRolesAreStaff(caller);
    var gate := RequireRole(Some(caller), [SuperAdminRole]);
    if gate.Stop? {
      return Err(gate.status, gate.message);
    }
    if id !in users.rows {
      return Err(404, UserNotFound);
    }
    DeleteKeepsLinked(users.rows, users.nextId, employees.rows, id);
    users.Destroy(id);
    r := Ok(200, "User deleted successfully");
  }

  /** One entry of GET /: the user's columns except passwordHash, and the
      employee record included as `employee` (the first whose userId is the
      user's id, as OwnEmployee states). */
  datatype UserView = UserView(
    id: int,
    username: string,
    email: string,
    role: Role,
    avatar: Option<string>,
    isActive: bool,
    employee: Option<Row<Employee>>)

  /** The view shows every column of the row but the password hash. */
  predicate Shows(v: UserView, u: User) {
    v.username == u.username && v.email == u.email && v.role == u.role
    && v.avatar == u.avatar && v.isActive == u.isActive
  }

  function ViewOf(u: Row<User>, e: Option<Row<Employee>>): UserView {
    UserView(u.id, u.rec.username, u.rec.email, u.rec.role, u.rec.avatar, u.rec.isActive, e)
  }

  function Views(us: seq<Row<User>>, employees: Table<Employee>): (r: seq<UserView>)
    reads employees
    requires employees.Valid()
    ensures |r| == |us|
    ensures forall i :: 0 <= i < |us| ==> r[i].id == us[i].id && Shows(r[i], us[i].rec)
    ensures forall i :: 0 <= i < |us| ==> r[i].employee == OwnEmployee(employees, us[i].id)
  {
    if us == [] then [] else [ViewOf(us[0], OwnEmployee(employees, us[0].id))] + Views(us[1..], employees)
  }

  /** GET /: staff only; the view of every user row, in primary-key order. */
  function ListUsers(caller: Principal, users: Table<User>, employees: Table<Employee>): (r: Response<seq<UserView>>)
    reads users, employees
    requires users.Valid() && employees.Valid()
    ensures r.Err? <==> !IsStaff(caller.role)
    ensures r.Err? ==> r == Err(403, InsufficientPermissions)
    ensures r.Ok? ==> r.status == 200 && |r.value| == |users.All()|
  {
    StaffRolesAreStaff(caller);
    if RequireRole(Some(caller), StaffRoles).Stop? then Err(403, InsufficientPermissions)
    else Ok(200, Views(users.All(), employees))
  }

  /** Each listed entry shows its user row without the password hash,
      with that user's employee record. */
  lemma ListedUsersShown(caller: Principal, users: Table<User>, employees: Table<Employee>)
    requires users.Valid() && employees.Valid() && IsStaff(caller.role)
    ensures var r := ListUsers(caller, users, employees);
            r.Ok? && forall i :: 0 <= i < |r.value| ==>
              r.value[i].id in users.rows && Shows(r.value[i], users.rows[r.value[i].id])
              && r.value[i].employee == OwnEmployee(employees, r.value[i].id)
  {
    var all := users.All();
    var views := Views(all, employees);
    assert ListUsers(caller, users, employees) == Ok(200, views);
  }

  /** Every user is listed, once, in primary-key order. */
  lemma ListedUsersComplete(caller: Principal, users: Table<User>, employees: Table<Employee>)
    requires users.Valid() && employees.Valid() && IsStaff(caller.role)
    ensures var r := ListUsers(caller, users, employees);
            r.Ok? && forall k :: k in users.rows ==> exists i :: 0 <= i < |r.value| && r.value[i].id == k
  {
    var all := users.All();
    var views := Views(all, employees);
    assert ListUsers(caller, users, employees) == Ok(200, views);
    forall k | k in users.rows ensures exists i :: 0 <= i < |views| && views[i].id == k {
      var i :| 0 <= i < |all| && all[i] == Row(k, users.rows[k]);
      assert views[i].id == k;
    }
  }

  /** The listing is in primary-key order. */
  lemma ListedUsersOrdered(caller: Principal, users: Table<User>, employees: Table<Employee>)
    requires users.Valid() && employees.Valid() && IsStaff(caller.role)
    ensures var r := ListUsers(caller, users, employees);
            r.Ok? && forall i, j :: 0 <= i < j < |r.value| ==> r.value[i].id < r.value[j].id
  {
    var all := users.All();
    var views := Views(all, employees);
    assert ListUsers(caller, users, employees) == Ok(200, views);
    forall i, j | 0 <= i < j < |views| ensures views[i].id < views[j].id {
      assert views[i].id == all[i].id && views[j].id == all[j].id;
    }
  }
}

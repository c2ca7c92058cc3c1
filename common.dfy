/** Vocabulary shared by every route of the salon back end: optional values,
    handler responses, user roles, the authenticated caller and the shape of
    request-body fields as the request validators see them. */
module Common {

  datatype Option<T> = None | Some(value: T)

  /** What a route handler sends back: a success status with its body, or an
      error status with the message of the JSON error body. */
  datatype Response<T> = Ok(status: int, value: T) | Err(status: int, error: string)

  /** The three values of the users.role ENUM. */
  datatype Role = UserRole | AdminRole | SuperAdminRole

  /** The decoded access-token payload that authentication stores as req.user. */
  datatype Principal = Principal(id: int, role: Role)

  /** A numeric, boolean or enumerated request-body field: absent, present but
      rejected by its type check (isInt, isFloat, isBoolean, isIn, isISO8601),
      or present with a value of the right kind. */
  datatype Field<T> = Missing | Malformed | Given(value: T)

  /** The message every request validator failure is reported under; the
      list of individual validator messages is not modelled. */
  const ValidationFailed: string := "Validation failed"

  /** The body every handler's catch block sends with status 500. */
  const InternalError: string := "Internal server error"

  /** The role gate that all staff-only checks in the routes use: the role
      is 'admin' or 'superAdmin'. */
  predicate IsStaff(role: Role) {
    role == AdminRole || role == SuperAdminRole
  }

  /** `notEmpty()` on a required string field (an absent field reads as ""). */
  predicate NotEmpty(s: string) {
    |s| > 0
  }

  /** `optional().notEmpty()`: absent, or present and non-empty. */
  predicate OptionalNotEmpty(s: Option<string>) {
    s.None? || |s.value| > 0
  }

  /** `isFloat({ min: lo })` on a required field. */
  predicate RequiredAtLeast(f: Field<real>, lo: real) {
    f.Given? && lo <= f.value
  }

  /** `optional().isFloat({ min: lo })`. */
  predicate OptionalAtLeast(f: Field<real>, lo: real) {
    f.Missing? || (f.Given? && lo <= f.value)
  }

  /** `optional()` followed by a type check with no bounds (isBoolean, isIn). */
  predicate OptionalWellFormed<T>(f: Field<T>) {
    !f.Malformed?
  }

  /** The value a present field overwrites a column with, or the old value. */
  function Patch<T>(f: Field<T>, current: T): (r: T)
    ensures f.Given? ==> r == f.value
    ensures !f.Given? ==> r == current
  {
    if f.Given? then f.value else current
  }

  /** The same for an optional string field. */
  function PatchText(f: Option<string>, current: string): (r: string)
    ensures f.Some? ==> r == f.value
    ensures f.None? ==> r == current
  {
    if f.Some? then f.value else current
  }

  /** The same for an optional string field written to a nullable column. */
  function PatchOptional(f: Option<string>, current: Option<string>): (r: Option<string>)
    ensures f.Some? ==> r == f
    ensures f.None? ==> r == current
  {
    if f.Some? then f else current
  }
}

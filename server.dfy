/** The middleware every route is mounted behind: `isAuthenticated`, which
    picks the access token and stores the decoded payload as req.user,
    `requireRole`, `validateRequest`, and the catch-all GET route. Token
    verification is a parameter: it is a foreign partial function. */
module Server {

  import opened Common
  import opened Text

  /** What a middleware decides: call `next` with what it established, or
      end the request with a status and a message. */
  datatype Pass<T> = Next(value: T) | Stop(status: int, message: string)

  const BearerPrefix: string := "Bearer "
  const NoToken: string := "No access token provided"
  const InvalidToken: string := "Invalid access token"
  const InsufficientPermissions: string := "Insufficient permissions"

  /** The role list every staff-only route passes to requireRole. */
  const StaffRoles: seq<Role> := [AdminRole, SuperAdminRole]

  /** `s.split(sep)[1]`: the piece between the first occurrence of `sep`
      and the next one (or the end of `s`); None when `sep` does not occur. */
  function SecondPiece(s: string, sep: string): (r: Option<string>)
    requires |sep| > 0
    ensures r.Some? <==> IndexOf(s, sep, 0).Some?
    ensures r.Some? ==>
              var j := IndexOf(s, sep, 0).value + |sep|;
              var e := j + |r.value|;
              e <= |s| && s[j..e] == r.value
              && (e == |s| || OccursAt(s, sep, e))
              && forall k :: j <= k < e ==> !OccursAt(s, sep, k)
  {
    match IndexOf(s, sep, 0)
    case None => None
    case Some(i) =>
      var j := i + |sep|;
      match IndexOf(s, sep, j)
      case None => Some(s[j..])
      case Some(k) => Some(s[j..k])
  }

  /** The header half of the token choice: the piece after "Bearer ", when
      it is there and not empty (an empty string is falsy). */
  function HeaderToken(authorization: Option<string>): (r: Option<string>)
    ensures r.Some? ==> r.value != "" && authorization.Some?
    ensures r.Some? ==> SecondPiece(authorization.value, BearerPrefix) == r
  {
    if authorization.None? then None
    else
      var piece := SecondPiece(authorization.value, BearerPrefix);
      if piece.Some? && piece.value != "" then piece else None
  }

  /** `headers.authorization?.split("Bearer ")[1] || cookies?.accessToken`,
      as `!accessToken` then reads it: a missing or empty header token falls
      back to the cookie, and an empty cookie counts as no token. */
  function TokenFrom(authorization: Option<string>, cookie: Option<string>): (r: Option<string>)
    ensures r.Some? ==> r.value != ""
    ensures HeaderToken(authorization).Some? ==> r == HeaderToken(authorization)
    ensures HeaderToken(authorization).None? ==> r == if cookie.Some? && cookie.value != "" then cookie else None
  {
    var fromHeader := HeaderToken(authorization);
    if fromHeader.Some? then fromHeader
    else if cookie.Some? && cookie.value != "" then cookie
    else None
  }

  /** A separator occurring inside the second part of a concatenation. */
  lemma OccursAtShifted(p: string, t: string, sep: string, k: int)
    requires 0 <= k
    ensures OccursAt(p + t, sep, |p| + k) <==> OccursAt(t, sep, k)
  {
    if k + |sep| <= |t| {
      assert (p + t)[|p| + k..|p| + k + |sep|] == t[k..k + |sep|];
    }
  }

  /** `Authorization: Bearer <t>` yields `t`, whatever the cookie says, for
      any non-empty token in which "Bearer " does not occur. */
  lemma BearerHeaderRoundTrip(t: string, cookie: Option<string>)
    requires t != [] && forall k :: !OccursAt(t, BearerPrefix, k)
    ensures TokenFrom(Some(BearerPrefix + t), cookie) == Some(t)
  {
    var s := BearerPrefix + t;
    assert s[0..|BearerPrefix|] == BearerPrefix;
    assert IndexOf(s, BearerPrefix, 0) == Some(0);
    forall j | |BearerPrefix| <= j
      ensures !OccursAt(s, BearerPrefix, j)
    {
      OccursAtShifted(BearerPrefix, t, BearerPrefix, j - |BearerPrefix|);
    }
    assert IndexOf(s, BearerPrefix, |BearerPrefix|).None?;
    assert s[|BearerPrefix|..] == t;
  }

  /** A header without "Bearer " leaves the cookie as the only source. */
  lemma CookieFallback(authorization: string, cookie: Option<string>)
    requires forall k :: !OccursAt(authorization, BearerPrefix, k)
    ensures TokenFrom(Some(authorization), cookie) == if cookie.Some? && cookie.value != "" then cookie else None
  {
    assert IndexOf(authorization, BearerPrefix, 0).None?;
  }

  /** `isAuthenticated`: 401 without a token, 401 when verification yields
      nothing, otherwise `next` with the decoded payload as req.user. */
  function Authenticate(authorization: Option<string>, cookie: Option<string>, verify: string -> Option<Principal>): (r: Pass<Principal>)
    ensures r.Stop? ==> r.status == 401
    ensures r == Stop(401, NoToken) <==> TokenFrom(authorization, cookie).None?
    ensures r == Stop(401, InvalidToken) <==> (var t := TokenFrom(authorization, cookie); t.Some? && verify(t.value).None?)
    ensures r.Next? ==> (var t := TokenFrom(authorization, cookie); t.Some? && verify(t.value) == Some(r.value))
  {
    match TokenFrom(authorization, cookie)
    case None => Stop(401, NoToken)
    case Some(t) =>
      match verify(t)
      case None => Stop(401, InvalidToken)
      case Some(p) => Next(p)
  }

  /** A bearer token that verifies authenticates its payload. */
  lemma AuthenticateBearer(t: string, cookie: Option<string>, verify: string -> Option<Principal>, p: Principal)
    requires t != [] && forall k :: !OccursAt(t, BearerPrefix, k)
    requires verify(t) == Some(p)
    ensures Authenticate(Some(BearerPrefix + t), cookie, verify) == Next(p)
  {
    BearerHeaderRoundTrip(t, cookie);
  }

  /** `requireRole(roles)`: `next` iff req.user is set and its role is listed. */
  function RequireRole(user: Option<Principal>, roles: seq<Role>): (r: Pass<Principal>)
    ensures r.Next? <==> user.Some? && user.value.role in roles
    ensures r.Next? ==> r.value == user.value
    ensures r.Stop? ==> r == Stop(403, InsufficientPermissions)
  {
    if user.None? || user.value.role !in roles then Stop(403, InsufficientPermissions)
    else Next(user.value)
  }

  /** The staff role list admits exactly the staff roles. */
  lemma StaffRolesAreStaff(p: Principal)
    ensures RequireRole(Some(p), StaffRoles).Next? <==> IsStaff(p.role)
    ensures RequireRole(Some(p), [SuperAdminRole]).Next? <==> p.role == SuperAdminRole
  {
  }

  /** `validateRequest(validations)`: run the validations in order, stop
      after the first that reports errors, and answer 400 with the errors
      collected so far, or call `next`. `reports[i]` is what the i-th
      validation reports when it runs. */
  method ValidateRequest(reports: seq<seq<string>>) returns (r: Pass<()>, errors: seq<string>)
    ensures errors == [] <==> forall i :: 0 <= i < |reports| ==> reports[i] == []
    ensures errors != [] ==> exists i :: 0 <= i < |reports| && errors == reports[i] && forall j :: 0 <= j < i ==> reports[j] == []
    ensures r.Next? <==> errors == []
    ensures r.Stop? ==> r == Stop(400, ValidationFailed)
  {
    errors := [];
    var i := 0;
    while i < |reports|
      invariant 0 <= i <= |reports|
      invariant errors == [] && forall j :: 0 <= j < i ==> reports[j] == []
    {
      var result := reports[i];
      errors := errors + result;
      if result != [] {
        break;
      }
      i := i + 1;
    }
    if errors != [] {
      r := Stop(400, ValidationFailed);
    } else {
      r := Next(());
    }
  }

  /** `path.startsWith('/api')`. */
  predicate IsApiPath(path: string) {
    |path| >= 4 && path[..4] == "/api"
  }

  /** The catch-all GET route: 404 with a JSON body for API paths, the
      single-page application's index.html for everything else. */
  function CatchAll(path: string): (r: Response<string>)
    ensures r.Err? <==> IsApiPath(path)
    ensures r.Err? ==> r == Err(404, "API endpoint not found")
    ensures r.Ok? ==> r == Ok(200, "index.html")
  {
    if IsApiPath(path) then Err(404, "API endpoint not found") else Ok(200, "index.html")
  }

  /** The test is a string prefix, not a path segment: "/apiary" is an API path too. */
  lemma CatchAllPrefix(rest: string)
    ensures CatchAll("/api" + rest).Err?
    ensures CatchAll("/" + rest).Ok? <==> !(|rest| >= 3 && rest[..3] == "api")
  {
    assert ("/api" + rest)[..4] == "/api";
    if |rest| >= 3 {
      var s := "/" + rest;
      assert s[..4] == "/" + rest[..3];
      assert s[..4][1..] == rest[..3];
    }
  }
}

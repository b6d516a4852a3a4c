/** The authentication and authorisation middleware
    (src/middleware/auth.js).  Token verification (`jsonwebtoken` behind
    `User.verifyToken`) is an oracle that yields the token's claims or
    nothing; every verification failure, whatever its cause, is the one
    fixed error of src/models/User/statics.js:155-164, so None is all the
    middleware can tell. */
module Auth {
  import opened Wrappers
  import opened Js
  import opened Principal
  import opened UserModel
  import opened UserStore

  /** The claims of a verified token: the user id and, for a refresh
      token, the type 'refresh'. */
  datatype Claims = Claims(id: string, tokenType: Option<string>)

  /** `User.verifyToken` with the secret, issuer and audience fixed. */
  type Verifier = string -> Option<Claims>

  /** A middleware's decision: answer with a status, or call `next()` with
      `req.user` as it then stands. */
  datatype Gate = Reject(code: int) | Pass(user: Option<RequestUser>)

  const BearerPrefix := "Bearer "

  /** The token of an `Authorization` header: the header without its first
      seven characters, when it starts with 'Bearer '. */
  function BearerToken(header: Option<string>): (r: Option<string>)
    ensures r.Some? <==> header.Some? && StartsWith(header.value, BearerPrefix)
    ensures r.Some? ==> header.value == BearerPrefix + r.value
  {
    if header.Some? && StartsWith(header.value, BearerPrefix) then
      assert header.value == header.value[..7] + header.value[7..];
      Some(header.value[7..])
    else None
  }

  /** A status that may sign in: active or pending. */
  predicate MaySignIn(status: string) {
    status == Active || status == Pending
  }

  /** The `req.user` record made from a stored user. */
  function ToRequestUser(u: User): RequestUser {
    RequestUser(u.id, u.username, u.email, u.role, u.status)
  }

  /** `authenticate`: 401 without a bearer token, for a token that does not
      verify and for a user that no longer exists; 403 for a user who is
      neither active nor pending; otherwise `req.user` is set from the
      stored user. */
  function Authenticate(header: Option<string>, verify: Verifier, users: Users): (r: Gate)
    ensures r.Reject? ==> r.code == 401 || r.code == 403
    ensures BearerToken(header).None? ==> r == Reject(401)
    ensures BearerToken(header).Some? && verify(BearerToken(header).value).None? ==> r == Reject(401)
    ensures r.Pass? ==> r.user.Some? && MaySignIn(r.user.value.status)
    ensures r.Pass? || r == Reject(403) <==>
              BearerToken(header).Some? && verify(BearerToken(header).value).Some? &&
              FindById(users, verify(BearerToken(header).value).value.id).Some?
    ensures r.Pass? ==> var u := users[FindById(users, verify(BearerToken(header).value).value.id).value];
                        r.user.value.id == u.id && r.user.value.username == u.username &&
                        r.user.value.email == u.email && r.user.value.role == u.role && r.user.value.status == u.status
  {
    var token := BearerToken(header);
    if token.None? then Reject(401)
    else
      var claims := verify(token.value);
      if claims.None? then Reject(401)
      else
        var found := FindById(users, claims.value.id);
        if found.None? then Reject(401)
        else if !MaySignIn(users[found.value].status) then Reject(403)
        else Pass(Some(ToRequestUser(users[found.value])))
  }

  /** `authorize(...roles)`: 401 without `req.user`, 403 when its role is
      not listed, otherwise it passes with `req.user` unchanged. */
  function Authorize(user: Option<RequestUser>, roles: set<string>): (r: Gate)
    ensures r.Pass? <==> user.Some? && user.value.role in roles
    ensures r.Pass? ==> r.user == user
    ensures user.None? ==> r == Reject(401)
    ensures user.Some? && user.value.role !in roles ==> r == Reject(403)
  {
    if user.None? then Reject(401)
    else if user.value.role !in roles then Reject(403)
    else Pass(user)
  }

  function AdminOnly(user: Option<RequestUser>): Gate {
    Authorize(user, {Admin})
  }

  function FacultyOrAdmin(user: Option<RequestUser>): Gate {
    Authorize(user, {Faculty, Admin})
  }

  function AuthenticatedUsers(user: Option<RequestUser>): Gate {
    Authorize(user, {Student, Faculty, Admin})
  }

  /** The role shorthands admit exactly the roles they name. */
  lemma RoleShorthands(user: RequestUser)
    ensures AdminOnly(Some(user)).Pass? <==> user.role == Admin
    ensures FacultyOrAdmin(Some(user)).Pass? <==> user.role == Faculty || user.role == Admin
    ensures AuthenticatedUsers(Some(user)).Pass? <==> user.role in Roles
    ensures AdminOnly(Some(user)).Pass? ==> FacultyOrAdmin(Some(user)).Pass? && AuthenticatedUsers(Some(user)).Pass?
  {
  }

  /** A request that passes `authenticate` and then `authorize` has a
      signed-in user of a listed role. */
  lemma AuthenticatedThenAuthorized(header: Option<string>, verify: Verifier, users: Users, roles: set<string>)
    requires Authenticate(header, verify, users).Pass?
    ensures var user := Authenticate(header, verify, users).user;
            Authorize(user, roles).Pass? <==> user.value.role in roles
  {
  }

  /** `optionalAuth`: never rejects; `req.user` is set only for a verified
      token of an existing active or pending user. */
  function OptionalAuth(header: Option<string>, verify: Verifier, users: Users): (r: Option<RequestUser>)
    ensures r.Some? ==> MaySignIn(r.value.status)
  {
    var token := BearerToken(header);
    if token.None? then None
    else
      var claims := verify(token.value);
      if claims.None? then None
      else
        var found := FindById(users, claims.value.id);
        if found.Some? && MaySignIn(users[found.value].status) then Some(ToRequestUser(users[found.value]))
        else None
  }

  /** `optionalAuth` sets exactly the user `authenticate` would pass, and
      lets through every request `authenticate` would reject. */
  lemma OptionalAuthAgrees(header: Option<string>, verify: Verifier, users: Users)
    ensures OptionalAuth(header, verify, users).Some? <==> Authenticate(header, verify, users).Pass?
    ensures Authenticate(header, verify, users).Pass? ==>
              OptionalAuth(header, verify, users) == Authenticate(header, verify, users).user
  {
  }

  /** `req.params[field] || req.body[field]`: the route parameter unless
      it is missing or empty, then the body field. */
  function ResourceUserId(param: Option<string>, bodyField: Option<string>): Option<string> {
    if param.Some? && param.value != "" then param else bodyField
  }

  /** `ownerOrAdmin(field)`: 401 without `req.user`; admins pass; anyone
      else passes only when their id equals the resource's user id, else
      403. */
  function OwnerOrAdmin(user: Option<RequestUser>, param: Option<string>, bodyField: Option<string>): (r: Gate)
    ensures user.None? ==> r == Reject(401)
    ensures r.Reject? ==> r.code == 401 || r.code == 403
    ensures r.Pass? ==> r.user == user
    ensures user.Some? && user.value.role == Admin ==> r.Pass?
    ensures user.Some? && user.value.role != Admin ==>
              (r.Pass? <==> ResourceUserId(param, bodyField) == Some(user.value.id))
  {
    if user.None? then Reject(401)
    else if user.value.role == Admin then Pass(user)
    else if ResourceUserId(param, bodyField) != Some(user.value.id) then Reject(403)
    else Pass(user)
  }

  /** A non-admin never reaches another user's resource, whichever of the
      two places names it. */
  lemma OwnerOrAdminOwnOnly(user: RequestUser, param: Option<string>, bodyField: Option<string>)
    requires user.role != Admin && OwnerOrAdmin(Some(user), param, bodyField).Pass?
    ensures param.Some? && param.value != "" ==> param.value == user.id
    ensures (param.None? || param.value == "") ==> bodyField == Some(user.id)
  {
  }
}

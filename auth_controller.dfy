/** The account handlers of src/controllers/user/auth.js: register,
    login, refresh and logout, as functions from the users collection
    before the request to the status code and the collection after it.
    Password comparison is `PasswordMatches`; token verification is the
    `Verifier` oracle. */
module AuthController {
  import opened Wrappers
  import opened Js
  import opened Principal
  import opened UserModel
  import opened UserStore
  import opened UserHooks
  import opened Auth
  import opened Responses

  /** The status code and the users collection after a request. */
  datatype Outcome = Outcome(code: int, users: Users)

  /** The fields of the registration body; a field the body lacks is None. */
  datatype RegisterInput = RegisterInput(
    username: Option<string>, email: Option<string>, password: Option<string>,
    firstName: Option<string>, lastName: Option<string>, phone: Option<string>, role: Option<string>)

  /** A truthy text field: present and non-empty. */
  predicate Given(s: Option<string>) {
    s.Some? && s.value != ""
  }

  /** The paths a new document holds, all of which count as modified. */
  const NewPaths: set<string> := {"username", "email", "password", "firstName", "lastName", "phone", "role"}

  /** `new User(userData)`: the body's fields through the schema's setters
      (text trimmed, the e-mail also lower-cased), the role
      `role || 'student'`, and the schema defaults.  The setters leave the
      default address as it is (`DefaultAddressCast`). */
  function NewUser(input: RegisterInput, id: Id, now: int): (u: User)
    ensures u.id == id && u.status == Pending && !u.emailVerified && u.lastLogin.None?
    ensures u.role == (if Given(input.role) then input.role.value else Student)
    ensures u.password == Plain(input.password.GetOr(""))
  {
    var raw := User(id, input.username.GetOr(""), input.email.GetOr(""), Plain(input.password.GetOr("")),
                    input.firstName.GetOr(""), input.lastName.GetOr(""), input.phone, None,
                    DefaultAddress, if Given(input.role) then input.role.value else Student, Pending, None,
                    None, false, None, None, None, now, now);
    raw.(username := Trim(raw.username), email := NormalEmail(raw.email), firstName := Trim(raw.firstName),
         lastName := Trim(raw.lastName), phone := TrimOpt(raw.phone))
  }

  /** A saved document would break a unique index (E11000). */
  predicate Clashes(users: Users, u: User) {
    exists k :: 0 <= k < |users| && (users[k].username == u.username || users[k].email == u.email)
  }

  predicate FreshId(users: Users, id: Id) {
    forall k :: 0 <= k < |users| ==> users[k].id != id
  }

  /** `register`.  The existing-user check looks the e-mail up as an
      identifier; without an e-mail `toLowerCase` throws and the answer is
      500.  A schema ValidationError and a duplicate key answer 400.  The
      password hook's error is also named ValidationError but has no
      `errors`, so as written the catch block throws while reading them and
      no response is sent (`NoResponse`); as intended it is a 400 like the
      other validation failures. */
  function Register(v: Version, users: Users, input: RegisterInput, newId: Id, minLength: int, now: int): (r: Outcome)
    requires FreshId(users, newId)
    ensures input.email.None? ==> r == Outcome(500, users)
    ensures input.email.Some? && FindByIdentifier(users, input.email.value).Some? ==> r == Outcome(400, users)
    ensures r.code != 201 ==> r.users == users
    ensures r.code == 201 <==>
              input.email.Some? && FindByIdentifier(users, input.email.value).None? &&
              Save(NewUser(input, newId, now), NewPaths, true, minLength, now).Ok? &&
              !Clashes(users, Save(NewUser(input, newId, now), NewPaths, true, minLength, now).value)
    ensures r.code == 201 ==> r.users == users + [Save(NewUser(input, newId, now), NewPaths, true, minLength, now).value]
    ensures r.code in {201, 400, 500, NoResponse}
    ensures v == Intended ==> r.code != NoResponse
  {
    if input.email.None? then Outcome(500, users)
    else if FindByIdentifier(users, input.email.value).Some? then Outcome(400, users)
    else
      var saved := Save(NewUser(input, newId, now), NewPaths, true, minLength, now);
      if saved.Err? then
        if saved.error.HookRejected? && v == AsWritten then Outcome(NoResponse, users)
        else Outcome(400, users)
      else if Clashes(users, saved.value) then Outcome(400, users)
      else Outcome(201, users + [saved.value])
  }

  /** A registered user is pending, has the role the body asked for (any
      valid role, admin included) or student, and signs in with exactly the
      password given. */
  lemma RegisteredUser(v: Version, users: Users, input: RegisterInput, newId: Id, minLength: int, now: int)
    requires FreshId(users, newId)
    requires Register(v, users, input, newId, minLength, now).code == 201
    ensures var u := Register(v, users, input, newId, minLength, now).users[|users|];
            u.status == Pending && u.id == newId &&
            u.role == (if Given(input.role) then input.role.value else Student) && u.role in Roles &&
            input.password.Some? && Strong(input.password, minLength) &&
            (forall c :: PasswordMatches(u.password, c) <==> c == input.password.value)
  {
    var saved := Save(NewUser(input, newId, now), NewPaths, true, minLength, now);
    SavedPasswordHashed(NewUser(input, newId, now), NewPaths, true, minLength, now);
    assert Register(v, users, input, newId, minLength, now).users[|users|] == saved.value;
  }

  /** `register` as a public route evidently should behave: the body's
      `role` is ignored, so every new account is a student; otherwise as
      the intended `register`. */
  function RegisterPublic(users: Users, input: RegisterInput, newId: Id, minLength: int, now: int): (r: Outcome)
    requires FreshId(users, newId)
    ensures r.code in {201, 400, 500}
    ensures r.code != 201 ==> r.users == users
    ensures r.code == 201 ==> |r.users| == |users| + 1 && r.users[..|users|] == users &&
                              r.users[|users|].role == Student && r.users[|users|].id == newId
  {
    var r := Register(Intended, users, input.(role := None), newId, minLength, now);
    if r.code == 201 then
      RegisteredUser(Intended, users, input.(role := None), newId, minLength, now);
      assert r.users[..|users|] == users;
      r
    else r
  }

  /** As written anyone can sign up as an admin: a body asking for the
      role 'admin' that registers gets an admin account; the public
      register never creates one. */
  lemma SelfMadeAdmin(v: Version, users: Users, input: RegisterInput, newId: Id, minLength: int, now: int)
    requires FreshId(users, newId) && input.role == Some(Admin)
    ensures Register(v, users, input, newId, minLength, now).code == 201 ==>
              Register(v, users, input, newId, minLength, now).users[|users|].role == Admin
    ensures RegisterPublic(users, input, newId, minLength, now).code == 201 ==>
              RegisterPublic(users, input, newId, minLength, now).users[|users|].role != Admin
  {
    if Register(v, users, input, newId, minLength, now).code == 201 {
      RegisteredUser(v, users, input, newId, minLength, now);
    }
  }

  /** Appending an account that clashes with none keeps the store
      invariants. */
  lemma AppendKeepsInvariants(users: Users, u: User)
    requires UniqueAccounts(users) && Hashed(users)
    requires FreshId(users, u.id) && !Clashes(users, u) && u.password.Digest?
    ensures UniqueAccounts(users + [u]) && Hashed(users + [u])
  {
    var r := users + [u];
    forall i, j | 0 <= i < j < |r|
      ensures r[i].id != r[j].id && r[i].username != r[j].username && r[i].email != r[j].email
    {
      if j == |users| {
        assert r[i] == users[i] && r[j] == u;
      } else {
        assert r[i] == users[i] && r[j] == users[j];
      }
    }
  }

  /** Registration keeps the store invariants: every password hashed, no
      two accounts sharing an id, username or e-mail. */
  lemma RegisterKeepsInvariants(v: Version, users: Users, input: RegisterInput, newId: Id, minLength: int, now: int)
    requires FreshId(users, newId) && UniqueAccounts(users) && Hashed(users)
    ensures UniqueAccounts(Register(v, users, input, newId, minLength, now).users)
    ensures Hashed(Register(v, users, input, newId, minLength, now).users)
  {
    var r := Register(v, users, input, newId, minLength, now);
    if r.code == 201 {
      var saved := Save(NewUser(input, newId, now), NewPaths, true, minLength, now);
      SavedPasswordHashed(NewUser(input, newId, now), NewPaths, true, minLength, now);
      assert r.users == users + [saved.value];
      AppendKeepsInvariants(users, saved.value);
    }
  }

  /** A registration whose record passes the schema but whose password
      fails the strength rule gets no response as written, and a 400 as
      intended. */
  lemma {:induction false} RegisterWeakPassword(users: Users, input: RegisterInput, newId: Id, minLength: int, now: int)
    requires FreshId(users, newId)
    requires input.email.Some? && FindByIdentifier(users, input.email.value).None?
    requires UserValid(NewUser(input, newId, now), now)
    requires !Strong(Some(input.password.GetOr("")), minLength)
    ensures Register(AsWritten, users, input, newId, minLength, now).code == NoResponse
    ensures Register(Intended, users, input, newId, minLength, now) == Outcome(400, users)
  {
    WeakPasswordHookRejects(input, newId, minLength, now);
    HookRejectedAnswer(AsWritten, users, input, newId, minLength, now);
    HookRejectedAnswer(Intended, users, input, newId, minLength, now);
  }

  /** A registration the password hook refuses goes unanswered as written
      and is answered with 400 as intended. */
  lemma HookRejectedAnswer(v: Version, users: Users, input: RegisterInput, newId: Id, minLength: int, now: int)
    requires FreshId(users, newId)
    requires input.email.Some? && FindByIdentifier(users, input.email.value).None?
    requires Save(NewUser(input, newId, now), NewPaths, true, minLength, now).Err?
    requires Save(NewUser(input, newId, now), NewPaths, true, minLength, now).error.HookRejected?
    ensures Register(v, users, input, newId, minLength, now) == Outcome(if v == AsWritten then NoResponse else 400, users)
  {
  }

  /** The password hook refuses a new account whose password fails the
      strength rule, once the schema has accepted the record. */
  lemma WeakPasswordHookRejects(input: RegisterInput, newId: Id, minLength: int, now: int)
    requires UserValid(NewUser(input, newId, now), now)
    requires !Strong(Some(input.password.GetOr("")), minLength)
    ensures Save(NewUser(input, newId, now), NewPaths, true, minLength, now).Err?
    ensures Save(NewUser(input, newId, now), NewPaths, true, minLength, now).error.HookRejected?
  {
    assert "password" in NewPaths;
  }

  /** The registration body of the discrepancy: every field valid, and
      the password "abcdef" six lower-case letters long. */
  const WeakInput := RegisterInput(Some("an01"), Some("an@example.vn"), Some("abcdef"),
                                   Some("An"), Some("Le"), None, None)

  /** With the default minimum length the body above passes the schema,
      whose only password rule is six characters, yet fails the hook. */
  lemma WeakInputCrashesRegister(newId: Id, now: int)
    ensures Register(AsWritten, [], WeakInput, newId, 6, now).code == NoResponse
    ensures Register(Intended, [], WeakInput, newId, 6, now).code == 400
  {
    WeakInputValid(newId, now);
    WeakPasswordNotStrong();
    RegisterWeakPassword([], WeakInput, newId, 6, now);
  }

  /** "abcdef" has no upper-case letter. */
  lemma WeakPasswordNotStrong()
    ensures !Strong(Some("abcdef"), 6)
  {
    var p := "abcdef";
    assert !HasUpper(p) by {
      forall i | 0 <= i < |p| ensures !('A' <= p[i] <= 'Z') {
      }
    }
  }

  lemma WeakInputValid(newId: Id, now: int)
    ensures UserValid(NewUser(WeakInput, newId, now), now)
  {
    WeakInputFields(newId, now);
    Patterns.EmailAccepted();
  }

  lemma WeakInputFields(newId: Id, now: int)
    ensures var u := NewUser(WeakInput, newId, now);
            u.username == "an01" && u.email == "an@example.vn" && u.firstName == "An" && u.lastName == "Le" &&
            u.phone.None? && u.dateOfBirth.None? && u.address == DefaultAddress
  {
    WeakUsername(newId, now);
    WeakEmail(newId, now);
    WeakNames(newId, now);
  }

  lemma WeakUsername(newId: Id, now: int)
    ensures NewUser(WeakInput, newId, now).username == "an01"
  {
    TrimmedText("an01");
  }

  lemma WeakEmail(newId: Id, now: int)
    ensures NewUser(WeakInput, newId, now).email == "an@example.vn"
  {
    WeakEmailNormal();
  }

  lemma WeakNames(newId: Id, now: int)
    ensures NewUser(WeakInput, newId, now).firstName == "An" && NewUser(WeakInput, newId, now).lastName == "Le"
  {
    NewUserKeepsTrimmedNames(WeakInput, newId, now);
  }

  /** Names sent already trimmed are stored as sent. */
  lemma NewUserKeepsTrimmedNames(input: RegisterInput, id: Id, now: int)
    requires input.firstName.Some? && Trimmed(input.firstName.value)
    requires input.lastName.Some? && Trimmed(input.lastName.value)
    ensures NewUser(input, id, now).firstName == input.firstName.value
    ensures NewUser(input, id, now).lastName == input.lastName.value
  {
    TrimOfTrimmed(input.firstName.value);
    TrimOfTrimmed(input.lastName.value);
  }

  lemma WeakEmailNormal()
    ensures NormalEmail("an@example.vn") == "an@example.vn"
  {
    var e := "an@example.vn";
    assert LowerFixed(e);
    LowerOfFixed(e);
    TrimmedText(e);
  }

  lemma TrimmedText(s: string)
    requires |s| >= 1 && !IsSpace(s[0]) && !IsSpace(s[|s| - 1])
    ensures Trim(s) == s
  {
    TrimOfTrimmed(s);
  }

  /** `login`.  A missing identifier or password is 400; an unknown user
      and a wrong password are the same 401; a user neither active nor
      pending is 403; otherwise the user's last login is recorded and saved
      without validation.  A stored password that is empty makes
      `comparePassword` throw, which is 500. */
  function Login(users: Users, identifier: Option<string>, password: Option<string>, minLength: int, now: int): (r: Outcome)
    ensures !Given(identifier) || !Given(password) ==> r == Outcome(400, users)
    ensures r.code != 200 ==> r.users == users
    ensures r.code in {200, 400, 401, 403, 500}
    ensures r.code == 200 <==>
              Given(identifier) && Given(password) && FindByIdentifier(users, identifier.value).Some? &&
              PasswordMatches(users[FindByIdentifier(users, identifier.value).value].password, password.value) &&
              MaySignIn(users[FindByIdentifier(users, identifier.value).value].status)
    ensures r.code == 200 ==>
              var i := FindByIdentifier(users, identifier.value).value;
              r.users == users[i := users[i].(lastLogin := Some(now), updatedAt := now)]
  {
    if !Given(identifier) || !Given(password) then Outcome(400, users)
    else
      var found := FindByIdentifier(users, identifier.value);
      if found.None? then Outcome(401, users)
      else
        var u := users[found.value];
        if u.password == Plain("") then Outcome(500, users)
        else if !PasswordMatches(u.password, password.value) then Outcome(401, users)
        else if !MaySignIn(u.status) then Outcome(403, users)
        else
          var saved := Save(u.(lastLogin := Some(now)), {"lastLogin"}, false, minLength, now).value;
          Outcome(200, users[found.value := saved])
  }

  /** An unknown identifier and a wrong password cannot be told apart:
      both answer 401 and change nothing. */
  lemma LoginHidesWhichFailed(users: Users, identifier: string, password: string, minLength: int, now: int)
    requires Hashed(users) && identifier != "" && password != ""
    requires FindByIdentifier(users, identifier).None? ||
             !PasswordMatches(users[FindByIdentifier(users, identifier).value].password, password)
    ensures Login(users, Some(identifier), Some(password), minLength, now) == Outcome(401, users)
  {
  }

  /** A successful login keeps the store invariants. */
  lemma LoginKeepsInvariants(users: Users, identifier: Option<string>, password: Option<string>, minLength: int, now: int)
    requires UniqueAccounts(users) && Hashed(users)
    ensures UniqueAccounts(Login(users, identifier, password, minLength, now).users)
    ensures Hashed(Login(users, identifier, password, minLength, now).users)
  {
  }

  /** `refreshToken`: 400 without a token; 401 for a token that does not
      verify, is not a refresh token, or names a user who is missing or not
      active; otherwise 200. */
  function Refresh(users: Users, token: Option<string>, verify: Verifier): (code: int)
    ensures !Given(token) ==> code == 400
    ensures code in {200, 400, 401}
    ensures code == 200 <==>
              Given(token) && verify(token.value).Some? && verify(token.value).value.tokenType == Some("refresh") &&
              FindById(users, verify(token.value).value.id).Some? &&
              users[FindById(users, verify(token.value).value.id).value].status == Active
  {
    if !Given(token) then 400
    else
      var claims := verify(token.value);
      if claims.None? then 401
      else if claims.value.tokenType != Some("refresh") then 401
      else
        var found := FindById(users, claims.value.id);
        if found.None? || users[found.value].status != Active then 401 else 200
  }

  /** A pending user signs in, yet none of their refresh tokens is
      accepted. */
  lemma PendingCannotRefresh(users: Users, i: nat, password: string, token: string, verify: Verifier, minLength: int, now: int)
    requires UniqueAccounts(users) && i < |users| && users[i].status == Pending
    requires password != "" && users[i].username != "" && PasswordMatches(users[i].password, password)
    requires FindByIdentifier(users, users[i].username) == Some(i)
    requires token != "" && verify(token).Some? && verify(token).value.id == users[i].id
    ensures Login(users, Some(users[i].username), Some(password), minLength, now).code == 200
    ensures Refresh(users, Some(token), verify) == 401
  {
    FindByIdUnique(users, i);
  }

  /** `logout`: tokens are stateless, so the answer is 200 and no user
      changes. */
  function Logout(users: Users, user: Option<RequestUser>): (r: Outcome)
    ensures r.code == 200 && r.users == users
  {
    Outcome(200, users)
  }
}

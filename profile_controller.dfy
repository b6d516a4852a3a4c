/** The signed-in user's own account (src/controllers/user/profile.js):
    updating the profile, changing the password and deleting the account.
    `req.user.id` is `callerId`; the request body's fields are options, a
    field the body lacks being None. */
module ProfileController {
  import opened Wrappers
  import opened Principal
  import opened UserModel
  import opened UserStore
  import opened UserHooks
  import opened Responses
  import AC = AuthController

  /** The keys `updateProfile` deletes from the body before anything else;
      `createdAt` and `updatedAt` cannot be assigned at all in this model. */
  const RestrictedFields: set<string> := {"password", "role", "status", "emailVerified"}

  /** The document after `user.updateProfile(body)` has assigned the
      allowed keys of the body with the restricted keys removed. */
  function ProfileEdited(u: User, body: seq<Assignment>): User {
    AssignAll(u, Only(Drop(body, RestrictedFields), ProfileFields))
  }

  /** Removing the restricted keys is redundant: the allow-list of
      `updateProfile` keeps none of them. */
  lemma RestrictedStripRedundant(u: User, body: seq<Assignment>)
    ensures ProfileEdited(u, body) == AssignAll(u, Only(body, ProfileFields))
  {
    OnlyAfterDrop(body, RestrictedFields, ProfileFields);
  }

  /** The profile paths are none of those the pre-save hooks look at. */
  lemma ProfilePathsUnhooked()
    ensures "password" !in ProfileFields && "email" !in ProfileFields && "username" !in ProfileFields
  {
  }

  /** `updateProfile`: 404 for a caller no longer stored; otherwise the
      allowed keys are assigned and the document saved with validation,
      a schema ValidationError answering 400. */
  function UpdateProfile(users: Users, callerId: Id, body: seq<Assignment>, minLength: int, now: int): (r: AC.Outcome)
    ensures r.code in {200, 400, 404}
    ensures r.code != 200 ==> r.users == users
    ensures r.code == 404 <==> FindById(users, callerId).None?
    ensures r.code == 200 <==>
              FindById(users, callerId).Some? &&
              UserValid(AssignAll(users[FindById(users, callerId).value], Only(body, ProfileFields)), now)
    ensures r.code == 200 ==>
              var i := FindById(users, callerId).value;
              |r.users| == |users| &&
              r.users[i] == AssignAll(users[i], Only(body, ProfileFields)).(updatedAt := now) &&
              SameAccount(users[i], r.users[i]) &&
              forall k :: 0 <= k < |users| && k != i ==> r.users[k] == users[k]
  {
    var found := FindById(users, callerId);
    if found.None? then AC.Outcome(404, users)
    else
      var u := users[found.value];
      var edited := ProfileEdited(u, body);
      RestrictedStripRedundant(u, body);
      ProfileAssignmentsKeepAccount(u, Only(body, ProfileFields));
      ProfilePathsUnhooked();
      var saved := Save(edited, ProfileFields, true, minLength, now);
      if saved.Err? then AC.Outcome(400, users)
      else AC.Outcome(200, users[found.value := saved.value])
  }

  /** A profile update keeps the store invariants and the admin count. */
  lemma UpdateProfileKeepsInvariants(users: Users, callerId: Id, body: seq<Assignment>, minLength: int, now: int)
    requires UniqueAccounts(users) && Hashed(users)
    ensures var r := UpdateProfile(users, callerId, body, minLength, now);
            UniqueAccounts(r.users) && Hashed(r.users) && AdminCount(r.users) == AdminCount(users)
  {
    var r := UpdateProfile(users, callerId, body, minLength, now);
    if r.code == 200 {
      var i := FindById(users, callerId).value;
      assert r.users == users[i := r.users[i]];
      AdminCountReplace(users, i, r.users[i]);
    }
  }

  /** The value `changePassword` leaves in the document before `save()`:
      as written the new password is already a digest, as intended it is
      the text itself, for the pre-save hook to hash.  Both clear the
      reset token. */
  function PasswordAssigned(v: Version, u: User, newPassword: string): (w: User)
    ensures w == u.(password := w.password, passwordResetToken := None, passwordResetExpires := None)
    ensures v == AsWritten ==> w.password == Digest(Plain(newPassword))
    ensures v == Intended ==> w.password == Plain(newPassword)
  {
    if v == AsWritten then PasswordChanged(u, newPassword)
    else u.(password := Plain(newPassword), passwordResetToken := None, passwordResetExpires := None)
  }

  /** The paths `changePassword` modifies. */
  const PasswordPaths: set<string> := {"password", "passwordResetToken", "passwordResetExpires"}

  /** Of the paths the pre-save hooks look at, only the password is among
      those `changePassword` modifies. */
  lemma PasswordPathsHooked()
    ensures "password" in PasswordPaths && "email" !in PasswordPaths && "username" !in PasswordPaths
  {
  }

  /** `changePassword`.  A missing field and a confirmation that differs
      answer 400 before the lookup; then 404 for a caller no longer stored,
      500 when the stored password is empty (`comparePassword` throws), 400
      for a wrong current password and for a new password that fails the
      strength rule.  Otherwise the password is assigned and the document
      saved; any error of the save answers 500. */
  function ChangePassword(v: Version, users: Users, callerId: Id, current: Option<string>, newPassword: Option<string>,
                          confirm: Option<string>, minLength: int, now: int): (r: AC.Outcome)
    ensures r.code in {200, 400, 404, 500}
    ensures r.code != 200 ==> r.users == users
    ensures !Given(current) || !Given(newPassword) || !Given(confirm) || newPassword != confirm ==> r.code == 400
    ensures Given(current) && Given(newPassword) && newPassword == confirm ==>
              (FindById(users, callerId).None? ==> r.code == 404) &&
              (FindById(users, callerId).Some? && users[FindById(users, callerId).value].password == Plain("") ==> r.code == 500)
    ensures Given(current) && Given(newPassword) && newPassword == confirm && FindById(users, callerId).Some? ==>
              var u := users[FindById(users, callerId).value];
              var saved := Save(PasswordAssigned(v, u, newPassword.value), PasswordPaths, true, minLength, now);
              (r.code == 200 <==> u.password != Plain("") && PasswordMatches(u.password, current.value) &&
                                  Strong(newPassword, minLength) && saved.Ok?)
    ensures r.code == 200 ==>
              Given(current) && Given(newPassword) && newPassword == confirm &&
              FindById(users, callerId).Some? &&
              PasswordMatches(users[FindById(users, callerId).value].password, current.value) &&
              Strong(newPassword, minLength)
    ensures r.code == 200 ==>
              var i := FindById(users, callerId).value;
              var w := PasswordAssigned(v, users[i], newPassword.value);
              r.users == users[i := w.(password := Digest(w.password), updatedAt := now)]
  {
    if !Given(current) || !Given(newPassword) || !Given(confirm) then AC.Outcome(400, users)
    else if newPassword != confirm then AC.Outcome(400, users)
    else
      var found := FindById(users, callerId);
      if found.None? then AC.Outcome(404, users)
      else
        var u := users[found.value];
        if u.password == Plain("") then AC.Outcome(500, users)
        else if !PasswordMatches(u.password, current.value) then AC.Outcome(400, users)
        else if !ValidatePassword(newPassword, minLength).isValid then AC.Outcome(400, users)
        else
          var w := PasswordAssigned(v, u, newPassword.value);
          PasswordPathsHooked();
          var saved := Save(w, PasswordPaths, true, minLength, now);
          if saved.Err? then AC.Outcome(500, users)
          else AC.Outcome(200, users[found.value := saved.value])
  }

  /** As intended, a successful change makes the new password, and only
      it, the one that matches. */
  lemma ChangedPasswordMatches(users: Users, callerId: Id, current: Option<string>, newPassword: Option<string>,
                               confirm: Option<string>, minLength: int, now: int)
    requires ChangePassword(Intended, users, callerId, current, newPassword, confirm, minLength, now).code == 200
    ensures var r := ChangePassword(Intended, users, callerId, current, newPassword, confirm, minLength, now);
            var i := FindById(users, callerId).value;
            forall c :: PasswordMatches(r.users[i].password, c) <==> c == newPassword.value
  {
  }

  /** As written, a successful change stores the digest of a digest, which
      no password matches: the account can no longer sign in.  `Secret`
      keeps a digest apart from every plain text; under bcrypt itself the
      60-character text of the inner digest would match, but that text is
      never handed to anyone, so the account is locked out all the same. */
  lemma ChangedPasswordLocksOut(users: Users, callerId: Id, current: Option<string>, newPassword: Option<string>,
                                confirm: Option<string>, minLength: int, now: int)
    requires ChangePassword(AsWritten, users, callerId, current, newPassword, confirm, minLength, now).code == 200
    ensures var r := ChangePassword(AsWritten, users, callerId, current, newPassword, confirm, minLength, now);
            var i := FindById(users, callerId).value;
            r.users[i].password == Digest(Digest(Plain(newPassword.value))) &&
            forall c :: !PasswordMatches(r.users[i].password, c)
  {
  }

  /** After the change as written, signing in with the new password, as
      with any other, answers 401. */
  lemma LoginAfterChangeFails(users: Users, callerId: Id, current: Option<string>, newPassword: Option<string>,
                              confirm: Option<string>, minLength: int, now: int, identifier: string, password: string, later: int)
    requires ChangePassword(AsWritten, users, callerId, current, newPassword, confirm, minLength, now).code == 200
    requires var r := ChangePassword(AsWritten, users, callerId, current, newPassword, confirm, minLength, now);
             identifier != "" && password != "" && FindByIdentifier(r.users, identifier) == FindById(users, callerId)
    ensures var r := ChangePassword(AsWritten, users, callerId, current, newPassword, confirm, minLength, now);
            AC.Login(r.users, Some(identifier), Some(password), minLength, later).code == 401
  {
    ChangedPasswordLocksOut(users, callerId, current, newPassword, confirm, minLength, now);
    var r := ChangePassword(AsWritten, users, callerId, current, newPassword, confirm, minLength, now);
    LoginLocked(r.users, identifier, password, minLength, later);
  }

  /** A found account whose stored password no candidate matches answers
      401 to every sign-in. */
  lemma LoginLocked(users: Users, identifier: string, password: string, minLength: int, now: int)
    requires identifier != "" && password != "" && FindByIdentifier(users, identifier).Some?
    requires var u := users[FindByIdentifier(users, identifier).value];
             u.password != Plain("") && forall c :: !PasswordMatches(u.password, c)
    ensures AC.Login(users, Some(identifier), Some(password), minLength, now).code == 401
  {
  }

  /** A found account whose stored password matches the candidate signs in
      or is refused for its status. */
  lemma LoginMatching(users: Users, identifier: string, password: string, minLength: int, now: int)
    requires identifier != "" && password != "" && FindByIdentifier(users, identifier).Some?
    requires var u := users[FindByIdentifier(users, identifier).value];
             u.password != Plain("") && PasswordMatches(u.password, password)
    ensures AC.Login(users, Some(identifier), Some(password), minLength, now).code in {200, 403}
  {
  }

  /** As intended, signing in with the new password is no longer refused
      for the password's sake: it answers 200 or, for an account that may
      not sign in, 403. */
  lemma LoginAfterChangeSucceeds(users: Users, callerId: Id, current: Option<string>, newPassword: Option<string>,
                                 confirm: Option<string>, minLength: int, now: int, identifier: string, later: int)
    requires ChangePassword(Intended, users, callerId, current, newPassword, confirm, minLength, now).code == 200
    requires var r := ChangePassword(Intended, users, callerId, current, newPassword, confirm, minLength, now);
             identifier != "" && FindByIdentifier(r.users, identifier) == FindById(users, callerId)
    ensures var r := ChangePassword(Intended, users, callerId, current, newPassword, confirm, minLength, now);
            AC.Login(r.users, Some(identifier), newPassword, minLength, later).code in {200, 403}
  {
    ChangedPasswordMatches(users, callerId, current, newPassword, confirm, minLength, now);
    var r := ChangePassword(Intended, users, callerId, current, newPassword, confirm, minLength, now);
    var i := FindById(users, callerId).value;
    assert r.users[i].password == Digest(Plain(newPassword.value));
    LoginMatching(r.users, identifier, newPassword.value, minLength, later);
  }

  /** Changing a password keeps the store invariants and the admin count. */
  lemma ChangePasswordKeepsInvariants(v: Version, users: Users, callerId: Id, current: Option<string>,
                                      newPassword: Option<string>, confirm: Option<string>, minLength: int, now: int)
    requires UniqueAccounts(users) && Hashed(users)
    ensures var r := ChangePassword(v, users, callerId, current, newPassword, confirm, minLength, now);
            UniqueAccounts(r.users) && Hashed(r.users) && AdminCount(r.users) == AdminCount(users)
  {
    var r := ChangePassword(v, users, callerId, current, newPassword, confirm, minLength, now);
    if r.code == 200 {
      var i := FindById(users, callerId).value;
      assert r.users == users[i := r.users[i]];
      AdminCountReplace(users, i, r.users[i]);
    }
  }

  /** `deleteAccount`.  400 without a password; 404 for a caller no longer
      stored; 500 when the stored password is empty; 400 for a wrong
      password and for the last admin; otherwise the document is removed,
      its pre-remove hook refusing (500) an admin removal that would leave
      no admin. */
  function DeleteAccount(users: Users, callerId: Id, password: Option<string>): (r: AC.Outcome)
    ensures r.code in {200, 400, 404, 500}
    ensures r.code != 200 ==> r.users == users
    ensures !Given(password) ==> r.code == 400
    ensures r.code == 200 <==>
              Given(password) && FindById(users, callerId).Some? &&
              PasswordMatches(users[FindById(users, callerId).value].password, password.value) &&
              RemoveAllowed(users[FindById(users, callerId).value], AdminCount(users))
    ensures r.code == 200 ==> r.users == RemoveAt(users, FindById(users, callerId).value)
    ensures r.code == 500 ==> FindById(users, callerId).Some? && users[FindById(users, callerId).value].password == Plain("")
  {
    if !Given(password) then AC.Outcome(400, users)
    else
      var found := FindById(users, callerId);
      if found.None? then AC.Outcome(404, users)
      else
        var u := users[found.value];
        if u.password == Plain("") then AC.Outcome(500, users)
        else if !PasswordMatches(u.password, password.value) then AC.Outcome(400, users)
        else if IsAdmin(u) && AdminCount(users) <= 1 then AC.Outcome(400, users)
        else if !RemoveAllowed(u, AdminCount(users)) then AC.Outcome(500, users)
        else AC.Outcome(200, RemoveAt(users, found.value))
  }

  /** Self-deletion never removes the last admin, and keeps the store
      invariants. */
  lemma {:induction false} DeleteAccountKeepsAnAdmin(users: Users, callerId: Id, password: Option<string>)
    requires UniqueAccounts(users) && Hashed(users) && AdminCount(users) >= 1
    ensures var r := DeleteAccount(users, callerId, password);
            UniqueAccounts(r.users) && Hashed(r.users) && AdminCount(r.users) >= 1
  {
    var r := DeleteAccount(users, callerId, password);
    if r.code == 200 {
      var i := FindById(users, callerId).value;
      RemoveKeepsAnAdmin(users, i);
      RemoveKeepsInvariants(users, i);
    }
  }

  /** With every password hashed, self-deletion never answers 500. */
  lemma DeleteAccountNever500(users: Users, callerId: Id, password: Option<string>)
    requires Hashed(users)
    ensures DeleteAccount(users, callerId, password).code != 500
  {
  }
}

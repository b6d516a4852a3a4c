/** What saving, removing and updating a user runs besides the write
    itself (src/models/User/hooks.js).  Validation runs before the pre-save
    hooks; the hooks then run in the order they were registered. */
module UserHooks {
  import opened Wrappers
  import opened Js
  import opened Principal
  import opened UserModel
  import opened UserStore

  /** Why a save was refused: the schema's validators (a ValidationError
      carrying `errors`), or the password hook (a plain Error renamed
      ValidationError, without `errors`). */
  datatype SaveError = SchemaInvalid | HookRejected(errors: seq<PasswordError>)

  /** The validate-then-hash gate on a modified password.  The hook runs
      `validatePassword` on whatever the field holds; on a digest (60
      characters of the bcrypt alphabet, with the digits and the lower-case
      letter of its "$2a$" prefix) only the length rule can fail. */
  function PasswordGate(p: Secret, minLength: int): (r: Result<Secret, seq<PasswordError>>)
    ensures r.Ok? ==> r.value == Digest(p)
    ensures p.Plain? ==> (r.Ok? <==> Strong(Some(p.text), minLength))
    ensures p.Plain? && r.Err? ==> r.error == ValidatePassword(Some(p.text), minLength).errors
    ensures p.Digest? ==> (r.Ok? <==> minLength <= DigestLength)
    ensures r.Err? ==> r.error != []
  {
    if p.Plain? then
      var check := ValidatePassword(Some(p.text), minLength);
      if check.isValid then Ok(Digest(p)) else Err(check.errors)
    else if minLength <= DigestLength then Ok(Digest(p))
    else Err([TooShort(minLength)])
  }

  /** `doc.save()`: the schema validators unless `validate` is false, then
      the password hook when the password is among the modified paths, the
      e-mail and username hooks when those are, and the update timestamp. */
  function Save(u: User, modified: set<string>, validate: bool, minLength: int, now: int): (r: Result<User, SaveError>)
    ensures validate && !UserValid(u, now) ==> r == Err(SchemaInvalid)
    ensures r.Err? && r.error.HookRejected? ==> "password" in modified && PasswordGate(u.password, minLength).Err?
    ensures (validate ==> UserValid(u, now)) && "password" in modified && PasswordGate(u.password, minLength).Err? ==>
              r == Err(HookRejected(PasswordGate(u.password, minLength).error))
    ensures "password" !in modified && (validate ==> UserValid(u, now)) ==> r.Ok?
    ensures r.Ok? ==> r.value.password == (if "password" in modified then Digest(u.password) else u.password)
    ensures r.Ok? ==> r.value.email == (if "email" in modified then NormalEmail(u.email) else u.email)
    ensures r.Ok? ==> r.value.username == (if "username" in modified then Trim(u.username) else u.username)
    ensures r.Ok? ==> r.value.updatedAt == now
    ensures r.Ok? ==> r.value == u.(password := r.value.password, email := r.value.email,
                                     username := r.value.username, updatedAt := now)
  {
    if validate && !UserValid(u, now) then Err(SchemaInvalid)
    else
      var gate := if "password" in modified then PasswordGate(u.password, minLength) else Ok(u.password);
      if gate.Err? then Err(HookRejected(gate.error))
      else
        var email := if "email" in modified then NormalEmail(u.email) else u.email;
        var username := if "username" in modified then Trim(u.username) else u.username;
        Ok(u.(password := gate.value, email := email, username := username, updatedAt := now))
  }

  /** The e-mail and username hooks repeat what the schema's setters have
      already done, so on a value that went through the setters they change
      nothing. */
  lemma NormalisationIdle(u: User)
    requires Trimmed(u.username) && Trimmed(u.email) && LowerFixed(u.email)
    ensures NormalEmail(u.email) == u.email && Trim(u.username) == u.username
  {
    LowerOfFixed(u.email);
    TrimOfTrimmed(u.email);
    TrimOfTrimmed(u.username);
  }

  /** A saved password that was modified is never stored as plain text,
      and a plain password is stored only when it passed the strength rule. */
  lemma SavedPasswordHashed(u: User, modified: set<string>, validate: bool, minLength: int, now: int)
    requires "password" in modified && Save(u, modified, validate, minLength, now).Ok?
    ensures Save(u, modified, validate, minLength, now).value.password.Digest?
    ensures u.password.Plain? ==>
      Strong(Some(u.password.text), minLength) &&
      PasswordMatches(Save(u, modified, validate, minLength, now).value.password, u.password.text)
  {
  }

  /** The pre-remove hook: removing an admin is refused when the admin
      count is at most one. */
  predicate RemoveAllowed(u: User, adminCount: nat) {
    !IsAdmin(u) || adminCount > 1
  }

  /** A removal the hook allows leaves at least one admin. */
  lemma RemoveKeepsAnAdmin(users: Users, i: nat)
    requires i < |users| && AdminCount(users) >= 1
    requires RemoveAllowed(users[i], AdminCount(users))
    ensures AdminCount(RemoveAt(users, i)) >= 1
  {
    AdminCountRemove(users, i);
  }

  /** The hook refuses exactly the removal that would leave no admin. */
  lemma RemoveRefusedOnlyForLastAdmin(users: Users, i: nat)
    requires i < |users|
    ensures !RemoveAllowed(users[i], AdminCount(users)) <==> IsAdmin(users[i]) && AdminCount(RemoveAt(users, i)) == 0
  {
    AdminCountRemove(users, i);
    if IsAdmin(users[i]) {
      AdminCounted(users, i);
    }
  }

  /** The fields of a `findOneAndUpdate` update the hook looks at; a field
      the update does not hold is None. */
  datatype UpdateFields = UpdateFields(password: Option<string>, email: Option<string>, username: Option<string>)

  /** The update after the hook: the password is a secret from here on. */
  datatype HookedUpdate = HookedUpdate(password: Option<Secret>, email: Option<string>, username: Option<string>)

  predicate Given(s: Option<string>) {
    s.Some? && s.value != ""
  }

  /** The pre-findOneAndUpdate hook: a truthy password is validated, then
      hashed; a truthy e-mail is lower-cased and trimmed; a truthy username
      is trimmed.  Falsy values pass unchanged. */
  function UpdateHook(upd: UpdateFields, minLength: int): (r: Result<HookedUpdate, seq<PasswordError>>)
    ensures r.Err? <==> Given(upd.password) && !Strong(upd.password, minLength)
    ensures r.Err? ==> r.error == ValidatePassword(upd.password, minLength).errors
    ensures r.Ok? && Given(upd.password) ==> r.value.password == Some(Digest(Plain(upd.password.value)))
    ensures r.Ok? && !Given(upd.password) ==> r.value.password == (if upd.password.Some? then Some(Plain(upd.password.value)) else None)
    ensures r.Ok? ==> r.value.email == (if Given(upd.email) then Some(Trim(Lower(upd.email.value))) else upd.email)
    ensures r.Ok? ==> r.value.username == (if Given(upd.username) then Some(Trim(upd.username.value)) else upd.username)
  {
    var check := ValidatePassword(upd.password, minLength);
    if Given(upd.password) && !check.isValid then Err(check.errors)
    else
      var password := if upd.password.None? then None
                      else if Given(upd.password) then Some(Digest(Plain(upd.password.value)))
                      else Some(Plain(upd.password.value));
      var email := if Given(upd.email) then Some(Trim(Lower(upd.email.value))) else upd.email;
      var username := if Given(upd.username) then Some(Trim(upd.username.value)) else upd.username;
      Ok(HookedUpdate(password, email, username))
  }

  /** The hook and the save hook agree on a plain password: both store
      the digest of exactly the text they were given, when it is strong. */
  lemma UpdateHookAgreesWithSave(text: string, u: User, minLength: int, now: int)
    requires text != "" && u.password == Plain(text) && UserValid(u, now)
    ensures UpdateHook(UpdateFields(Some(text), None, None), minLength).Ok? <==>
            Save(u, {"password"}, true, minLength, now).Ok?
    ensures Save(u, {"password"}, true, minLength, now).Ok? ==>
            UpdateHook(UpdateFields(Some(text), None, None), minLength).value.password ==
            Some(Save(u, {"password"}, true, minLength, now).value.password)
  {
  }
}

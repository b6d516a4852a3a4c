/** The User model: the stored record and its schema constraints
    (src/models/User/schema.js), the static helpers (statics.js), the
    virtuals (virtuals.js) and the instance methods (methods.js).  A
    document whose methods change it in place is a `UserDoc`; the functions
    below say what each method makes of the record, and `UserHooks` says
    what saving it does.  Times are milliseconds since the epoch. */
module UserModel {
  import opened Wrappers
  import opened Js
  import opened Principal
  import opened Patterns
  import Labels
  import SortUtils

  type Id = string

  const Active := "active"
  const Inactive := "inactive"
  const Suspended := "suspended"
  const Pending := "pending"

  const Roles: set<string> := {Admin, Student, Faculty}
  const Statuses: set<string> := {Active, Inactive, Suspended, Pending}

  const DefaultCountry := "Việt Nam"

  /** The address sub-document; a part that was never set is None. */
  datatype Address = Address(street: Option<string>, city: Option<string>, state: Option<string>,
                             zipCode: Option<string>, country: Option<string>)

  /** A new user's address: only the country has a default. */
  const DefaultAddress := Address(None, None, None, None, Some(DefaultCountry))

  /** The password field: text as assigned, or the bcrypt digest of an
      earlier value.  A digest is 60 characters long and matches exactly the
      text it was made from; the salt is not modelled. */
  datatype Secret = Plain(text: string) | Digest(of: Secret)

  const DigestLength := 60

  /** `bcrypt.compare(candidate, stored)` */
  predicate PasswordMatches(stored: Secret, candidate: string) {
    stored == Digest(Plain(candidate))
  }

  /** A stored user.  A required text field that was not given is the empty
      string, which the `required` validator refuses as it refuses a missing
      value. */
  datatype User = User(
    id: Id, username: string, email: string, password: Secret,
    firstName: string, lastName: string, phone: Option<string>, dateOfBirth: Option<int>,
    address: Address, role: string, status: string, avatar: Option<string>,
    lastLogin: Option<int>, emailVerified: bool, emailVerificationToken: Option<string>,
    passwordResetToken: Option<string>, passwordResetExpires: Option<int>,
    createdAt: int, updatedAt: int)

  // ---------------------------------------------------------------------
  // Schema (schema.js)
  // ---------------------------------------------------------------------

  function CastAddress(a: Address): Address {
    Address(TrimOpt(a.street), TrimOpt(a.city), TrimOpt(a.state), TrimOpt(a.zipCode), TrimOpt(a.country))
  }

  /** The e-mail as the schema's setters store it: lower-cased, then
      trimmed. */
  function NormalEmail(e: string): (r: string)
    ensures Trimmed(r) && LowerFixed(r)
  {
    LowerTrimmed(e);
    Trim(Lower(e))
  }

  /** What the schema's setters make of the assigned values: text fields
      are trimmed and the e-mail is also lower-cased. */
  function Cast(u: User): (r: User)
    ensures Trimmed(r.username) && Trimmed(r.email) && LowerFixed(r.email)
    ensures Trimmed(r.firstName) && Trimmed(r.lastName)
    ensures r.id == u.id && r.password == u.password && r.role == u.role && r.status == u.status
  {
    CastTrims(u);
    u.(username := Trim(u.username), email := NormalEmail(u.email), firstName := Trim(u.firstName),
       lastName := Trim(u.lastName), phone := TrimOpt(u.phone), address := CastAddress(u.address),
       avatar := TrimOpt(u.avatar))
  }

  /** The setters touch only the text fields. */
  lemma CastKeeps(u: User)
    ensures Cast(u) == u.(username := Cast(u).username, email := Cast(u).email, firstName := Cast(u).firstName,
                          lastName := Cast(u).lastName, phone := Cast(u).phone, address := Cast(u).address,
                          avatar := Cast(u).avatar)
    ensures Cast(u).address == CastAddress(u.address)
  {
  }

  lemma CastTrims(u: User)
    ensures Trimmed(Trim(u.username)) && Trimmed(Trim(u.firstName)) && Trimmed(Trim(u.lastName))
  {
    TrimIdempotent(u.username);
    TrimIdempotent(u.firstName);
    TrimIdempotent(u.lastName);
  }

  predicate MaxLength(s: Option<string>, n: nat) {
    s.None? || |s.value| <= n
  }

  predicate AddressValid(a: Address) {
    MaxLength(a.street, 200) && MaxLength(a.city, 100) && MaxLength(a.state, 100) &&
    MaxLength(a.zipCode, 20) && MaxLength(a.country, 100)
  }

  /** The length the schema's `minlength` sees: the text of a plain value,
      60 for a digest. */
  function SecretLength(s: Secret): nat {
    if s.Plain? then |s.text| else DigestLength
  }

  /** The schema's validators on a record as its setters left it.  The
      `match` validator on phone lets the empty string through. */
  predicate UserValid(u: User, now: int) {
    3 <= |u.username| <= 30 &&
    EmailLike(u.email) &&
    SecretLength(u.password) >= 6 &&
    u.firstName != "" && |u.firstName| <= 50 &&
    u.lastName != "" && |u.lastName| <= 50 &&
    (u.phone.Some? && u.phone.value != "" ==> PhoneNumber(u.phone.value)) &&
    (u.dateOfBirth.Some? ==> u.dateOfBirth.value < now) &&
    AddressValid(u.address) &&
    u.role in Roles && u.status in Statuses
  }

  /** The fields the toJSON and toObject transforms delete. */
  const HiddenFields: set<string> := {"password", "emailVerificationToken", "passwordResetToken", "passwordResetExpires"}

  /** The JSON (or plain-object) form of a document given as its fields: no
      hidden field survives, every other field is kept as it is. */
  function ToJson<V>(fields: map<string, V>): (r: map<string, V>)
    ensures r.Keys !! HiddenFields
    ensures forall k :: k in fields && k !in HiddenFields ==> k in r && r[k] == fields[k]
    ensures r.Keys <= fields.Keys
  {
    fields - HiddenFields
  }

  // ---------------------------------------------------------------------
  // Statics (statics.js)
  // ---------------------------------------------------------------------

  datatype PasswordError = Required | TooShort(minLength: int) | NoLowercase | NoUppercase | NoDigit

  datatype PasswordCheck = PasswordCheck(isValid: bool, errors: seq<PasswordError>)

  /** `parseInt(process.env.PASSWORD_MIN_LENGTH) || 6` */
  function MinPasswordLength(env: Value): (n: int)
    ensures n != 0
    ensures n == 6 || ParseIntValue(env) == Int(n)
    ensures ParseIntValue(env).NaN? || ParseIntValue(env) == Int(0) ==> n == 6
  {
    ParseIntOr(env, 6)
  }

  predicate HasLower(p: string) {
    exists i :: 0 <= i < |p| && 'a' <= p[i] <= 'z'
  }

  predicate HasUpper(p: string) {
    exists i :: 0 <= i < |p| && 'A' <= p[i] <= 'Z'
  }

  predicate HasDigit(p: string) {
    exists i :: 0 <= i < |p| && IsDigit(p[i])
  }

  /** The strength rule on its own: a password is given, is long enough
      and holds a lower-case letter, an upper-case letter and a digit. */
  predicate Strong(password: Option<string>, minLength: int) {
    password.Some? && password.value != "" && |password.value| >= minLength &&
    HasLower(password.value) && HasUpper(password.value) && HasDigit(password.value)
  }

  /** The position of each rule in the order validatePassword checks them. */
  function RuleRank(e: PasswordError): nat {
    match e
    case Required => 0
    case TooShort(_) => 1
    case NoLowercase => 2
    case NoUppercase => 3
    case NoDigit => 4
  }

  predicate RankOrdered(errors: seq<PasswordError>) {
    forall i, j :: 0 <= i < j < |errors| ==> RuleRank(errors[i]) < RuleRank(errors[j])
  }

  function When(b: bool, e: PasswordError): seq<PasswordError> {
    if b then [e] else []
  }

  /** `validatePassword`: a missing password gets the one error Required;
      otherwise one error per failed rule, in the order length, lower case,
      upper case, digit. */
  function ValidatePassword(password: Option<string>, minLength: int): (r: PasswordCheck)
    ensures r.isValid <==> r.errors == []
    ensures r.isValid <==> Strong(password, minLength)
    ensures password.None? || password.value == "" ==> r.errors == [Required]
    ensures password.Some? && password.value != "" ==>
              Required !in r.errors &&
              (TooShort(minLength) in r.errors <==> |password.value| < minLength) &&
              (NoLowercase in r.errors <==> !HasLower(password.value)) &&
              (NoUppercase in r.errors <==> !HasUpper(password.value)) &&
              (NoDigit in r.errors <==> !HasDigit(password.value))
    ensures forall e :: e in r.errors && e.TooShort? ==> e == TooShort(minLength)
    ensures RankOrdered(r.errors)
  {
    if password.None? || password.value == "" then PasswordCheck(false, [Required])
    else
      var p := password.value;
      var errors := FailedRules(|p| < minLength, !HasLower(p), !HasUpper(p), !HasDigit(p), minLength);
      assert errors == [] <==> !(|p| < minLength) && HasLower(p) && HasUpper(p) && HasDigit(p) by {
        if errors != [] { assert errors[0] in errors; }
      }
      PasswordCheck(errors == [], errors)
  }

  /** The errors pushed for the rules after the first, given which of them
      failed: each failed rule once, in the order they are checked. */
  function FailedRules(short: bool, noLower: bool, noUpper: bool, noDigit: bool, minLength: int): (errors: seq<PasswordError>)
    ensures forall e :: e in errors <==>
              (short && e == TooShort(minLength)) || (noLower && e == NoLowercase) ||
              (noUpper && e == NoUppercase) || (noDigit && e == NoDigit)
    ensures RankOrdered(errors)
  {
    var length, lower := When(short, TooShort(minLength)), When(noLower, NoLowercase);
    var upper, digit := When(noUpper, NoUppercase), When(noDigit, NoDigit);
    SnocOrdered([], short, TooShort(minLength));
    assert [] + length == length;
    SnocOrdered(length, noLower, NoLowercase);
    SnocOrdered(length + lower, noUpper, NoUppercase);
    SnocOrdered(length + lower + upper, noDigit, NoDigit);
    length + lower + upper + digit
  }

  /** Every error in `errors` belongs to a rule checked before rank `k`. */
  predicate RanksBelow(errors: seq<PasswordError>, k: nat) {
    forall i :: 0 <= i < |errors| ==> RuleRank(errors[i]) < k
  }

  /** Appending the error of a later rule keeps the order of the rules. */
  lemma SnocOrdered(errors: seq<PasswordError>, failed: bool, e: PasswordError)
    requires RankOrdered(errors) && RanksBelow(errors, RuleRank(e))
    ensures RankOrdered(errors + When(failed, e)) && RanksBelow(errors + When(failed, e), RuleRank(e) + 1)
    ensures forall x :: x in errors + When(failed, e) <==> x in errors || (failed && x == e)
  {
  }

  /** `findByEmailOrUsername`: the query casts each filter value through
      its field's setters, so the e-mail is compared with the identifier
      lower-cased and trimmed, the username with the identifier trimmed. */
  predicate MatchesIdentifier(u: User, identifier: string) {
    HoldsKey(u, Trim(Lower(identifier)), Trim(identifier))
  }

  /** The e-mail is `email` or the username is `username`. */
  predicate HoldsKey(u: User, email: string, username: string) {
    u.email == email || u.username == username
  }

  /** findWithPagination's page arithmetic; a limit below 1, for which
      JavaScript divides by zero or by a negative number, gives no page
      information. */
  function PageInfo(total: nat, page: int, limit: int): (r: Option<SortUtils.Pagination>)
    ensures r.Some? <==> limit >= 1
    ensures r.Some? ==> r.value.currentPage == page && r.value.totalItems == total
    ensures r.Some? ==> (r.value.totalPages - 1) * limit < total <= r.value.totalPages * limit
    ensures r.Some? ==> (r.value.hasNextPage <==> page < r.value.totalPages) && (r.value.hasPrevPage <==> page > 1)
  {
    if limit >= 1 then Some(SortUtils.CreatePaginationResponse(total, page, limit)) else None
  }

  // ---------------------------------------------------------------------
  // Virtuals (virtuals.js)
  // ---------------------------------------------------------------------

  /** `fullName`: the two names joined by a space, trimmed. */
  function FullName(u: User): (r: string)
    ensures Trimmed(r)
    ensures u.firstName != "" && u.lastName != "" && Trimmed(u.firstName) && Trimmed(u.lastName) ==>
              r == u.firstName + " " + u.lastName
  {
    TrimIdempotent(u.firstName + " " + u.lastName);
    JoinedNamesTrimmed(u.firstName, u.lastName);
    Trim(u.firstName + " " + u.lastName)
  }

  lemma JoinedNamesTrimmed(first: string, last: string)
    ensures first != "" && last != "" && Trimmed(first) && Trimmed(last) ==>
              Trim(first + " " + last) == first + " " + last
  {
    var s := first + " " + last;
    if first != "" && last != "" && Trimmed(first) && Trimmed(last) {
      assert s[0] == first[0] && s[|s| - 1] == last[|last| - 1];
      TrimOfTrimmed(s);
    }
  }

  /** `displayName`: the full name when both names are set, else the
      username. */
  function DisplayName(u: User): (r: string)
    ensures u.firstName == "" || u.lastName == "" ==> r == u.username
  {
    if u.firstName != "" && u.lastName != "" then FullName(u) else u.username
  }

  /** A saved user has both names, so the display name is "first last". */
  lemma DisplayNameOfValid(u: User, now: int)
    requires UserValid(Cast(u), now)
    ensures DisplayName(Cast(u)) == Cast(u).firstName + " " + Cast(u).lastName
  {
  }

  /** A day of the local calendar. */
  datatype CalendarDate = CalendarDate(year: int, month: int, day: int)

  predicate DateBefore(a: CalendarDate, b: CalendarDate) {
    a.year < b.year || (a.year == b.year && (a.month < b.month || (a.month == b.month && a.day < b.day)))
  }

  /** The n-th birthday. */
  function Anniversary(b: CalendarDate, n: int): CalendarDate {
    CalendarDate(b.year + n, b.month, b.day)
  }

  /** `age`: the number of birthdays reached by `today`; None without a
      date of birth. */
  function Age(birth: Option<CalendarDate>, today: CalendarDate): (r: Option<int>)
    ensures r.None? <==> birth.None?
    ensures r.Some? ==> !DateBefore(today, Anniversary(birth.value, r.value)) &&
                        DateBefore(today, Anniversary(birth.value, r.value + 1))
  {
    if birth.None? then None
    else
      var b := birth.value;
      var years := today.year - b.year;
      var monthDiff := today.month - b.month;
      Some(if monthDiff < 0 || (monthDiff == 0 && today.day < b.day) then years - 1 else years)
  }

  /** The address parts `filter(part => part && part.trim())` keeps. */
  function NonBlank(parts: seq<Option<string>>): (r: seq<string>)
    ensures |r| <= |parts|
  {
    if parts == [] then []
    else (if parts[0].Some? && !Blank(parts[0].value) then [parts[0].value] else []) + NonBlank(parts[1..])
  }

  /** The filter keeps every part that is set and not blank, and only such
      parts; it keeps none exactly when every part is missing or blank. */
  lemma {:induction false} NonBlankParts(parts: seq<Option<string>>)
    ensures forall s :: s in NonBlank(parts) ==> !Blank(s)
    ensures forall i :: 0 <= i < |parts| && parts[i].Some? && !Blank(parts[i].value) ==> parts[i].value in NonBlank(parts)
    ensures NonBlank(parts) == [] <==> forall i :: 0 <= i < |parts| ==> parts[i].None? || Blank(parts[i].value)
  {
    if parts != [] {
      NonBlankParts(parts[1..]);
      assert forall i :: 1 <= i < |parts| ==> parts[i] == parts[1..][i - 1];
    }
  }

  function AddressParts(a: Address): seq<Option<string>> {
    [a.street, a.city, a.state, a.zipCode, a.country]
  }

  /** `fullAddress`: the non-blank parts street, city, state, zip code,
      country joined by ", "; None when every part is blank. */
  function FullAddress(a: Address): (r: Option<string>)
    ensures r.None? <==> forall i :: 0 <= i < 5 ==> AddressParts(a)[i].None? || Blank(AddressParts(a)[i].value)
    ensures r.Some? ==> r.value == Join(NonBlank(AddressParts(a)), ", ")
  {
    NonBlankParts(AddressParts(a));
    var parts := NonBlank(AddressParts(a));
    if parts == [] then None else Some(Join(parts, ", "))
  }

  /** The address of a new user shows as the default country. */
  lemma DefaultFullAddress()
    ensures FullAddress(DefaultAddress) == Some(DefaultCountry)
  {
    DefaultAddressParts();
    assert Join([DefaultCountry], ", ") == DefaultCountry;
  }

  lemma DefaultAddressParts()
    ensures NonBlank(AddressParts(DefaultAddress)) == [DefaultCountry]
  {
    CountryNotBlank();
    OnlyLastPart(DefaultCountry);
  }

  /** An address with only a non-blank last part has just that part. */
  lemma OnlyLastPart(x: string)
    requires !Blank(x)
    ensures NonBlank([None, None, None, None, Some(x)]) == [x]
  {
    var s1: seq<Option<string>> := [Some(x)];
    assert s1[1..] == [];
    NonBlankSkip(s1);
    NonBlankSkip([None] + s1);
    NonBlankSkip([None] + ([None] + s1));
    NonBlankSkip([None] + ([None] + ([None] + s1)));
    assert [None, None, None, None, Some(x)] == [None] + ([None] + ([None] + ([None] + s1)));
  }

  /** The setters leave the default address as it is. */
  lemma DefaultAddressCast()
    ensures CastAddress(DefaultAddress) == DefaultAddress
  {
    CountryTrimmed();
  }

  lemma CountryTrimmed()
    ensures Trim(DefaultCountry) == DefaultCountry
  {
    var c := DefaultCountry;
    assert !IsSpace(c[0]) && !IsSpace(c[|c| - 1]);
    TrimOfTrimmed(c);
  }

  lemma CountryNotBlank()
    ensures !Blank(DefaultCountry)
  {
    var c := DefaultCountry;
    assert !IsSpace(c[0]) && !IsSpace(c[|c| - 1]);
    TrimOfTrimmed(c);
  }

  lemma NonBlankSkip(rest: seq<Option<string>>)
    ensures NonBlank([None] + rest) == NonBlank(rest)
  {
    assert ([None] + rest)[1..] == rest;
  }

  const RoleLabels: map<string, string> := map[Admin := "Quản trị viên", Student := "Sinh viên", Faculty := "Giảng viên"]

  const StatusLabels: map<string, string> :=
    map[Active := "Hoạt động", Inactive := "Không hoạt động", Suspended := "Bị đình chỉ", Pending := "Chờ xác nhận"]

  /** `roleDisplay`: the Vietnamese label of a known role; any other value
      unchanged. */
  function RoleDisplay(role: string): (r: string)
    ensures role in RoleLabels ==> r == RoleLabels[role]
    ensures role !in RoleLabels ==> r == role
  {
    Labels.StatusLabel(RoleLabels, role)
  }

  /** `statusDisplay`: the Vietnamese label of a known status; any other
      value unchanged. */
  function StatusDisplay(status: string): (r: string)
    ensures status in StatusLabels ==> r == StatusLabels[status]
    ensures status !in StatusLabels ==> r == status
  {
    Labels.StatusLabel(StatusLabels, status)
  }

  predicate IsAdmin(u: User) { u.role == Admin }
  predicate IsStudent(u: User) { u.role == Student }
  predicate IsFaculty(u: User) { u.role == Faculty }
  predicate IsActive(u: User) { u.status == Active }

  function Abs(x: int): nat {
    if x < 0 then -x else x
  }

  /** `Math.ceil(Math.abs(now - t) / 86400000)`: whole days, any part of a
      day counting as one. */
  function DaysBetween(now: int, t: int): (d: nat)
    ensures (d - 1) * Labels.DayMs < Abs(now - t) <= d * Labels.DayMs
  {
    CeilDiv(Abs(now - t), Labels.DayMs)
  }

  /** Only the same instant is zero days away; one millisecond is a day. */
  lemma DaysBetweenZero(now: int, t: int)
    ensures DaysBetween(now, t) == 0 <==> now == t
    ensures now != t && Abs(now - t) <= Labels.DayMs ==> DaysBetween(now, t) == 1
  {
    var d := DaysBetween(now, t);
    if now != t && Abs(now - t) <= Labels.DayMs {
      assert d >= 1;
      assert (d - 1) * Labels.DayMs < Labels.DayMs;
    }
  }

  /** `daysSinceLastLogin`: None before the first login. */
  function DaysSinceLastLogin(u: User, now: int): (r: Option<nat>)
    ensures r.None? <==> u.lastLogin.None?
    ensures r.Some? ==> (r.value - 1) * Labels.DayMs < Abs(now - u.lastLogin.value) <= r.value * Labels.DayMs
  {
    if u.lastLogin.None? then None else Some(DaysBetween(now, u.lastLogin.value))
  }

  /** `accountAge`: days since the account was created. */
  function AccountAge(u: User, now: int): (r: nat)
    ensures (r - 1) * Labels.DayMs < Abs(now - u.createdAt) <= r * Labels.DayMs
  {
    DaysBetween(now, u.createdAt)
  }

  // ---------------------------------------------------------------------
  // Permissions (methods.js)
  // ---------------------------------------------------------------------

  const Permissions: map<string, seq<string>> := map[
    Admin := ["read", "write", "delete", "manage_users", "manage_system"],
    Faculty := ["read", "write", "manage_students"],
    Student := ["read", "write_own"]]

  /** `hasPermission`: the action is in the fixed list of the role. */
  function HasPermission(role: string, action: string): (r: bool)
    ensures r ==> role in Roles
    ensures role in Roles && action == "read" ==> r
    ensures r && action in {"delete", "manage_users", "manage_system"} ==> role == Admin
    ensures r && action == "manage_students" ==> role == Faculty
    ensures r && action == "write_own" ==> role == Student
  {
    role in Permissions && action in Permissions[role]
  }

  /** `canAccess`: admins reach everything; other users only while
      active, and then 'profile' always, 'users' only as faculty reading,
      'admin_panel' never, and anything else by permission. */
  function CanAccess(u: User, resource: string, action: string): (r: bool)
    ensures u.role == Admin ==> r
    ensures u.role != Admin && u.status != Active ==> !r
    ensures resource == "admin_panel" ==> (r <==> u.role == Admin)
    ensures resource == "users" ==> (r <==> u.role == Admin || (u.role == Faculty && u.status == Active && action == "read"))
    ensures resource == "profile" ==> (r <==> u.role == Admin || u.status == Active)
    ensures resource !in {"users", "profile", "admin_panel"} ==>
              (r <==> u.role == Admin || (u.status == Active && HasPermission(u.role, action)))
  {
    if u.role == Admin then true
    else if u.status != Active then false
    else if resource == "users" then u.role == Admin || (u.role == Faculty && action == "read")
    else if resource == "profile" then true
    else if resource == "admin_panel" then u.role == Admin
    else HasPermission(u.role, action)
  }

  // ---------------------------------------------------------------------
  // Field assignment (updateProfile, and updateUser in the admin handlers)
  // ---------------------------------------------------------------------

  /** One key of a request body with its value. */
  datatype Assignment =
    | SetUsername(text: string) | SetEmail(text: string) | SetPassword(text: string)
    | SetFirstName(text: string) | SetLastName(text: string) | SetPhone(text: string)
    | SetDateOfBirth(time: int) | SetAddress(address: Address) | SetAvatar(text: string)
    | SetRole(text: string) | SetStatus(text: string) | SetEmailVerified(flag: bool)

  function Key(a: Assignment): string {
    match a
    case SetUsername(_) => "username"
    case SetEmail(_) => "email"
    case SetPassword(_) => "password"
    case SetFirstName(_) => "firstName"
    case SetLastName(_) => "lastName"
    case SetPhone(_) => "phone"
    case SetDateOfBirth(_) => "dateOfBirth"
    case SetAddress(_) => "address"
    case SetAvatar(_) => "avatar"
    case SetRole(_) => "role"
    case SetStatus(_) => "status"
    case SetEmailVerified(_) => "emailVerified"
  }

  /** `user[key] = value`, through the schema's setters. */
  function Assign(u: User, a: Assignment): User {
    match a
    case SetUsername(t) => u.(username := Trim(t))
    case SetEmail(t) => u.(email := NormalEmail(t))
    case SetPassword(t) => u.(password := Plain(t))
    case SetFirstName(t) => u.(firstName := Trim(t))
    case SetLastName(t) => u.(lastName := Trim(t))
    case SetPhone(t) => u.(phone := Some(Trim(t)))
    case SetDateOfBirth(t) => u.(dateOfBirth := Some(t))
    case SetAddress(a) => u.(address := CastAddress(a))
    case SetAvatar(t) => u.(avatar := Some(Trim(t)))
    case SetRole(t) => u.(role := t)
    case SetStatus(t) => u.(status := t)
    case SetEmailVerified(b) => u.(emailVerified := b)
  }

  /** The assignments of `body` applied in order. */
  function AssignAll(u: User, body: seq<Assignment>): User {
    if body == [] then u else Assign(AssignAll(u, body[..|body| - 1]), body[|body| - 1])
  }

  /** The assignments whose key is in `keys`, in order. */
  function Only(body: seq<Assignment>, keys: set<string>): (r: seq<Assignment>)
    ensures forall a :: a in r <==> a in body && Key(a) in keys
  {
    if body == [] then []
    else
      var last := body[|body| - 1];
      assert body == body[..|body| - 1] + [last];
      Only(body[..|body| - 1], keys) + (if Key(last) in keys then [last] else [])
  }

  /** The assignments whose key is not in `keys` (`delete updateData[k]`). */
  function Drop(body: seq<Assignment>, keys: set<string>): (r: seq<Assignment>)
    ensures forall a :: a in r <==> a in body && Key(a) !in keys
  {
    if body == [] then []
    else
      var last := body[|body| - 1];
      assert body == body[..|body| - 1] + [last];
      Drop(body[..|body| - 1], keys) + (if Key(last) in keys then [] else [last])
  }

  /** The value the body gives `role`, the last one if it gives several. */
  function RoleIn(body: seq<Assignment>): (r: Option<string>)
    ensures r.Some? ==> SetRole(r.value) in body
    ensures r.None? ==> forall a :: a in body ==> !a.SetRole?
  {
    if body == [] then None
    else
      var last := body[|body| - 1];
      assert body == body[..|body| - 1] + [last];
      if last.SetRole? then Some(last.text) else RoleIn(body[..|body| - 1])
  }

  lemma AssignAllSnoc(u: User, body: seq<Assignment>, a: Assignment)
    ensures AssignAll(u, body + [a]) == Assign(AssignAll(u, body), a)
  {
    assert (body + [a])[..|body|] == body;
  }

  lemma OnlySnoc(body: seq<Assignment>, a: Assignment, keys: set<string>)
    ensures Only(body + [a], keys) == Only(body, keys) + (if Key(a) in keys then [a] else [])
  {
    assert (body + [a])[..|body|] == body;
  }

  /** One more element of the body: assigned when its key is kept. */
  lemma OnlyStep(u: User, body: seq<Assignment>, i: nat, keys: set<string>)
    requires i < |body|
    ensures AssignAll(u, Only(body[..i + 1], keys)) ==
      if Key(body[i]) in keys then Assign(AssignAll(u, Only(body[..i], keys)), body[i])
      else AssignAll(u, Only(body[..i], keys))
  {
    assert body[..i + 1] == body[..i] + [body[i]];
    OnlySnoc(body[..i], body[i], keys);
    if Key(body[i]) in keys {
      AssignAllSnoc(u, Only(body[..i], keys), body[i]);
    } else {
      assert Only(body[..i], keys) + [] == Only(body[..i], keys);
    }
  }

  lemma DropSnoc(body: seq<Assignment>, a: Assignment, keys: set<string>)
    ensures Drop(body + [a], keys) == Drop(body, keys) + (if Key(a) in keys then [] else [a])
  {
    assert (body + [a])[..|body|] == body;
  }

  /** One more element of the body: assigned unless its key is dropped. */
  lemma DropStep(u: User, body: seq<Assignment>, i: nat, keys: set<string>)
    requires i < |body|
    ensures AssignAll(u, Drop(body[..i + 1], keys)) ==
      if Key(body[i]) in keys then AssignAll(u, Drop(body[..i], keys))
      else Assign(AssignAll(u, Drop(body[..i], keys)), body[i])
  {
    assert body[..i + 1] == body[..i] + [body[i]];
    DropSnoc(body[..i], body[i], keys);
    if Key(body[i]) in keys {
      assert Drop(body[..i], keys) + [] == Drop(body[..i], keys);
    } else {
      AssignAllSnoc(u, Drop(body[..i], keys), body[i]);
    }
  }

  /** The role after the assignments is the one the body gives, if any. */
  lemma {:induction false} AssignAllRole(u: User, body: seq<Assignment>)
    ensures AssignAll(u, body).role == RoleIn(body).GetOr(u.role)
  {
    if body != [] {
      var init, last := body[..|body| - 1], body[|body| - 1];
      AssignAllRole(u, init);
      var v := AssignAll(u, init);
      assert AssignAll(u, body) == Assign(v, last);
      assert Assign(v, last).role == if last.SetRole? then last.text else v.role;
    }
  }

  /** The keys updateProfile copies. */
  const ProfileFields: set<string> := {"firstName", "lastName", "phone", "dateOfBirth", "address", "avatar"}

  /** The fields that identify the account and govern access. */
  predicate SameAccount(u: User, v: User) {
    v.id == u.id && v.username == u.username && v.email == u.email && v.password == u.password &&
    v.role == u.role && v.status == u.status && v.emailVerified == u.emailVerified &&
    v.emailVerificationToken == u.emailVerificationToken &&
    v.passwordResetToken == u.passwordResetToken && v.passwordResetExpires == u.passwordResetExpires &&
    v.createdAt == u.createdAt
  }

  lemma AssignProfileField(u: User, a: Assignment)
    requires Key(a) in ProfileFields
    ensures SameAccount(u, Assign(u, a))
  {
    ProfileKeyOf(a);
  }

  /** The assignments whose key is a profile field, by constructor. */
  predicate ProfileAssignment(a: Assignment) {
    a.SetFirstName? || a.SetLastName? || a.SetPhone? || a.SetDateOfBirth? || a.SetAddress? || a.SetAvatar?
  }

  lemma ProfileKeyOf(a: Assignment)
    ensures Key(a) in ProfileFields <==> ProfileAssignment(a)
  {
    match a
    case SetUsername(_) => assert "username" != "lastName";
    case SetEmail(_) => assert "email" != "phone";
    case SetPassword(_) => assert "password" != "lastName";
    case SetRole(_) =>
    case SetStatus(_) => assert "status" != "avatar";
    case SetEmailVerified(_) =>
    case _ =>
  }

  /** Profile fields leave the account alone, however many are assigned. */
  lemma {:induction false} ProfileAssignmentsKeepAccount(u: User, body: seq<Assignment>)
    requires forall a :: a in body ==> Key(a) in ProfileFields
    ensures SameAccount(u, AssignAll(u, body))
  {
    if body != [] {
      var init, last := body[..|body| - 1], body[|body| - 1];
      assert forall a :: a in init ==> a in body;
      ProfileAssignmentsKeepAccount(u, init);
      AssignProfileField(AssignAll(u, init), last);
    }
  }

  lemma AssignOtherThanPassword(u: User, a: Assignment)
    requires Key(a) != "password"
    ensures Assign(u, a).password == u.password && Assign(u, a).id == u.id
  {
  }

  /** Assignments without a password key leave the password alone. */
  lemma {:induction false} AssignAllKeepsPassword(u: User, body: seq<Assignment>)
    requires forall a :: a in body ==> Key(a) != "password"
    ensures AssignAll(u, body).password == u.password && AssignAll(u, body).id == u.id
  {
    if body != [] {
      var init, last := body[..|body| - 1], body[|body| - 1];
      assert forall a :: a in init ==> a in body;
      AssignAllKeepsPassword(u, init);
      AssignOtherThanPassword(AssignAll(u, init), last);
    }
  }

  /** Dropping keys outside `keys` before keeping `keys` changes nothing. */
  lemma {:induction false} OnlyAfterDrop(body: seq<Assignment>, dropped: set<string>, keys: set<string>)
    requires dropped !! keys
    ensures Only(Drop(body, dropped), keys) == Only(body, keys)
  {
    if body != [] {
      var init, last := body[..|body| - 1], body[|body| - 1];
      OnlyAfterDrop(init, dropped, keys);
      if Key(last) in dropped {
        assert Drop(body, dropped) == Drop(init, dropped);
      } else {
        var d := Drop(init, dropped);
        assert (d + [last])[..|d + [last]| - 1] == d;
      }
    }
  }

  // ---------------------------------------------------------------------
  // Document methods (methods.js)
  // ---------------------------------------------------------------------

  /** `generatePasswordResetToken` makes the token valid for ten minutes. */
  const ResetTokenLifetime := 10 * 60 * 1000

  function EmailVerified(u: User): User {
    u.(emailVerified := true, emailVerificationToken := None, status := Active)
  }

  /** `changePassword` as written: the new password is hashed before it is
      assigned, and the pre-save hook then sees a modified password. */
  function PasswordChanged(u: User, newPassword: string): User {
    u.(password := Digest(Plain(newPassword)), passwordResetToken := None, passwordResetExpires := None)
  }

  /** The status setters and verifyEmail save without validation, yet a
      valid record stays valid: the statuses they set are in the enum. */
  lemma StatusChangesKeepValid(u: User, status: string, now: int)
    requires UserValid(u, now) && status in Statuses
    ensures UserValid(u.(status := status), now)
    ensures UserValid(EmailVerified(u), now)
    ensures EmailVerified(u).status == Active && EmailVerified(u).emailVerified
  {
  }

  /** A user document whose methods assign its fields in place; `save()`
      is modelled by `UserHooks.Save` at the call sites. */
  class UserDoc {
    var user: User

    constructor (u: User)
      ensures user == u
    {
      user := u;
    }

    method VerifyEmail()
      modifies this
      ensures user == EmailVerified(old(user))
    {
      user := EmailVerified(user);
    }

    method Activate()
      modifies this
      ensures user == old(user).(status := Active)
    {
      user := user.(status := Active);
    }

    method Deactivate()
      modifies this
      ensures user == old(user).(status := Inactive)
    {
      user := user.(status := Inactive);
    }

    method Suspend()
      modifies this
      ensures user == old(user).(status := Suspended)
    {
      user := user.(status := Suspended);
    }

    method UpdateLastLogin(now: int)
      modifies this
      ensures user == old(user).(lastLogin := Some(now))
    {
      user := user.(lastLogin := Some(now));
    }

    method ChangePassword(newPassword: string)
      modifies this
      ensures user == PasswordChanged(old(user), newPassword)
    {
      user := PasswordChanged(user, newPassword);
    }

    /** `digest` is the SHA-256 of the random token handed back. */
    method GeneratePasswordResetToken(digest: string, now: int)
      modifies this
      ensures user == old(user).(passwordResetToken := Some(digest), passwordResetExpires := Some(now + ResetTokenLifetime))
    {
      user := user.(passwordResetToken := Some(digest), passwordResetExpires := Some(now + ResetTokenLifetime));
    }

    method GenerateEmailVerificationToken(digest: string)
      modifies this
      ensures user == old(user).(emailVerificationToken := Some(digest))
    {
      user := user.(emailVerificationToken := Some(digest));
    }

    /** `updateProfile`: copies the allowed keys of the body, in order. */
    method UpdateProfile(body: seq<Assignment>)
      modifies this
      ensures user == AssignAll(old(user), Only(body, ProfileFields))
      ensures SameAccount(old(user), user)
    {
      var u0 := user;
      var v := user;
      var i := 0;
      while i < |body|
        invariant 0 <= i <= |body|
        invariant v == AssignAll(u0, Only(body[..i], ProfileFields))
      {
        OnlyStep(u0, body, i, ProfileFields);
        if Key(body[i]) in ProfileFields {
          v := Assign(v, body[i]);
        }
        i := i + 1;
      }
      assert body[..|body|] == body;
      ProfileAssignmentsKeepAccount(u0, Only(body, ProfileFields));
      user := v;
    }
  }
}

/** The student registration handler (src/controllers/student/registration.js):
    sanitising the body, one error per failing field, the optional
    reCAPTCHA gate, then storing the record.  The verification request to
    the reCAPTCHA service is an oracle: `verdict` is None when the request
    fails, else whether the service reported success. */
module StudentRegistration {
  import opened Wrappers
  import opened Js
  import opened Patterns
  import opened Responses
  import opened RegistrationRecord

  /** `sanitize`: '' for anything that is not a string, else the string
      trimmed. */
  function Sanitize(v: Value): (r: string)
    ensures Trimmed(r)
    ensures r != "" ==> v.Str? && r == Trim(v.s)
    ensures v.Str? ==> r == Trim(v.s)
  {
    TrimIdempotent(if v.Str? then v.s else "");
    if v.Str? then Trim(v.s) else ""
  }

  /** Sanitising a sanitised value changes nothing. */
  lemma SanitizeIdempotent(v: Value)
    ensures Sanitize(Str(Sanitize(v))) == Sanitize(v)
  {
    TrimOfTrimmed(Sanitize(v));
  }

  /** The fields of the request body the handler reads. */
  datatype Body = Body(name: Value, email: Value, facebook: Value, phone: Value, major: Value, recaptchaToken: Value)

  /** The sanitised form: `data` in the handler. */
  datatype Form = Form(name: string, email: string, facebook: string, phone: string, major: string)

  /** `data`: every field sanitised, the e-mail then lower-cased, and a
      falsy facebook link taken as ''. */
  function Sanitized(b: Body): (f: Form)
    ensures Trimmed(f.name) && Trimmed(f.email) && LowerFixed(f.email) && Trimmed(f.facebook)
    ensures Trimmed(f.phone) && Trimmed(f.major)
    ensures f.email == Lower(Sanitize(b.email))
  {
    var email := Sanitize(b.email);
    LowerKeepsTrimmed(email);
    LowerIdempotent(email);
    assert LowerFixed(Lower(email)) by {
      forall i | 0 <= i < |email| ensures LowerChar(Lower(email)[i]) == Lower(email)[i] {
        LowerCharIdempotent(email[i]);
      }
    }
    Form(Sanitize(b.name), Lower(email), Sanitize(if Truthy(b.facebook) then b.facebook else Str("")),
         Sanitize(b.phone), Sanitize(b.major))
  }

  datatype Field = Name | Email | Facebook | Phone | Major

  datatype Problem = Required | Invalid | TooLong

  /** The `errors` object: one entry per failing field, a missing field
      reported as required before its format is looked at.  As written the
      handler does not check the schema's length limits; as intended it
      reports them like any other problem. */
  function Errors(v: Version, f: Form): (e: map<Field, Problem>)
    ensures Name in e <==> f.name == "" || (v == Intended && |f.name| > NameMax)
    ensures Email in e <==> f.email == "" || !EmailLike(f.email)
    ensures Facebook in e <==> f.facebook != "" && !HttpUrl(f.facebook)
    ensures Phone in e <==> f.phone == "" || !VietnamesePhone(f.phone)
    ensures Major in e <==> f.major == "" || (v == Intended && |f.major| > MajorMax)
    ensures forall k :: k in e && e[k] == Required ==>
              (k == Name && f.name == "") || (k == Email && f.email == "") ||
              (k == Phone && f.phone == "") || (k == Major && f.major == "")
  {
    map k | k in {Name, Email, Facebook, Phone, Major} && ProblemOf(v, f, k).Some? :: ProblemOf(v, f, k).value
  }

  /** The check on one field: a missing field is required, then its
      format, then (as intended) its length. */
  function ProblemOf(v: Version, f: Form, k: Field): (p: Option<Problem>)
    ensures p == Some(Required) ==>
              (k == Name && f.name == "") || (k == Email && f.email == "") ||
              (k == Phone && f.phone == "") || (k == Major && f.major == "")
  {
    match k
    case Name =>
      if f.name == "" then Some(Required) else if v == Intended && |f.name| > NameMax then Some(TooLong) else None
    case Email =>
      if f.email == "" then Some(Required) else if !EmailLike(f.email) then Some(Invalid) else None
    case Facebook =>
      if f.facebook != "" && !HttpUrl(f.facebook) then Some(Invalid) else None
    case Phone =>
      if f.phone == "" then Some(Required) else if !VietnamesePhone(f.phone) then Some(Invalid) else None
    case Major =>
      if f.major == "" then Some(Required) else if v == Intended && |f.major| > MajorMax then Some(TooLong) else None
  }

  /** The record `create` is given: the form, the client's address and
      user agent, and the creation time. */
  function Draft(f: Form, ip: string, userAgent: string, now: int): Registration {
    Registration(f.name, f.email, f.facebook, f.phone, f.major, ip, userAgent, now)
  }

  /** As intended, the handler's checks are the schema's validators plus
      the facebook rule: a form passes them exactly when its record is
      valid and its facebook link, if any, is an http(s) URL. */
  lemma NoErrorsIffValid(f: Form, ip: string, userAgent: string, now: int)
    ensures Errors(Intended, f) == map[] <==>
              RegistrationValid(Draft(f, ip, userAgent, now)) && (f.facebook == "" || HttpUrl(f.facebook))
  {
    NoErrors(Intended, f);
  }

  /** A form has no errors exactly when every field passes its checks. */
  lemma NoErrors(v: Version, f: Form)
    ensures Errors(v, f) == map[] <==>
              f.name != "" && (v == Intended ==> |f.name| <= NameMax) && f.email != "" && EmailLike(f.email) &&
              (f.facebook == "" || HttpUrl(f.facebook)) && f.phone != "" && VietnamesePhone(f.phone) &&
              f.major != "" && (v == Intended ==> |f.major| <= MajorMax)
  {
    var e := Errors(v, f);
    if e != map[] {
      var k :| k in e;
    } else {
      assert Name !in e && Email !in e && Facebook !in e && Phone !in e && Major !in e;
    }
  }

  /** `(process.env.RECAPTCHA_ENABLED || 'false').toLowerCase() === 'true'` */
  predicate RecaptchaEnabled(setting: Option<string>) {
    setting.Some? && Lower(setting.value) == "true"
  }

  datatype Captcha = Passed | MissingToken | NotConfigured | Failed | Unreachable

  /** `verifyRecaptcha`: passes when verification is disabled; otherwise
      refuses a missing token and a missing secret before asking the
      service, whose verdict then decides. */
  function VerifyRecaptcha(enabled: bool, secret: string, token: Value, verdict: Option<bool>): (r: Captcha)
    ensures !enabled ==> r == Passed
    ensures r == Passed <==> !enabled || (Truthy(token) && secret != "" && verdict == Some(true))
    ensures enabled && !Truthy(token) ==> r == MissingToken
    ensures enabled && Truthy(token) && secret == "" ==> r == NotConfigured
  {
    if !enabled then Passed
    else if !Truthy(token) then MissingToken
    else if secret == "" then NotConfigured
    else if verdict.None? then Unreachable
    else if verdict.value then Passed
    else Failed
  }

  datatype Outcome = Outcome(code: int, records: seq<Registration>)

  /** `registerStudent`: 400 for a form with errors, 400 when the
      reCAPTCHA gate refuses, otherwise the record is created; a schema
      ValidationError from `create` answers 500. */
  function RegisterStudent(v: Version, records: seq<Registration>, b: Body, ip: string, userAgent: string,
                           enabled: bool, secret: string, verdict: Option<bool>, now: int): (r: Outcome)
    ensures r.code in {201, 400, 500}
    ensures r.code != 201 ==> r.records == records
    ensures Errors(v, Sanitized(b)) != map[] ==> r.code == 400
    ensures r.code == 201 <==>
              Errors(v, Sanitized(b)) == map[] && VerifyRecaptcha(enabled, secret, b.recaptchaToken, verdict) == Passed &&
              RegistrationValid(Draft(Sanitized(b), ip, userAgent, now))
    ensures r.code == 201 ==> r.records == records + [Draft(Sanitized(b), ip, userAgent, now)]
  {
    var f := Sanitized(b);
    if Errors(v, f) != map[] then Outcome(400, records)
    else if VerifyRecaptcha(enabled, secret, b.recaptchaToken, verdict) != Passed then Outcome(400, records)
    else
      var draft := Draft(f, ip, userAgent, now);
      CastIdle(draft);
      var record := Cast(draft);
      if !RegistrationValid(record) then Outcome(500, records)
      else Outcome(201, records + [record])
  }

  /** A form with errors is refused whatever the reCAPTCHA configuration
      and verdict: the service is not consulted. */
  lemma InvalidFormIgnoresCaptcha(v: Version, records: seq<Registration>, b: Body, ip: string, userAgent: string,
                                  enabled: bool, secret: string, verdict: Option<bool>, now: int,
                                  enabled': bool, secret': string, verdict': Option<bool>)
    requires Errors(v, Sanitized(b)) != map[]
    ensures RegisterStudent(v, records, b, ip, userAgent, enabled, secret, verdict, now) ==
            RegisterStudent(v, records, b, ip, userAgent, enabled', secret', verdict', now)
  {
  }

  /** As intended, a registration is never answered with 500: whatever
      passes the handler's checks passes the schema. */
  lemma IntendedNever500(records: seq<Registration>, b: Body, ip: string, userAgent: string,
                         enabled: bool, secret: string, verdict: Option<bool>, now: int)
    ensures RegisterStudent(Intended, records, b, ip, userAgent, enabled, secret, verdict, now).code != 500
  {
    NoErrorsIffValid(Sanitized(b), ip, userAgent, now);
  }

  /** As written, a name longer than the schema allows, in an otherwise
      valid form that the reCAPTCHA gate lets through, passes the handler's
      checks and fails `create`: 500 instead of the 400 intended. */
  lemma LongNameIs500(records: seq<Registration>, b: Body, ip: string, userAgent: string,
                      enabled: bool, secret: string, verdict: Option<bool>, now: int)
    requires var f := Sanitized(b);
             |f.name| > NameMax && EmailLike(f.email) && (f.facebook == "" || HttpUrl(f.facebook)) &&
             VietnamesePhone(f.phone) && f.major != "" && |f.major| <= MajorMax
    requires VerifyRecaptcha(enabled, secret, b.recaptchaToken, verdict) == Passed
    ensures RegisterStudent(AsWritten, records, b, ip, userAgent, enabled, secret, verdict, now) == Outcome(500, records)
    ensures RegisterStudent(Intended, records, b, ip, userAgent, enabled, secret, verdict, now) == Outcome(400, records)
  {
    var f := Sanitized(b);
    NoErrors(AsWritten, f);
    assert !RegistrationValid(Draft(f, ip, userAgent, now));
    assert Name in Errors(Intended, f);
  }

  /** A registration stored as intended is valid, and the records stored
      before are kept as they were. */
  lemma StoredRecordValid(records: seq<Registration>, b: Body, ip: string, userAgent: string,
                          enabled: bool, secret: string, verdict: Option<bool>, now: int)
    requires RegisterStudent(Intended, records, b, ip, userAgent, enabled, secret, verdict, now).code == 201
    ensures var r := RegisterStudent(Intended, records, b, ip, userAgent, enabled, secret, verdict, now);
            |r.records| == |records| + 1 && r.records[..|records|] == records &&
            RegistrationValid(r.records[|records|]) && (r.records[|records|].facebook == "" || HttpUrl(r.records[|records|].facebook))
  {
    var r := RegisterStudent(Intended, records, b, ip, userAgent, enabled, secret, verdict, now);
    NoErrorsIffValid(Sanitized(b), ip, userAgent, now);
    assert r.records[..|records|] == records;
  }
}

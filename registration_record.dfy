/** A student's registration of interest (src/models/StudentRegistration.js):
    the stored record, the schema's setters and its validators. */
module RegistrationRecord {
  import opened Js
  import opened Patterns

  const NameMax := 100
  const MajorMax := 150

  /** A stored registration; `createdAt` stands for both timestamps. */
  datatype Registration = Registration(
    name: string, email: string, facebook: string, phone: string, major: string,
    ipAddress: string, userAgent: string, createdAt: int)

  /** The setters `create` runs: every text field trimmed, the e-mail
      lower-cased first. */
  function Cast(r: Registration): (c: Registration)
    ensures Trimmed(c.name) && Trimmed(c.email) && LowerFixed(c.email) && Trimmed(c.facebook) &&
            Trimmed(c.phone) && Trimmed(c.major)
    ensures c.ipAddress == r.ipAddress && c.userAgent == r.userAgent && c.createdAt == r.createdAt
  {
    TrimIdempotent(r.name);
    TrimIdempotent(r.facebook);
    TrimIdempotent(r.phone);
    TrimIdempotent(r.major);
    LowerTrimmed(r.email);
    r.(name := Trim(r.name), email := Trim(Lower(r.email)), facebook := Trim(r.facebook),
       phone := Trim(r.phone), major := Trim(r.major))
  }

  /** The schema's validators: name, e-mail, phone and major required (an
      empty string fails `required`), the length limits on name and major,
      and the e-mail and phone patterns. */
  predicate RegistrationValid(r: Registration) {
    r.name != "" && |r.name| <= NameMax &&
    r.email != "" && EmailLike(r.email) &&
    r.phone != "" && VietnamesePhone(r.phone) &&
    r.major != "" && |r.major| <= MajorMax
  }

  /** The setters change nothing on a record that is already trimmed and
      whose e-mail is lower-cased. */
  lemma CastIdle(r: Registration)
    requires Trimmed(r.name) && Trimmed(r.email) && LowerFixed(r.email) && Trimmed(r.facebook)
    requires Trimmed(r.phone) && Trimmed(r.major)
    ensures Cast(r) == r
  {
    TrimOfTrimmed(r.name);
    LowerOfFixed(r.email);
    TrimOfTrimmed(r.email);
    TrimOfTrimmed(r.facebook);
    TrimOfTrimmed(r.phone);
    TrimOfTrimmed(r.major);
  }

  /** The setters are idempotent: casting twice is casting once. */
  lemma CastIdempotent(r: Registration)
    ensures Cast(Cast(r)) == Cast(r)
  {
    CastIdle(Cast(r));
  }
}

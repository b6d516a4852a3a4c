/** The regular expressions the user and student-registration models test
    strings against, written as predicates on the characters. */
module Patterns {
  import opened Js

  /** `[^\s@]` */
  predicate EmailChar(c: char) {
    !IsSpace(c) && c != '@'
  }

  predicate EmailChars(s: string) {
    forall i :: 0 <= i < |s| ==> EmailChar(s[i])
  }

  /** `/^[^\s@]+@[^\s@]+\.[^\s@]+$/`: a non-empty part, an '@', and a part
      holding a '.' that is neither its first nor its last character; no
      whitespace and no second '@' anywhere. */
  predicate EmailLike(s: string) {
    exists k :: 0 < k < |s| && s[k] == '@' && EmailChars(s[..k]) && EmailChars(s[k + 1..]) &&
      exists j :: k + 1 < j < |s| - 1 && s[j] == '.'
  }

  /** The address has exactly one '@'. */
  lemma EmailLikeOneAt(s: string, k: int, k': int)
    requires EmailLike(s)
    requires 0 <= k < |s| && s[k] == '@' && 0 <= k' < |s| && s[k'] == '@'
    ensures k == k'
  {
    var m :| 0 < m < |s| && s[m] == '@' && EmailChars(s[..m]) && EmailChars(s[m + 1..]) &&
             exists j :: m + 1 < j < |s| - 1 && s[j] == '.';
    OnlyAt(s, m, k);
    OnlyAt(s, m, k');
  }

  /** An '@' outside two runs of e-mail characters is the one between them. */
  lemma OnlyAt(s: string, m: int, k: int)
    requires 0 < m < |s| && EmailChars(s[..m]) && EmailChars(s[m + 1..])
    requires 0 <= k < |s| && s[k] == '@'
    ensures k == m
  {
  }

  /** An address the pattern accepts. */
  lemma EmailAccepted()
    ensures EmailLike("an@example.vn")
  {
    var s := "an@example.vn";
    assert s[2] == '@' && s[10] == '.';
    assert EmailChars(s[..2]) && EmailChars(s[3..]);
  }

  /** Text without an '@' is refused. */
  lemma EmailNeedsAt(s: string)
    requires forall i :: 0 <= i < |s| ==> s[i] != '@'
    ensures !EmailLike(s)
  {
  }

  predicate Digits(s: string) {
    forall i :: 0 <= i < |s| ==> IsDigit(s[i])
  }

  /** `/^[0-9]{10,11}$/` */
  predicate PhoneNumber(s: string) {
    10 <= |s| <= 11 && Digits(s)
  }

  /** `/^(?:\+84|0)(?:\d){9,10}$/`: '+84' or '0' followed by nine or ten
      digits. */
  predicate VietnamesePhone(s: string) {
    (StartsWith(s, "+84") && 9 <= |s| - 3 <= 10 && Digits(s[3..])) ||
    (StartsWith(s, "0") && 9 <= |s| - 1 <= 10 && Digits(s[1..]))
  }

  /** A national number is ten or eleven digits starting with 0; an
      international one is '+84' and twelve or thirteen characters. */
  lemma VietnamesePhoneShape(s: string)
    requires VietnamesePhone(s)
    ensures s[0] == '0' ==> PhoneNumber(s)
    ensures s[0] != '0' ==> s[..3] == "+84" && 12 <= |s| <= 13
  {
    if s[0] == '0' {
      assert s == [s[0]] + s[1..];
      forall i | 0 <= i < |s| ensures IsDigit(s[i]) {
        if i > 0 {
          assert s[1..][i - 1] == s[i];
        }
      }
    }
  }

  /** `[0-9a-fA-F]` */
  predicate HexDigit(c: char) {
    '0' <= c <= '9' || 'a' <= c <= 'f' || 'A' <= c <= 'F'
  }

  /** `/^[0-9a-fA-F]{24}$/`: the text form of a MongoDB ObjectId, the test
      getArticle and getCategory apply before they call `findById`.  Any
      other id makes Mongoose's cast to ObjectId throw a CastError, in
      `findById` and in a `{_id: {$in: ids}}` filter alike. */
  predicate ObjectIdText(s: string) {
    |s| == 24 && forall i :: 0 <= i < |s| ==> HexDigit(s[i])
  }

  /** Every id of the list casts to an ObjectId. */
  predicate ObjectIdTexts(ids: seq<string>) {
    forall id :: id in ids ==> ObjectIdText(id)
  }

  /** A hex digit as an ObjectId's `toString` writes it: in lower case. */
  function HexLower(c: char): char {
    if 'A' <= c <= 'F' then (c as int + 32) as char else c
  }

  /** The text of a stored ObjectId: 24 hex digits, none of them an
      upper-case letter. */
  predicate CanonicalId(s: string) {
    ObjectIdText(s) && forall i :: 0 <= i < |s| ==> !('A' <= s[i] <= 'F')
  }

  /** The ObjectId that the id text `s` casts to, written as its
      `toString` writes it.  bson reads the hex digits in either case, so
      the spellings of one id that differ only in case name one document:
      `findById`, `$in` and a document's id field all go through this
      cast. */
  function ObjectIdKey(s: string): (r: string)
    ensures |r| == |s|
    ensures ObjectIdText(s) ==> CanonicalId(r)
    ensures forall i :: 0 <= i < |s| ==> r[i] == s[i] || ('A' <= s[i] <= 'F' && r[i] == s[i] + ' ')
  {
    seq(|s|, i requires 0 <= i < |s| => HexLower(s[i]))
  }

  /** A stored id is its own key, and a key is its own key. */
  lemma {:induction false} CanonicalIdIsKey(s: string)
    requires CanonicalId(s)
    ensures ObjectIdKey(s) == s
  {
    assert forall i :: 0 <= i < |s| ==> ObjectIdKey(s)[i] == s[i];
  }

  /** The ObjectIds a list of ids casts to, in order. */
  function ObjectIdKeys(ids: seq<string>): (r: seq<string>)
    ensures |r| == |ids|
    ensures forall i :: 0 <= i < |ids| ==> r[i] == ObjectIdKey(ids[i])
  {
    seq(|ids|, i requires 0 <= i < |ids| => ObjectIdKey(ids[i]))
  }

  /** `/^https?:\/\//i` */
  predicate HttpUrl(s: string) {
    StartsWith(Lower(s), "http://") || StartsWith(Lower(s), "https://")
  }
}

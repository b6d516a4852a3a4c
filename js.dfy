/** The JavaScript primitives the backend leans on: truthiness, the `\s`
    character class, `trim`, `toLowerCase`/`toUpperCase`, `parseInt` and the
    decimal `String(n)` of an integer.  A `char` stands for one character of a
    JavaScript string. */
module Js {
  import opened Wrappers

  /** A JavaScript number as the backend uses it: an integer, or NaN. */
  datatype Number = NaN | Int(i: int)

  /** A value taken from a request (query string, JSON body, header).
      `Obj` is an array or object, kept as the text `String(value)` gives. */
  datatype Value = Undefined | Null | Bool(b: bool) | Num(n: Number) | Str(s: string) | Obj(text: string)

  /** `!!v` */
  predicate Truthy(v: Value) {
    match v
    case Undefined => false
    case Null => false
    case Bool(b) => b
    case Num(n) => n.Int? && n.i != 0
    case Str(s) => s != ""
    case Obj(_) => true
  }

  /** `String(v)` */
  function ToStr(v: Value): string {
    match v
    case Undefined => "undefined"
    case Null => "null"
    case Bool(b) => if b then "true" else "false"
    case Num(n) => if n.NaN? then "NaN" else IntToString(n.i)
    case Str(s) => s
    case Obj(t) => t
  }

  // ---------------------------------------------------------------------
  // Whitespace and trimming
  // ---------------------------------------------------------------------

  /** Membership in the regular-expression class `\s` (WhiteSpace and
      LineTerminator of ECMAScript), which is also what `trim` removes. */
  predicate IsSpace(c: char) {
    var n := c as int;
    n == 0x09 || n == 0x0A || n == 0x0B || n == 0x0C || n == 0x0D || n == 0x20 ||
    n == 0xA0 || n == 0x1680 || (0x2000 <= n <= 0x200A) || n == 0x2028 || n == 0x2029 ||
    n == 0x202F || n == 0x205F || n == 0x3000 || n == 0xFEFF
  }

  predicate NoSpace(s: string) {
    forall i :: 0 <= i < |s| ==> !IsSpace(s[i])
  }

  /** `s.trimStart()`: the suffix left after dropping leading whitespace. */
  function TrimStart(s: string): (r: string)
    ensures |r| <= |s| && r == s[|s| - |r|..]
    ensures r == [] || !IsSpace(r[0])
    ensures forall i :: 0 <= i < |s| - |r| ==> IsSpace(s[i])
  {
    if s != [] && IsSpace(s[0]) then TrimStart(s[1..]) else s
  }

  /** `s.trimEnd()`: the prefix left after dropping trailing whitespace. */
  function TrimEnd(s: string): (r: string)
    ensures |r| <= |s| && r == s[..|r|]
    ensures r == [] || !IsSpace(r[|r| - 1])
    ensures forall i :: |r| <= i < |s| ==> IsSpace(s[i])
  {
    if s != [] && IsSpace(s[|s| - 1]) then TrimEnd(s[..|s| - 1]) else s
  }

  /** `s.trim()` */
  function Trim(s: string): (r: string)
    ensures |r| <= |s|
    ensures r == [] || (!IsSpace(r[0]) && !IsSpace(r[|r| - 1]))
  {
    TrimEnd(TrimStart(s))
  }

  /** `trim` on an optional text field: an absent value stays absent. */
  function TrimOpt(v: Option<string>): (r: Option<string>)
    ensures r.Some? <==> v.Some?
    ensures r.Some? ==> r.value == Trim(v.value)
  {
    if v.Some? then Some(Trim(v.value)) else None
  }

  /** A string `trim` leaves alone. */
  predicate Trimmed(s: string) {
    s == [] || (!IsSpace(s[0]) && !IsSpace(s[|s| - 1]))
  }

  lemma TrimOfTrimmed(s: string)
    requires Trimmed(s)
    ensures Trim(s) == s
  {
  }

  lemma TrimIdempotent(s: string)
    ensures Trimmed(Trim(s)) && Trim(Trim(s)) == Trim(s)
  {
    TrimOfTrimmed(Trim(s));
  }

  /** True when `s` is empty or whitespace only, i.e. `!s.trim()`. */
  predicate Blank(s: string) {
    Trim(s) == []
  }

  /** `s.replace(/\s+/g, sep)`: every maximal run of whitespace becomes one
      copy of `sep`; every other character is kept. */
  function ReplaceSpaceRuns(s: string, sep: string): (r: string)
    decreases |s|
  {
    if s == [] then []
    else if IsSpace(s[0]) then sep + ReplaceSpaceRuns(TrimStart(s), sep)
    else [s[0]] + ReplaceSpaceRuns(s[1..], sep)
  }

  /** The replacement introduces no character besides those of `sep`, and
      keeps no whitespace of `s`. */
  lemma {:induction false} ReplaceSpaceRunsChars(s: string, sep: string)
    ensures forall c :: c in ReplaceSpaceRuns(s, sep) ==> c in sep || (c in s && !IsSpace(c))
    decreases |s|
  {
    if s == [] {
    } else if IsSpace(s[0]) {
      var t := TrimStart(s);
      ReplaceSpaceRunsChars(t, sep);
      forall c | c in t ensures c in s {
        var i :| 0 <= i < |t| && t[i] == c;
        assert s[|s| - |t| + i] == c;
      }
    } else {
      ReplaceSpaceRunsChars(s[1..], sep);
      assert forall c :: c in s[1..] ==> c in s;
    }
  }

  /** Text without whitespace is left as it is. */
  lemma {:induction false} ReplaceNoSpace(s: string, sep: string)
    requires NoSpace(s)
    ensures ReplaceSpaceRuns(s, sep) == s
    decreases |s|
  {
    if s != [] {
      ReplaceNoSpace(s[1..], sep);
    }
  }

  // ---------------------------------------------------------------------
  // Case mapping
  // ---------------------------------------------------------------------

  /** `toLowerCase` on one character, for the Basic Latin, Latin-1, Latin
      Extended-A, Vietnamese horn letters and Latin Extended Additional
      ranges; other characters are returned unchanged. */
  function LowerChar(c: char): char {
    var n := c as int;
    if 'A' <= c <= 'Z' || (0xC0 <= n <= 0xDE && n != 0xD7) then (n + 32) as char
    else if n % 2 == 0 && (0x100 <= n <= 0x12F || 0x132 <= n <= 0x137 || 0x14A <= n <= 0x177 ||
                           0x1E00 <= n <= 0x1E95 || 0x1EA0 <= n <= 0x1EFF) then (n + 1) as char
    else if n % 2 == 1 && (0x139 <= n <= 0x148 || 0x179 <= n <= 0x17E) then (n + 1) as char
    else if n == 0x178 then 0xFF as char
    else if n == 0x1A0 || n == 0x1AF then (n + 1) as char
    else c
  }

  /** `toUpperCase` on one character, over the same ranges as LowerChar. */
  function UpperChar(c: char): char {
    var n := c as int;
    if 'a' <= c <= 'z' || (0xE0 <= n <= 0xFE && n != 0xF7) then (n - 32) as char
    else if n % 2 == 1 && (0x101 <= n <= 0x12F || 0x133 <= n <= 0x137 || 0x14B <= n <= 0x177 ||
                           0x1E01 <= n <= 0x1E95 || 0x1EA1 <= n <= 0x1EFF) then (n - 1) as char
    else if n % 2 == 0 && (0x13A <= n <= 0x148 || 0x17A <= n <= 0x17E) then (n - 1) as char
    else if n == 0xFF then 0x178 as char
    else if n == 0x1A1 || n == 0x1B0 then (n - 1) as char
    // micro sign, dotless i and long s have their capitals outside these blocks
    else if n == 0xB5 then 0x39C as char
    else if n == 0x131 then 'I'
    else if n == 0x17F then 'S'
    else c
  }

  lemma LowerCharIdempotent(c: char)
    ensures LowerChar(LowerChar(c)) == LowerChar(c)
  {
  }

  /** `s.toLowerCase()` */
  function Lower(s: string): (r: string)
    ensures |r| == |s|
  {
    seq(|s|, i requires 0 <= i < |s| => LowerChar(s[i]))
  }

  /** `s.toUpperCase()` */
  function Upper(s: string): (r: string)
    ensures |r| == |s|
  {
    seq(|s|, i requires 0 <= i < |s| => UpperChar(s[i]))
  }

  lemma LowerIdempotent(s: string)
    ensures Lower(Lower(s)) == Lower(s)
  {
    forall i | 0 <= i < |s| ensures Lower(Lower(s))[i] == Lower(s)[i] {
      LowerCharIdempotent(s[i]);
    }
  }

  /** `toLowerCase` maps whitespace to whitespace and nothing else to it. */
  lemma LowerCharSpace(c: char)
    ensures IsSpace(LowerChar(c)) <==> IsSpace(c)
  {
  }

  /** Lower-casing text without whitespace at its ends leaves none there. */
  lemma LowerKeepsTrimmed(s: string)
    requires Trimmed(s)
    ensures Trimmed(Lower(s))
  {
    if s != [] {
      LowerCharSpace(s[0]);
      LowerCharSpace(s[|s| - 1]);
    }
  }

  /** Trimming keeps a lower-cased text lower-cased, and trimming twice is
      trimming once. */
  lemma LowerTrimmed(e: string)
    ensures Trimmed(Trim(Lower(e))) && LowerFixed(Trim(Lower(e)))
  {
    assert Trimmed(Trim(Lower(e))) by {
      TrimIdempotent(Lower(e));
    }
    var l := Lower(e);
    LowerFixedLower(e);
    var s := TrimStart(l);
    LowerFixedSlice(l, |l| - |s|, |l|);
    LowerFixedSlice(s, 0, |TrimEnd(s)|);
  }

  /** Lower-cased text is left alone by `toLowerCase`. */
  lemma LowerFixedLower(s: string)
    ensures LowerFixed(Lower(s))
  {
    forall i | 0 <= i < |s| ensures LowerChar(Lower(s)[i]) == Lower(s)[i] {
      LowerCharIdempotent(s[i]);
    }
  }

  /** A slice of text `toLowerCase` leaves alone is left alone too. */
  lemma LowerFixedSlice(s: string, lo: nat, hi: nat)
    requires LowerFixed(s) && lo <= hi <= |s|
    ensures LowerFixed(s[lo..hi])
  {
    forall i | 0 <= i < hi - lo ensures LowerChar(s[lo..hi][i]) == s[lo..hi][i] {
      assert s[lo..hi][i] == s[lo + i];
    }
  }

  lemma LowerAppend(a: string, b: string)
    ensures Lower(a + b) == Lower(a) + Lower(b)
  {
  }

  /** Characters that `toLowerCase` leaves alone because they are already
      lower case, digits or punctuation. */
  predicate LowerFixed(s: string) {
    forall i :: 0 <= i < |s| ==> LowerChar(s[i]) == s[i]
  }

  lemma LowerOfFixed(s: string)
    requires LowerFixed(s)
    ensures Lower(s) == s
  {
  }

  // ---------------------------------------------------------------------
  // Integers as text
  // ---------------------------------------------------------------------

  predicate IsDigit(c: char) { '0' <= c <= '9' }

  function DigitChar(d: nat): (c: char)
    requires d < 10
    ensures IsDigit(c)
  {
    ('0' as int + d) as char
  }

  /** The value of one digit in any radix up to 36, or 36 for a non-digit. */
  function DigitVal(c: char): nat {
    if '0' <= c <= '9' then c as int - '0' as int
    else if 'a' <= c <= 'z' then c as int - 'a' as int + 10
    else if 'A' <= c <= 'Z' then c as int - 'A' as int + 10
    else 36
  }

  /** Decimal text of a natural number, most significant digit first. */
  function NatToString(n: nat): (r: string)
    ensures |r| >= 1
    ensures forall i :: 0 <= i < |r| ==> IsDigit(r[i])
  {
    if n < 10 then [DigitChar(n)] else NatToString(n / 10) + [DigitChar(n % 10)]
  }

  /** `String(n)` for an integer n. */
  function IntToString(n: int): (r: string)
    ensures |r| >= 1
  {
    if n < 0 then "-" + NatToString(-n) else NatToString(n)
  }

  /** Length of the longest prefix of `s` made of digits of `radix`. */
  function DigitRun(s: string, radix: nat): (k: nat)
    ensures k <= |s|
    ensures forall i :: 0 <= i < k ==> DigitVal(s[i]) < radix
    ensures k < |s| ==> DigitVal(s[k]) >= radix
  {
    if s != [] && DigitVal(s[0]) < radix then 1 + DigitRun(s[1..], radix) else 0
  }

  /** Positional value of a digit string in the given radix. */
  function DigitsValue(d: string, radix: nat): nat {
    if d == [] then 0 else DigitsValue(d[..|d| - 1], radix) * radix + DigitVal(d[|d| - 1])
  }

  /** `parseInt(s, radix)` where radix 0 stands for an omitted radix: skip
      leading whitespace, read an optional sign, then the magnitude.  A result
      of -0 is the integer 0. */
  function ParseIntRadix(s: string, radix: int): Number
  {
    var t := TrimStart(s);
    if t != [] && t[0] == '-' then Negate(ParseMagnitude(t[1..], radix))
    else if t != [] && t[0] == '+' then ParseMagnitude(t[1..], radix)
    else ParseMagnitude(t, radix)
  }

  function Negate(n: Number): Number {
    if n.NaN? then NaN else Int(-n.i)
  }

  /** The unsigned part of `parseInt`: a radix outside 2..36 gives NaN; a
      `0x`/`0X` prefix is stripped when the radix is omitted or 16; then the
      longest run of digits is read, and no digit at all gives NaN. */
  function ParseMagnitude(u: string, radix: int): (r: Number)
    ensures r.Int? ==> r.i >= 0
  {
    if radix != 0 && (radix < 2 || radix > 36) then NaN
    else
      var hexPrefix := (radix == 0 || radix == 16) && |u| >= 2 && u[0] == '0' && (u[1] == 'x' || u[1] == 'X');
      var base := if hexPrefix then 16 else if radix == 0 then 10 else radix;
      var w := if hexPrefix then u[2..] else u;
      var k := DigitRun(w, base);
      if k == 0 then NaN else Int(DigitsValue(w[..k], base))
  }

  /** `parseInt(s)` */
  function ParseInt(s: string): Number {
    ParseIntRadix(s, 0)
  }

  /** `parseInt(v)` for a value of any type: the value is first turned into text. */
  function ParseIntValue(v: Value): Number {
    ParseInt(ToStr(v))
  }

  /** `parseInt(v) || d`: NaN and 0 fall back to d. */
  function ParseIntOr(v: Value, d: int): int {
    var p := ParseIntValue(v);
    if p.Int? && p.i != 0 then p.i else d
  }

  lemma {:induction false} DigitRunOfDigits(s: string)
    requires forall i :: 0 <= i < |s| ==> IsDigit(s[i])
    ensures DigitRun(s, 10) == |s|
  {
    if s != [] {
      DigitRunOfDigits(s[1..]);
    }
  }

  lemma {:induction false} DigitsValueOfNat(n: nat)
    ensures DigitsValue(NatToString(n), 10) == n
  {
    var d := NatToString(n);
    if n >= 10 {
      assert d[..|d| - 1] == NatToString(n / 10);
      DigitsValueOfNat(n / 10);
    }
  }

  /** Reading a plain run of decimal digits gives back their value. */
  lemma ParseDigits(d: string)
    requires |d| >= 1 && forall i :: 0 <= i < |d| ==> IsDigit(d[i])
    ensures ParseMagnitude(d, 0) == Int(DigitsValue(d, 10))
  {
    assert !(|d| >= 2 && (d[1] == 'x' || d[1] == 'X'));
    DigitRunOfDigits(d);
    assert d[..|d|] == d;
  }

  lemma TrimStartKeeps(s: string)
    requires s != [] && !IsSpace(s[0])
    ensures TrimStart(s) == s
  {
  }

  lemma ParseIntPlain(s: string, n: nat)
    requires s == NatToString(n)
    ensures ParseInt(s) == Int(n)
  {
    assert IsDigit(s[0]);
    TrimStartKeeps(s);
    assert ParseInt(s) == ParseMagnitude(s, 0);
    ParseDigits(s);
    DigitsValueOfNat(n);
  }

  lemma ParseIntNegative(s: string, n: nat)
    requires s == "-" + NatToString(n)
    ensures ParseInt(s) == Int(0 - n)
  {
    TrimStartKeeps(s);
    assert ParseInt(s) == Negate(ParseMagnitude(s[1..], 0));
    assert s[1..] == NatToString(n);
    ParseDigits(s[1..]);
    DigitsValueOfNat(n);
  }

  /** `parseInt(String(n)) === n` for every integer n. */
  lemma ParseIntOfIntToString(n: int)
    ensures ParseInt(IntToString(n)) == Int(n)
  {
    if n < 0 {
      ParseIntNegative(IntToString(n), -n);
    } else {
      ParseIntPlain(IntToString(n), n);
    }
  }

  lemma IntToStringInjective(a: int, b: int)
    requires IntToString(a) == IntToString(b)
    ensures a == b
  {
    ParseIntOfIntToString(a);
    ParseIntOfIntToString(b);
  }

  lemma IntToStringLowerFixed(n: int)
    ensures LowerFixed(IntToString(n))
  {
  }

  // ---------------------------------------------------------------------
  // Small string helpers
  // ---------------------------------------------------------------------

  predicate StartsWith(s: string, prefix: string) {
    |prefix| <= |s| && s[..|prefix|] == prefix
  }

  predicate EndsWith(s: string, suffix: string) {
    |suffix| <= |s| && s[|s| - |suffix|..] == suffix
  }

  /** `parts.join(sep)` */
  function Join(parts: seq<string>, sep: string): string {
    if parts == [] then ""
    else if |parts| == 1 then parts[0]
    else parts[0] + sep + Join(parts[1..], sep)
  }

  /** `Math.ceil(a / b)` for a positive divisor. */
  function CeilDiv(a: int, b: int): (q: int)
    requires b > 0
    ensures (q - 1) * b < a <= q * b
  {
    (a + b - 1) / b
  }

  function Max(a: int, b: int): int { if a >= b then a else b }
  function Min(a: int, b: int): int { if a <= b then a else b }
}

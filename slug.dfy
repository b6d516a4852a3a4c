/** Slug generation, shared verbatim by the Article and Category statics
    (src/models/Article/statics.js:86-139, src/models/Category/statics.js:50-103):
    lower-case and trim the title, replace the listed Vietnamese letters by
    their base letter one table entry at a time, then apply the regular
    expression chain; and the search for a slug no other document uses. */
module Slug {
  import opened Js

  /** The replacement table, in the order of its entries, written as one
      run of entries per base letter. */
  const VietnameseMap: seq<(char, char)> :=
    AEntries + (EEntries + (IEntries + (OEntries + (UEntries + (YEntries + DEntries)))))

  const AEntries: seq<(char, char)> := [
    ('à', 'a'), ('á', 'a'), ('ạ', 'a'), ('ả', 'a'), ('ã', 'a'), ('â', 'a'), ('ầ', 'a'), ('ấ', 'a'), ('ậ', 'a'),
    ('ẩ', 'a'), ('ẫ', 'a'), ('ă', 'a'), ('ằ', 'a'), ('ắ', 'a'), ('ặ', 'a'), ('ẳ', 'a'), ('ẵ', 'a')]
  const EEntries: seq<(char, char)> := [
    ('è', 'e'), ('é', 'e'), ('ẹ', 'e'), ('ẻ', 'e'), ('ẽ', 'e'), ('ê', 'e'), ('ề', 'e'), ('ế', 'e'), ('ệ', 'e'),
    ('ể', 'e'), ('ễ', 'e')]
  const IEntries: seq<(char, char)> := [('ì', 'i'), ('í', 'i'), ('ị', 'i'), ('ỉ', 'i'), ('ĩ', 'i')]
  const OEntries: seq<(char, char)> := [
    ('ò', 'o'), ('ó', 'o'), ('ọ', 'o'), ('ỏ', 'o'), ('õ', 'o'), ('ô', 'o'), ('ồ', 'o'), ('ố', 'o'), ('ộ', 'o'),
    ('ổ', 'o'), ('ỗ', 'o'), ('ơ', 'o'), ('ờ', 'o'), ('ớ', 'o'), ('ợ', 'o'), ('ở', 'o'), ('ỡ', 'o')]
  const UEntries: seq<(char, char)> := [
    ('ù', 'u'), ('ú', 'u'), ('ụ', 'u'), ('ủ', 'u'), ('ũ', 'u'), ('ư', 'u'), ('ừ', 'u'), ('ứ', 'u'), ('ự', 'u'),
    ('ử', 'u'), ('ữ', 'u')]
  const YEntries: seq<(char, char)> := [('ỳ', 'y'), ('ý', 'y'), ('ỵ', 'y'), ('ỷ', 'y'), ('ỹ', 'y')]
  const DEntries: seq<(char, char)> := [('đ', 'd')]

  /** `s.replace(new RegExp(from, 'g'), to)` for a one-character pattern. */
  function ReplaceAll(s: string, from: char, to: char): string {
    seq(|s|, k requires 0 <= k < |s| => if s[k] == from then to else s[k])
  }

  /** What a character becomes after the replacements of the entries `es`,
      applied in order. */
  function Replaced(es: seq<(char, char)>, c: char): char
    decreases |es|
  {
    if es == [] then c
    else
      var before := Replaced(es[..|es| - 1], c);
      if before == es[|es| - 1].0 then es[|es| - 1].1 else before
  }

  /** The replacement of the first entry for c, or c itself. */
  function Lookup(es: seq<(char, char)>, c: char): char
    decreases |es|
  {
    if es == [] then c else if es[0].0 == c then es[0].1 else Lookup(es[1..], c)
  }

  /** Each replacement is plain ASCII and no pattern is: once replaced, a
      letter is never replaced again. */
  predicate AsciiReplacements(es: seq<(char, char)>) {
    forall i :: 0 <= i < |es| ==> es[i].0 as int >= 128 && es[i].1 as int < 128
  }

  lemma AsciiConcat(a: seq<(char, char)>, b: seq<(char, char)>)
    requires AsciiReplacements(a) && AsciiReplacements(b)
    ensures AsciiReplacements(a + b)
  {
    assert forall i :: |a| <= i < |a + b| ==> (a + b)[i] == b[i - |a|];
  }

  lemma VietnameseMapAscii()
    ensures AsciiReplacements(VietnameseMap)
  {
    assert AsciiReplacements(AEntries) && AsciiReplacements(EEntries) && AsciiReplacements(IEntries);
    assert AsciiReplacements(OEntries) && AsciiReplacements(UEntries) && AsciiReplacements(YEntries);
    assert AsciiReplacements(DEntries);
    AsciiConcat(YEntries, DEntries);
    AsciiConcat(UEntries, YEntries + DEntries);
    AsciiConcat(OEntries, UEntries + (YEntries + DEntries));
    AsciiConcat(IEntries, OEntries + (UEntries + (YEntries + DEntries)));
    AsciiConcat(EEntries, IEntries + (OEntries + (UEntries + (YEntries + DEntries))));
    AsciiConcat(AEntries, EEntries + (IEntries + (OEntries + (UEntries + (YEntries + DEntries)))));
  }

  lemma {:induction false} LookupSnoc(es: seq<(char, char)>, e: (char, char), c: char)
    ensures Lookup(es + [e], c) == if Lookup(es, c) != c || exists i :: 0 <= i < |es| && es[i].0 == c
                                   then Lookup(es, c) else if e.0 == c then e.1 else c
    decreases |es|
  {
    if es != [] {
      assert (es + [e])[1..] == es[1..] + [e];
      LookupSnoc(es[1..], e, c);
      if es[0].0 != c {
        if exists i :: 0 <= i < |es[1..]| && es[1..][i].0 == c {
          var i :| 0 <= i < |es[1..]| && es[1..][i].0 == c;
          assert es[i + 1].0 == c;
        }
        if exists i :: 0 <= i < |es| && es[i].0 == c {
          var i :| 0 <= i < |es| && es[i].0 == c;
          assert i > 0 && es[1..][i - 1].0 == c;
        }
      }
    }
  }

  /** The value Lookup gives a pattern letter is its replacement: a letter
      that has an entry never stays. */
  lemma {:induction false} LookupOfKey(es: seq<(char, char)>, c: char)
    requires AsciiReplacements(es)
    ensures (exists i :: 0 <= i < |es| && es[i].0 == c) ==> Lookup(es, c) as int < 128
    ensures !(exists i :: 0 <= i < |es| && es[i].0 == c) ==> Lookup(es, c) == c
    decreases |es|
  {
    if es != [] {
      LookupOfKey(es[1..], c);
      if exists i :: 0 <= i < |es[1..]| && es[1..][i].0 == c {
        var i :| 0 <= i < |es[1..]| && es[1..][i].0 == c;
        assert es[i + 1].0 == c;
      }
      if exists i :: 0 <= i < |es| && es[i].0 == c {
        var i :| 0 <= i < |es| && es[i].0 == c;
        assert i == 0 || es[1..][i - 1].0 == c;
      }
    }
  }

  /** Replacing entry by entry is the same as looking each letter up once,
      because no replacement is itself a pattern. */
  lemma {:induction false} ReplacedIsLookup(es: seq<(char, char)>, c: char)
    requires AsciiReplacements(es)
    ensures Replaced(es, c) == Lookup(es, c)
    decreases |es|
  {
    if es != [] {
      var init, e := es[..|es| - 1], es[|es| - 1];
      assert es == init + [e];
      ReplacedIsLookup(init, c);
      LookupSnoc(init, e, c);
      LookupOfKey(init, c);
      if exists i :: 0 <= i < |init| && init[i].0 == c {
        assert Lookup(init, c) != e.0;
      }
    }
  }

  /** The letter the table turns c into (c itself when it has no entry). */
  function BaseLetter(c: char): char {
    Lookup(VietnameseMap, c)
  }

  /** A character of a slug: a lower-case ASCII letter or a digit. */
  predicate SlugChar(c: char) {
    'a' <= c <= 'z' || '0' <= c <= '9'
  }

  /** `.replace(/[^a-z0-9\s-]/g, '')` */
  function KeepSlugChars(s: string): (r: string)
    ensures forall k :: 0 <= k < |r| ==> SlugChar(r[k]) || IsSpace(r[k]) || r[k] == '-'
    ensures |r| <= |s|
  {
    if s == [] then []
    else
      var rest := KeepSlugChars(s[1..]);
      if SlugChar(s[0]) || IsSpace(s[0]) || s[0] == '-' then [s[0]] + rest else rest
  }

  /** The longest suffix of s that does not start with '-'. */
  function DropDashes(s: string): (r: string)
    ensures |r| <= |s| && r == s[|s| - |r|..]
    ensures r == [] || r[0] != '-'
  {
    if s != [] && s[0] == '-' then DropDashes(s[1..]) else s
  }

  /** A dash at `k` and another right after it. */
  predicate DoubleDashAt(s: string, k: int)
    requires 0 <= k < |s| - 1
  {
    s[k] == '-' && s[k + 1] == '-'
  }

  /** No two adjacent dashes. */
  predicate NoDoubleDash(s: string) {
    forall k :: 0 <= k < |s| - 1 ==> !DoubleDashAt(s, k)
  }

  /** A character in front keeps adjacent dashes apart unless a dash
      goes in front of a dash. */
  lemma NoDoubleDashCons(c: char, r: string)
    requires NoDoubleDash(r) && (c != '-' || r == [] || r[0] != '-')
    ensures NoDoubleDash([c] + r)
  {
    forall k | 0 <= k < |[c] + r| - 1
      ensures !DoubleDashAt([c] + r, k)
    {
      if k > 0 {
        assert !DoubleDashAt(r, k - 1);
      }
    }
  }

  /** A piece of text without adjacent dashes has none either. */
  lemma NoDoubleDashSlice(s: string, i: int, j: int)
    requires NoDoubleDash(s) && 0 <= i <= j <= |s|
    ensures NoDoubleDash(s[i..j])
  {
    forall k | 0 <= k < |s[i..j]| - 1
      ensures !DoubleDashAt(s[i..j], k)
    {
      assert !DoubleDashAt(s, i + k);
    }
  }

  /** Only slug characters and dashes. */
  predicate SlugAlphabet(s: string) {
    forall k :: 0 <= k < |s| ==> SlugChar(s[k]) || s[k] == '-'
  }

  /** `.replace(/-+/g, '-')` */
  function SquashDashes(s: string): (r: string)
    ensures NoDoubleDash(r)
    ensures SlugAlphabet(s) ==> SlugAlphabet(r)
    decreases |s|
  {
    if s == [] then []
    else if s[0] == '-' then
      var rest := SquashDashes(DropDashes(s));
      assert rest == [] || rest[0] != '-';
      NoDoubleDashCons('-', rest);
      "-" + rest
    else
      NoDoubleDashCons(s[0], SquashDashes(s[1..]));
      [s[0]] + SquashDashes(s[1..])
  }

  /** `.replace(/^-|-$/g, '')` */
  function TrimDashes(s: string): (r: string)
    ensures r == [] || r[0] != '-' || (|s| >= 2 && s[0] == '-' && s[1] == '-')
    ensures |r| <= |s|
  {
    var a := if s != [] && s[0] == '-' then s[1..] else s;
    if a != [] && a[|a| - 1] == '-' then a[..|a| - 1] else a
  }

  /** The pattern of the schema slug validator,
      `^[a-z0-9]+(?:-[a-z0-9]+)*$`: non-empty words of slug characters
      joined by single dashes. */
  predicate ValidSlug(s: string) {
    s != [] && SlugAlphabet(s) && s[0] != '-' && s[|s| - 1] != '-' && NoDoubleDash(s)
  }

  /** The table's replacements applied to every character. */
  function Unaccent(s: string): (r: string)
    ensures |r| == |s|
  {
    seq(|s|, k requires 0 <= k < |s| => BaseLetter(s[k]))
  }

  /** The regular-expression chain that follows the table. */
  function Tidy(s: string): string {
    TrimDashes(SquashDashes(ReplaceSpaceRuns(KeepSlugChars(s), "-")))
  }

  /** `generateSlug` as a function of the title: the same steps in the
      same order. */
  function Slugify(title: string): string {
    Tidy(Unaccent(Trim(Lower(title))))
  }

  /** The regular-expression chain yields a slug the schema accepts, or
      nothing at all. */
  lemma TidyIsValid(s: string)
    ensures Tidy(s) == [] || ValidSlug(Tidy(s))
  {
    var a := ReplaceSpaceRuns(KeepSlugChars(s), "-");
    assert SlugAlphabet(a) by {
      var b := KeepSlugChars(s);
      ReplaceSpaceRunsChars(b, "-");
      forall k | 0 <= k < |a| ensures SlugChar(a[k]) || a[k] == '-' {
        assert a[k] in a;
        if a[k] != '-' {
          var j :| 0 <= j < |b| && b[j] == a[k];
        }
      }
    }
    TrimDashesValid(SquashDashes(a));
  }

  /** Trimming the end dashes of squashed text leaves a slug or nothing. */
  lemma TrimDashesValid(a: string)
    requires NoDoubleDash(a) && SlugAlphabet(a)
    ensures TrimDashes(a) == [] || ValidSlug(TrimDashes(a))
  {
    var b := if a != [] && a[0] == '-' then a[1..] else a;
    NoDoubleDashSlice(a, |a| - |b|, |a|);
    assert b == a[|a| - |b|..|a|];
    assert SlugAlphabet(b);
    var r := TrimDashes(a);
    if |a| >= 2 {
      assert !DoubleDashAt(a, 0);
    }
    if r != [] {
      assert r == if b[|b| - 1] == '-' then b[..|b| - 1] else b;
      NoDoubleDashSlice(b, 0, |r|);
      assert r == b[0..|r|];
      if |b| >= 2 {
        assert !DoubleDashAt(b, |b| - 2);
      }
    }
  }

  /** generateSlug never produces text the schema would refuse. */
  lemma SlugifyValid(title: string)
    ensures Slugify(title) == [] || ValidSlug(Slugify(title))
  {
    TidyIsValid(Unaccent(Trim(Lower(title))));
  }

  /** A slug is all lower case, so lower-casing it is harmless. */
  lemma SlugAlphabetLowerFixed(s: string)
    requires SlugAlphabet(s)
    ensures LowerFixed(s)
  {
  }

  /** The patterns of a run of entries. */
  function Keys(es: seq<(char, char)>): (r: string)
    ensures |r| == |es| && forall i :: 0 <= i < |es| ==> r[i] == es[i].0
  {
    seq(|es|, i requires 0 <= i < |es| => es[i].0)
  }

  lemma {:induction false} LookupConcat(a: seq<(char, char)>, b: seq<(char, char)>, c: char)
    ensures Lookup(a + b, c) == if c in Keys(a) then Lookup(a, c) else Lookup(b, c)
    decreases |a|
  {
    if a != [] {
      assert (a + b)[1..] == a[1..] + b;
      LookupConcat(a[1..], b, c);
      assert c in Keys(a) <==> a[0].0 == c || c in Keys(a[1..]) by {
        assert Keys(a) == [a[0].0] + Keys(a[1..]);
      }
    } else {
      assert a + b == b;
    }
  }

  /** In a run of entries that all share one replacement, a pattern letter
      becomes that replacement. */
  lemma {:induction false} LookupUniform(es: seq<(char, char)>, v: char, c: char)
    requires ReplacesWith(es, v)
    requires c in Keys(es)
    ensures Lookup(es, c) == v
    decreases |es|
  {
    if es[0].0 != c {
      assert Keys(es) == [es[0].0] + Keys(es[1..]);
      LookupUniform(es[1..], v, c);
    }
  }

  /** No letter has entries in two runs. */
  lemma KeysDisjoint(c: char)
    ensures c in Keys(EEntries) ==> c !in Keys(AEntries)
    ensures c in Keys(IEntries) ==> c !in Keys(AEntries) && c !in Keys(EEntries)
    ensures c in Keys(OEntries) ==> c !in Keys(AEntries) && c !in Keys(EEntries) && c !in Keys(IEntries)
    ensures c in Keys(UEntries) ==> c !in Keys(AEntries) && c !in Keys(EEntries) && c !in Keys(IEntries) && c !in Keys(OEntries)
    ensures c in Keys(YEntries) ==> c !in Keys(AEntries) && c !in Keys(EEntries) && c !in Keys(IEntries) && c !in Keys(OEntries) && c !in Keys(UEntries)
    ensures c in Keys(DEntries) ==> c !in Keys(AEntries) && c !in Keys(EEntries) && c !in Keys(IEntries) && c !in Keys(OEntries) && c !in Keys(UEntries) && c !in Keys(YEntries)
  {
    EDisjoint(c);
    IDisjoint(c);
    ODisjoint(c);
    UDisjoint(c);
    YDisjoint(c);
    DDisjoint(c);
  }

  lemma EDisjoint(c: char)
    ensures c in Keys(EEntries) ==> c !in Keys(AEntries)
  {
  }

  lemma IDisjoint(c: char)
    ensures c in Keys(IEntries) ==> c !in Keys(AEntries) && c !in Keys(EEntries)
  {
  }

  lemma ODisjoint(c: char)
    ensures c in Keys(OEntries) ==> c !in Keys(AEntries) && c !in Keys(EEntries) && c !in Keys(IEntries)
  {
  }

  lemma UDisjoint(c: char)
    ensures c in Keys(UEntries) ==> c !in Keys(AEntries) && c !in Keys(EEntries) && c !in Keys(IEntries) && c !in Keys(OEntries)
  {
  }

  lemma YDisjoint(c: char)
    ensures c in Keys(YEntries) ==> c !in Keys(AEntries) && c !in Keys(EEntries) && c !in Keys(IEntries) && c !in Keys(OEntries) && c !in Keys(UEntries)
  {
  }

  lemma DDisjoint(c: char)
    ensures c in Keys(DEntries) ==> c !in Keys(AEntries) && c !in Keys(EEntries) && c !in Keys(IEntries) && c !in Keys(OEntries) && c !in Keys(UEntries) && c !in Keys(YEntries)
  {
  }

  /** Every letter of the table loses its marks and becomes its base letter;
      any other character is kept. */
  lemma BaseLetters(c: char)
    ensures c in Keys(AEntries) ==> BaseLetter(c) == 'a'
    ensures c in Keys(EEntries) ==> BaseLetter(c) == 'e'
    ensures c in Keys(IEntries) ==> BaseLetter(c) == 'i'
    ensures c in Keys(OEntries) ==> BaseLetter(c) == 'o'
    ensures c in Keys(UEntries) ==> BaseLetter(c) == 'u'
    ensures c in Keys(YEntries) ==> BaseLetter(c) == 'y'
    ensures c in Keys(DEntries) ==> BaseLetter(c) == 'd'
    ensures (c !in Keys(AEntries) && c !in Keys(EEntries) && c !in Keys(IEntries) && c !in Keys(OEntries) &&
             c !in Keys(UEntries) && c !in Keys(YEntries) && c !in Keys(DEntries)) ==> BaseLetter(c) == c
  {
    if c in Keys(AEntries) { BaseA(c); }
    if c in Keys(EEntries) { BaseE(c); }
    if c in Keys(IEntries) { BaseI(c); }
    if c in Keys(OEntries) { BaseO(c); }
    if c in Keys(UEntries) { BaseU(c); }
    if c in Keys(YEntries) { BaseY(c); }
    if c in Keys(DEntries) { BaseD(c); }
    if c !in Keys(AEntries) && c !in Keys(EEntries) && c !in Keys(IEntries) && c !in Keys(OEntries) &&
       c !in Keys(UEntries) && c !in Keys(YEntries) && c !in Keys(DEntries) {
      BaseOther(c);
    }
  }

  /** Every entry of the run `es` is replaced by `v`. */
  predicate ReplacesWith(es: seq<(char, char)>, v: char) {
    forall i :: 0 <= i < |es| ==> es[i].1 == v
  }

  lemma AUniform()
    ensures ReplacesWith(AEntries, 'a')
  {
  }

  lemma EUniform()
    ensures ReplacesWith(EEntries, 'e')
  {
  }

  lemma IUniform()
    ensures ReplacesWith(IEntries, 'i')
  {
  }

  lemma OUniform()
    ensures ReplacesWith(OEntries, 'o')
  {
  }

  lemma UUniform()
    ensures ReplacesWith(UEntries, 'u')
  {
  }

  lemma YUniform()
    ensures ReplacesWith(YEntries, 'y')
  {
  }

  lemma DUniform()
    ensures ReplacesWith(DEntries, 'd')
  {
  }

  // The runs of the table after the A, E, I, O and U runs.
  const AfterU: seq<(char, char)> := YEntries + DEntries
  const AfterO: seq<(char, char)> := UEntries + AfterU
  const AfterI: seq<(char, char)> := OEntries + AfterO
  const AfterE: seq<(char, char)> := IEntries + AfterI
  const AfterA: seq<(char, char)> := EEntries + AfterE

  lemma BaseA(c: char)
    requires c in Keys(AEntries)
    ensures BaseLetter(c) == 'a'
  {
    LookupConcat(AEntries, AfterA, c);
    AUniform();
    LookupUniform(AEntries, 'a', c);
  }

  lemma BaseE(c: char)
    requires c in Keys(EEntries)
    ensures BaseLetter(c) == 'e'
  {
    EDisjoint(c);
    LookupConcat(AEntries, AfterA, c);
    LookupConcat(EEntries, AfterE, c);
    EUniform();
    LookupUniform(EEntries, 'e', c);
  }

  lemma BaseI(c: char)
    requires c in Keys(IEntries)
    ensures BaseLetter(c) == 'i'
  {
    IDisjoint(c);
    LookupConcat(AEntries, AfterA, c);
    LookupConcat(EEntries, AfterE, c);
    LookupConcat(IEntries, AfterI, c);
    IUniform();
    LookupUniform(IEntries, 'i', c);
  }

  lemma BaseO(c: char)
    requires c in Keys(OEntries)
    ensures BaseLetter(c) == 'o'
  {
    ODisjoint(c);
    LookupConcat(AEntries, AfterA, c);
    LookupConcat(EEntries, AfterE, c);
    LookupConcat(IEntries, AfterI, c);
    LookupConcat(OEntries, AfterO, c);
    OUniform();
    LookupUniform(OEntries, 'o', c);
  }

  lemma BaseU(c: char)
    requires c in Keys(UEntries)
    ensures BaseLetter(c) == 'u'
  {
    UDisjoint(c);
    SkipToU(c);
    LookupConcat(UEntries, AfterU, c);
    UUniform();
    LookupUniform(UEntries, 'u', c);
  }

  lemma BaseY(c: char)
    requires c in Keys(YEntries)
    ensures BaseLetter(c) == 'y'
  {
    YDisjoint(c);
    SkipToU(c);
    LookupConcat(UEntries, AfterU, c);
    LookupConcat(YEntries, DEntries, c);
    YUniform();
    LookupUniform(YEntries, 'y', c);
  }

  lemma BaseD(c: char)
    requires c in Keys(DEntries)
    ensures BaseLetter(c) == 'd'
  {
    DDisjoint(c);
    SkipToU(c);
    LookupConcat(UEntries, AfterU, c);
    LookupConcat(YEntries, DEntries, c);
    DUniform();
    LookupUniform(DEntries, 'd', c);
  }

  lemma BaseOther(c: char)
    requires c !in Keys(AEntries) && c !in Keys(EEntries) && c !in Keys(IEntries) && c !in Keys(OEntries)
    requires c !in Keys(UEntries) && c !in Keys(YEntries) && c !in Keys(DEntries)
    ensures BaseLetter(c) == c
  {
    SkipToU(c);
    LookupConcat(UEntries, AfterU, c);
    LookupConcat(YEntries, DEntries, c);
    LookupAbsent(DEntries, c);
  }

  /** A letter outside the A, E, I and O runs is looked up in the rest. */
  lemma SkipToU(c: char)
    requires c !in Keys(AEntries) && c !in Keys(EEntries) && c !in Keys(IEntries) && c !in Keys(OEntries)
    ensures BaseLetter(c) == Lookup(AfterO, c)
  {
    LookupConcat(AEntries, AfterA, c);
    LookupConcat(EEntries, AfterE, c);
    LookupConcat(IEntries, AfterI, c);
    LookupConcat(OEntries, AfterO, c);
  }

  lemma {:induction false} LookupAbsent(es: seq<(char, char)>, c: char)
    requires c !in Keys(es)
    ensures Lookup(es, c) == c
    decreases |es|
  {
    if es != [] {
      assert Keys(es) == [es[0].0] + Keys(es[1..]);
      LookupAbsent(es[1..], c);
    }
  }

  lemma ReplacedSnoc(es: seq<(char, char)>, i: nat, c: char)
    requires i < |es|
    ensures Replaced(es[..i + 1], c) ==
            if Replaced(es[..i], c) == es[i].0 then es[i].1 else Replaced(es[..i], c)
  {
    assert es[..i + 1][..i] == es[..i];
  }

  /** After the whole table every character has its base letter. */
  lemma TableDone(s: string, t: string)
    requires |t| == |s|
    requires forall k :: 0 <= k < |s| ==> t[k] == Replaced(VietnameseMap[..|VietnameseMap|], s[k])
    ensures t == Unaccent(s)
  {
    assert VietnameseMap[..|VietnameseMap|] == VietnameseMap;
    VietnameseMapAscii();
    forall k | 0 <= k < |s|
      ensures t[k] == BaseLetter(s[k])
    {
      ReplacedIsLookup(VietnameseMap, s[k]);
    }
  }

  /** `generateSlug`, with the table loop of the source. */
  method GenerateSlug(title: string) returns (slug: string)
    ensures slug == Slugify(title)
  {
    if title == "" {
      return "";
    }
    var s := Trim(Lower(title));
    slug := s;
    var i := 0;
    while i < |VietnameseMap|
      invariant 0 <= i <= |VietnameseMap|
      invariant |slug| == |s|
      invariant forall k :: 0 <= k < |s| ==> slug[k] == Replaced(VietnameseMap[..i], s[k])
    {
      var entry := VietnameseMap[i];
      var next := ReplaceAll(slug, entry.0, entry.1);
      forall k | 0 <= k < |s|
        ensures next[k] == Replaced(VietnameseMap[..i + 1], s[k])
      {
        ReplacedSnoc(VietnameseMap, i, s[k]);
      }
      slug, i := next, i + 1;
    }
    TableDone(s, slug);
    slug := Tidy(slug);
  }

  // -----------------------------------------------------------------------
  // Unique slugs
  // -----------------------------------------------------------------------

  /** The k-th candidate: the base itself, then base-1, base-2, ... */
  function Candidate(base: string, k: nat): string {
    if k == 0 then base else base + "-" + NatToString(k)
  }

  lemma CandidateInjective(base: string, j: nat, k: nat)
    requires Candidate(base, j) == Candidate(base, k)
    ensures j == k
  {
    if j != 0 && k != 0 {
      var a, b := NatToString(j), NatToString(k);
      assert Candidate(base, j)[|base| + 1..] == a;
      assert Candidate(base, k)[|base| + 1..] == b;
      IntToStringInjective(j, k);
    }
  }

  /** The first k candidates are k different slugs. */
  lemma {:induction false} CandidatesCount(base: string, k: nat)
    ensures |set j | 0 <= j < k :: Candidate(base, j)| == k
  {
    if k > 0 {
      CandidatesCount(base, k - 1);
      var before := set j | 0 <= j < k - 1 :: Candidate(base, j);
      var after := set j | 0 <= j < k :: Candidate(base, j);
      assert after == before + {Candidate(base, k - 1)};
      if Candidate(base, k - 1) in before {
        var j :| 0 <= j < k - 1 && Candidate(base, j) == Candidate(base, k - 1);
        CandidateInjective(base, j, k - 1);
      }
    }
  }

  /** When the first k candidates are all used, k is at most |used|. */
  lemma CandidatesBound(base: string, used: set<string>, k: nat)
    requires forall j :: 0 <= j < k ==> Candidate(base, j) in used
    ensures k <= |used|
  {
    CandidatesCount(base, k);
    var cands := set j | 0 <= j < k :: Candidate(base, j);
    assert cands <= used;
    SubsetCard(cands, used);
  }

  lemma SubsetCard<T>(a: set<T>, b: set<T>)
    requires a <= b
    ensures |a| <= |b|
  {
    assert b == a + (b - a);
  }

  /** The first candidate from the k-th on that no other document uses
      (`isSlugExists` looks the slug up lower-cased). */
  function FirstFree(base: string, used: set<string>, k: nat): (r: nat)
    requires LowerFixed(base)
    requires forall j :: 0 <= j < k ==> Candidate(base, j) in used
    ensures r >= k && Candidate(base, r) !in used
    ensures forall j :: 0 <= j < r ==> Candidate(base, j) in used
    decreases |used| + 1 - k
  {
    CandidatesBound(base, used, k);
    if Lower(Candidate(base, k)) in used then
      CandidateLowerFixed(base, k);
      FirstFree(base, used, k + 1)
    else
      CandidateLowerFixed(base, k);
      k
  }

  lemma CandidateLowerFixed(base: string, k: nat)
    requires LowerFixed(base)
    ensures Lower(Candidate(base, k)) == Candidate(base, k)
  {
    if k > 0 {
      assert LowerFixed(Candidate(base, k));
    }
    LowerOfFixed(Candidate(base, k));
  }

  /** `generateUniqueSlug(title, excludeId)` where `used` holds the slugs of
      the other documents: base if unused, else base-k for the least such k. */
  function UniqueSlug(title: string, used: set<string>): (r: string)
    ensures r !in used
    ensures exists k: nat :: r == Candidate(Slugify(title), k) &&
                             forall j :: 0 <= j < k ==> Candidate(Slugify(title), j) in used
  {
    var base := Slugify(title);
    SlugifyLowerFixed(title);
    var k := FirstFree(base, used, 0);
    Candidate(base, k)
  }

  lemma SlugifyLowerFixed(title: string)
    ensures LowerFixed(Slugify(title))
  {
    SlugifyValid(title);
    if Slugify(title) != [] {
      SlugAlphabetLowerFixed(Slugify(title));
    }
  }

  /** A free base slug is used as is. */
  lemma UniqueSlugUnused(title: string, used: set<string>)
    requires Slugify(title) !in used
    ensures UniqueSlug(title, used) == Slugify(title)
  {
    SlugifyLowerFixed(title);
    CandidateLowerFixed(Slugify(title), 0);
  }

  /** Every candidate is written in the slug alphabet. */
  lemma CandidateAlphabet(base: string, k: nat)
    requires SlugAlphabet(base)
    ensures SlugAlphabet(Candidate(base, k))
  {
  }

  /** A generated slug is lower case and has no surrounding whitespace,
      so the save-time `toLowerCase().trim()` leaves it as it is. */
  lemma UniqueSlugNormal(title: string, used: set<string>)
    ensures Trim(Lower(UniqueSlug(title, used))) == UniqueSlug(title, used)
  {
    var k: nat :| UniqueSlug(title, used) == Candidate(Slugify(title), k);
    SlugifyValid(title);
    CandidateNormal(Slugify(title), k);
  }

  lemma CandidateNormal(base: string, k: nat)
    requires SlugAlphabet(base)
    ensures Trim(Lower(Candidate(base, k))) == Candidate(base, k)
  {
    var u := Candidate(base, k);
    CandidateAlphabet(base, k);
    SlugAlphabetLowerFixed(u);
    LowerOfFixed(u);
    TrimOfTrimmed(u);
  }

  /** `generateUniqueSlug`, with the counter loop of the source. */
  method GenerateUniqueSlug(title: string, used: set<string>) returns (slug: string)
    ensures slug == UniqueSlug(title, used)
  {
    var base := GenerateSlug(title);
    SlugifyLowerFixed(title);
    slug := FreeCandidate(base, used);
  }

  /** The counter loop of `generateUniqueSlug`: base, then base-1,
      base-2, ... until one is free. */
  method FreeCandidate(base: string, used: set<string>) returns (slug: string)
    requires LowerFixed(base)
    ensures slug == Candidate(base, FirstFree(base, used, 0))
  {
    slug := base;
    var counter := 1;
    CandidateLowerFixed(base, 0);
    while Lower(slug) in used
      invariant counter >= 1 && slug == Candidate(base, counter - 1)
      invariant forall j :: 0 <= j < counter - 1 ==> Candidate(base, j) in used
      invariant FirstFree(base, used, counter - 1) == FirstFree(base, used, 0)
      decreases |used| + 1 - counter
    {
      CandidateLowerFixed(base, counter - 1);
      CandidatesBound(base, used, counter);
      slug := base + "-" + NatToString(counter);
      counter := counter + 1;
    }
    CandidateLowerFixed(base, counter - 1);
  }
}

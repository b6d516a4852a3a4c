/** Text derived from an article's HTML content: tag stripping, word
    counting, reading time and excerpts (src/models/Article/virtuals.js,
    src/models/Article/statics.js, src/models/Article/methods.js).  An absent
    or empty content is the empty string. */
module Text {
  import opened Js

  // ---------------------------------------------------------------------
  // Tag stripping: `s.replace(/<[^>]*>/g, '')`
  // ---------------------------------------------------------------------

  /** Index of the first occurrence of `c`, or |s| when there is none. */
  function IndexOf(s: string, c: char): (k: nat)
    ensures k <= |s|
    ensures c !in s[..k]
    ensures k < |s| ==> s[k] == c
    ensures k == |s| <==> c !in s
  {
    if s == [] then 0
    else if s[0] == c then 0
    else
      var k := 1 + IndexOf(s[1..], c);
      assert s[..k] == [s[0]] + s[1..][..k - 1];
      k
  }

  /** No '<' is followed, anywhere later, by a '>': nothing the tag
      pattern could match. */
  predicate NoTag(s: string) {
    forall i, j :: 0 <= i < j < |s| && s[i] == '<' ==> s[j] != '>'
  }

  /** Scanning left to right, a '<' that has a '>' somewhere after it opens
      a match that ends at the first such '>' and is removed; any other
      character is kept. */
  function StripTags(s: string): (r: string)
    ensures |r| <= |s|
    ensures forall c :: c in r ==> c in s
    ensures NoTag(r)
    decreases |s|
  {
    if s == [] then []
    else if s[0] == '<' && '>' in s then
      var rest := s[IndexOf(s, '>') + 1..];
      SuffixChars(s, IndexOf(s, '>') + 1);
      StripTags(rest)
    else
      var rest := StripTags(s[1..]);
      SuffixChars(s, 1);
      NoTagCons(s[0], rest);
      [s[0]] + rest
  }

  lemma SuffixChars(s: string, k: nat)
    requires k <= |s|
    ensures forall c :: c in s[k..] ==> c in s
  {
    forall c | c in s[k..] ensures c in s {
      var i :| 0 <= i < |s[k..]| && s[k..][i] == c;
      assert s[k + i] == c;
    }
  }

  /** A character in front of tag-free text keeps it tag-free unless it is
      a '<' with a '>' after it. */
  lemma NoTagCons(c: char, rest: string)
    requires NoTag(rest) && (c == '<' ==> '>' !in rest)
    ensures NoTag([c] + rest)
  {
    var r := [c] + rest;
    forall i, j | 0 <= i < j < |r| && r[i] == '<' ensures r[j] != '>' {
      if i == 0 {
        assert r[j] in rest;
      } else {
        assert rest[i - 1] == '<' && rest[j - 1] == r[j];
      }
    }
  }

  /** Text with no tag is left unchanged. */
  lemma {:induction false} StripTagsNoTag(s: string)
    requires NoTag(s)
    ensures StripTags(s) == s
    decreases |s|
  {
    if s != [] {
      if s[0] == '<' {
        assert '>' !in s by {
          forall j | 0 <= j < |s| ensures s[j] != '>' {
            if j > 0 { assert s[0] == '<'; }
          }
        }
      }
      assert NoTag(s[1..]) by {
        forall i, j | 0 <= i < j < |s[1..]| && s[1..][i] == '<' ensures s[1..][j] != '>' {
          assert s[i + 1] == '<';
        }
      }
      StripTagsNoTag(s[1..]);
      assert s == [s[0]] + s[1..];
    }
  }

  /** Stripping twice strips nothing more. */
  lemma StripTagsIdempotent(s: string)
    ensures StripTags(StripTags(s)) == StripTags(s)
  {
    StripTagsNoTag(StripTags(s));
  }

  /** Text without '<' has no tag. */
  lemma StripTagsPlain(s: string)
    requires '<' !in s
    ensures StripTags(s) == s
  {
    StripTagsNoTag(s);
  }

  // ---------------------------------------------------------------------
  // Splitting on whitespace runs: `t.split(/\s+/)`
  // ---------------------------------------------------------------------

  /** Index of the first whitespace character, or |s|. */
  function FirstSpace(s: string): (k: nat)
    ensures k <= |s|
    ensures NoSpace(s[..k])
    ensures k < |s| ==> IsSpace(s[k])
  {
    if s == [] || IsSpace(s[0]) then 0
    else
      var k := 1 + FirstSpace(s[1..]);
      assert s[..k] == [s[0]] + s[1..][..k - 1];
      k
  }

  /** The pieces between whitespace runs, in order; a leading run gives an
      empty first piece and the empty string gives one empty piece. */
  function SplitSpaces(t: string): (r: seq<string>)
    ensures |r| >= 1
    ensures forall i :: 0 <= i < |r| ==> NoSpace(r[i])
    decreases |t|
  {
    var k := FirstSpace(t);
    if k == |t| then
      assert t[..k] == t;
      [t]
    else
      [t[..k]] + SplitSpaces(TrimStart(t[k..]))
  }

  /** Text without whitespace is its own replacement, whatever follows. */
  lemma {:induction false} ReplaceNoSpacePrefix(p: string, rest: string, sep: string)
    requires NoSpace(p)
    ensures ReplaceSpaceRuns(p + rest, sep) == p + ReplaceSpaceRuns(rest, sep)
    decreases |p|
  {
    if p == [] {
      assert p + rest == rest;
    } else {
      var s := p + rest;
      assert s[0] == p[0] && s[1..] == p[1..] + rest;
      ReplaceNoSpacePrefix(p[1..], rest, sep);
      assert ReplaceSpaceRuns(s, sep) == [p[0]] + (p[1..] + ReplaceSpaceRuns(rest, sep));
      assert p == [p[0]] + p[1..];
    }
  }

  /** Splitting and joining again with `sep` is the same as replacing each
      whitespace run by `sep`: the pieces are exactly what lies between the
      runs. */
  lemma {:induction false} SplitJoin(t: string, sep: string)
    ensures Join(SplitSpaces(t), sep) == ReplaceSpaceRuns(t, sep)
    decreases |t|
  {
    var k := FirstSpace(t);
    if k == |t| {
      assert t[..k] == t;
      ReplaceNoSpace(t, sep);
    } else {
      var a, u := t[..k], t[k..];
      SplitJoin(TrimStart(u), sep);
      assert SplitSpaces(t) == [a] + SplitSpaces(TrimStart(u));
      assert t == a + u;
      SplitJoinStep(a, u, sep);
    }
  }

  /** The inductive step of SplitJoin: the first piece, one `sep` for the
      first run, then the rest. */
  lemma SplitJoinStep(a: string, u: string, sep: string)
    requires NoSpace(a) && u != [] && IsSpace(u[0])
    requires Join(SplitSpaces(TrimStart(u)), sep) == ReplaceSpaceRuns(TrimStart(u), sep)
    ensures Join([a] + SplitSpaces(TrimStart(u)), sep) == ReplaceSpaceRuns(a + u, sep)
  {
    JoinCons(a, SplitSpaces(TrimStart(u)), sep);
    ReplaceAfterPiece(a, u, sep);
  }

  lemma JoinCons(a: string, pieces: seq<string>, sep: string)
    requires |pieces| >= 1
    ensures Join([a] + pieces, sep) == a + sep + Join(pieces, sep)
  {
    assert ([a] + pieces)[1..] == pieces;
  }

  /** A piece, then a whitespace run, then the rest: the piece, one `sep`,
      then the rest's replacement. */
  lemma ReplaceAfterPiece(a: string, u: string, sep: string)
    requires NoSpace(a) && u != [] && IsSpace(u[0])
    ensures ReplaceSpaceRuns(a + u, sep) == a + sep + ReplaceSpaceRuns(TrimStart(u), sep)
  {
    ReplaceAtSpace(u, sep);
    ReplaceNoSpacePrefix(a, u, sep);
    assert a + (sep + ReplaceSpaceRuns(TrimStart(u), sep)) == a + sep + ReplaceSpaceRuns(TrimStart(u), sep);
  }

  /** A whitespace run at the front becomes one `sep`. */
  lemma ReplaceAtSpace(u: string, sep: string)
    requires u != [] && IsSpace(u[0])
    ensures ReplaceSpaceRuns(u, sep) == sep + ReplaceSpaceRuns(TrimStart(u), sep)
  {
  }

  /** Trimmed, non-empty text splits into non-empty pieces only. */
  lemma {:induction false} SplitTrimmedNonEmpty(t: string)
    requires t != [] && Trimmed(t)
    ensures forall i :: 0 <= i < |SplitSpaces(t)| ==> SplitSpaces(t)[i] != []
    decreases |t|
  {
    var k := FirstSpace(t);
    if k < |t| {
      var v := TrimStart(t[k..]);
      assert v != [];
      assert v[|v| - 1] == t[|t| - 1];
      SplitTrimmedNonEmpty(v);
    }
  }

  /** The empty string splits into one empty piece. */
  lemma SplitEmpty()
    ensures SplitSpaces("") == [""]
  {
  }

  // ---------------------------------------------------------------------
  // Words and reading time
  // ---------------------------------------------------------------------

  /** The whitespace-separated words of the content once tags are gone. */
  function Words(content: string): seq<string> {
    SplitSpaces(Trim(StripTags(content)))
  }

  /** The `wordCount` virtual. */
  function WordCount(content: string): nat {
    if content == "" then 0
    else
      var words := Words(content);
      if |words| > 0 && words[0] != "" then |words| else 0
  }

  /** No words exactly when the content is empty or only tags and
      whitespace. */
  lemma WordCountZero(content: string)
    ensures WordCount(content) == 0 <==> Blank(StripTags(content))
  {
    if !Blank(StripTags(content)) {
      TrimIdempotent(StripTags(content));
      SplitTrimmedNonEmpty(Trim(StripTags(content)));
    }
  }

  /** Content with words counts them: each word is non-empty and free of
      whitespace, and joined by single spaces they give the text with every
      whitespace run collapsed. */
  lemma WordCountCounts(content: string)
    requires !Blank(StripTags(content))
    ensures WordCount(content) == |Words(content)|
    ensures forall i :: 0 <= i < |Words(content)| ==> Words(content)[i] != [] && NoSpace(Words(content)[i])
    ensures Join(Words(content), " ") == ReplaceSpaceRuns(Trim(StripTags(content)), " ")
  {
    TrimIdempotent(StripTags(content));
    SplitTrimmedNonEmpty(Trim(StripTags(content)));
    SplitJoin(Trim(StripTags(content)), " ");
  }

  const WordsPerMinute := 200

  /** The `calculateReadingTime` static: minutes at 200 words a minute,
      at least one. */
  function CalculateReadingTime(content: string): (m: int)
    ensures m >= 1
  {
    if content == "" then 1
    else Max(1, CeilDiv(|Words(content)|, WordsPerMinute))
  }

  /** The static agrees with the `estimatedReadingTime` virtual's formula
      on word counts, even for blank text, which the static counts as one
      empty word. */
  lemma ReadingTimeFromWordCount(content: string)
    ensures CalculateReadingTime(content) == Max(1, CeilDiv(WordCount(content), WordsPerMinute))
  {
    if content != "" && !Blank(StripTags(content)) {
      WordCountCounts(content);
    }
  }

  /** The minutes are the fewest that cover every word at 200 a minute. */
  lemma ReadingTimeCoversWords(content: string)
    ensures WordCount(content) <= CalculateReadingTime(content) * WordsPerMinute
    ensures CalculateReadingTime(content) == 1 ||
            (CalculateReadingTime(content) - 1) * WordsPerMinute < WordCount(content)
  {
    ReadingTimeFromWordCount(content);
  }

  // ---------------------------------------------------------------------
  // Excerpts
  // ---------------------------------------------------------------------

  const DefaultExcerptLength := 150

  /** `text.substring(0, n)` for n within the text; a negative end counts
      as 0. */
  function Prefix(text: string, n: int): string
    requires n <= |text|
  {
    text[..Max(0, n)]
  }

  /** The `generateExcerpt` method: the tag-stripped content when it fits
      in `length` characters, otherwise its first `length` characters
      followed by '...'. */
  function GenerateExcerpt(content: string, length: int): (r: string)
    ensures content == "" ==> r == ""
    ensures content != "" && |StripTags(content)| <= length ==> r == StripTags(content)
    ensures content != "" && |StripTags(content)| > length ==>
              |r| == Max(0, length) + 3 && r[|r| - 3..] == "..." &&
              r[..|r| - 3] == StripTags(content)[..Max(0, length)]
  {
    if content == "" then ""
    else
      var text := StripTags(content);
      if |text| > length then Prefix(text, length) + "..." else text
  }

  /** The excerpt holds no tag and never exceeds `length` characters plus
      the three dots. */
  lemma ExcerptBounded(content: string, length: int)
    ensures |GenerateExcerpt(content, length)| <= Max(0, length) + 3
    ensures NoTag(GenerateExcerpt(content, length))
  {
    var text := StripTags(content);
    var r := GenerateExcerpt(content, length);
    if content != "" && |text| > length {
      forall c | c in r ensures c in text || c == '.' {
        var i :| 0 <= i < |r| && r[i] == c;
        if i < |r| - 3 { assert r[i] == text[i]; } else { assert r[i] in "..."; }
      }
      assert '>' !in r[..|r| - 3] || NoTag(r);
    }
  }

  /** The `displayExcerpt` virtual: the stored excerpt when there is one,
      else a 150-character excerpt of the content. */
  function DisplayExcerpt(excerpt: string, content: string): (r: string)
    ensures excerpt != "" ==> r == excerpt
    ensures excerpt == "" ==> r == GenerateExcerpt(content, DefaultExcerptLength)
  {
    if excerpt != "" then excerpt
    else if content != "" then
      var text := StripTags(content);
      if |text| > 150 then text[..150] + "..." else text
    else ""
  }

  /** Without a stored excerpt nothing is shown exactly when the content is
      empty or consists of tags only. */
  lemma DisplayExcerptEmpty(excerpt: string, content: string)
    ensures DisplayExcerpt(excerpt, content) == "" <==> excerpt == "" && StripTags(content) == ""
  {
  }
}

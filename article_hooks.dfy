/** The save and update hooks of the Article model
    (src/models/Article/hooks.js): the pre-save chain a newly created
    article goes through, and the pre-`findOneAndUpdate` rewrite of an
    update document.  `others` is always the set of slugs held by the other
    articles, `active` the ids of the active categories. */
module ArticleHooks {
  import opened Wrappers
  import opened Js
  import opened ArticleModel
  import Text
  import Slug

  // ---------------------------------------------------------------------
  // Lists of words
  // ---------------------------------------------------------------------

  /** `xs.filter(x => x.trim())`: the entries that are not blank, as they
      are. */
  function NonBlank(xs: seq<string>): (r: seq<string>)
    ensures |r| <= |xs|
  {
    if xs == [] then []
    else if Blank(xs[0]) then NonBlank(xs[1..])
    else [xs[0]] + NonBlank(xs[1..])
  }

  /** An entry survives the filter exactly when it is not blank. */
  lemma {:induction false} NonBlankKeeps(xs: seq<string>, x: string)
    ensures x in NonBlank(xs) <==> x in xs && !Blank(x)
  {
    if xs != [] {
      NonBlankKeeps(xs[1..], x);
      assert xs == [xs[0]] + xs[1..];
    }
  }

  /** `keywords.map(k => k.trim()).filter(k => k.length > 0)` */
  function NormalizeKeywords(xs: seq<string>): (r: seq<string>)
    ensures |r| <= |xs|
  {
    if xs == [] then []
    else if Trim(xs[0]) == "" then NormalizeKeywords(xs[1..])
    else [Trim(xs[0])] + NormalizeKeywords(xs[1..])
  }

  /** Stored keywords are non-empty and carry no surrounding whitespace. */
  lemma {:induction false} KeywordsStored(xs: seq<string>)
    ensures forall i :: 0 <= i < |NormalizeKeywords(xs)| ==>
              NormalizeKeywords(xs)[i] != "" && Trimmed(NormalizeKeywords(xs)[i])
  {
    if xs != [] {
      KeywordsStored(xs[1..]);
      var k, rest := Trim(xs[0]), NormalizeKeywords(xs[1..]);
      if k != "" {
        var r := [k] + rest;
        assert Trimmed(k);
        forall i | 0 <= i < |r| ensures r[i] != "" && Trimmed(r[i]) {
          if i > 0 {
            assert r[i] == rest[i - 1];
          }
        }
      }
    }
  }

  /** Normalising twice changes nothing more. */
  lemma {:induction false} NormalizeKeywordsIdempotent(xs: seq<string>)
    ensures NormalizeKeywords(NormalizeKeywords(xs)) == NormalizeKeywords(xs)
  {
    if xs != [] {
      NormalizeKeywordsIdempotent(xs[1..]);
      var k := Trim(xs[0]);
      if k != "" {
        TrimIdempotent(xs[0]);
        var r := [k] + NormalizeKeywords(xs[1..]);
        assert r[0] == k && r[1..] == NormalizeKeywords(xs[1..]);
      }
    }
  }

  /** `tags.map(t => t.trim().toLowerCase()).filter(t => t.length > 0)` */
  function NormalizeTags(xs: seq<string>): (r: seq<string>)
    ensures |r| <= |xs|
  {
    if xs == [] then []
    else if NormalizeTag(xs[0]) == "" then NormalizeTags(xs[1..])
    else [NormalizeTag(xs[0])] + NormalizeTags(xs[1..])
  }

  /** A tag is stored exactly when its normal form is non-empty: every
      entry of the result is the normal form of an entry of the input, and
      every non-empty normal form is in the result. */
  lemma {:induction false} TagsStored(xs: seq<string>, t: string)
    ensures t in NormalizeTags(xs) <==> t != "" && exists x :: x in xs && NormalizeTag(x) == t
  {
    if xs != [] {
      TagsStored(xs[1..], t);
      if t in NormalizeTags(xs) && t != NormalizeTag(xs[0]) {
        var x :| x in xs[1..] && NormalizeTag(x) == t;
        assert x in xs;
      }
      if t != "" && (exists x :: x in xs && NormalizeTag(x) == t) {
        var x :| x in xs && NormalizeTag(x) == t;
        var j :| 0 <= j < |xs| && xs[j] == x;
        if j > 0 {
          assert xs[1..][j - 1] == x;
        }
      }
    }
  }

  // ---------------------------------------------------------------------
  // Saving a new article
  // ---------------------------------------------------------------------

  datatype SaveError = SlugTaken | InactiveCategory

  /** The reading-time and excerpt hooks: derived from the content when
      they are absent. */
  function Derive(a: Article): (r: Article)
    ensures HasReadingTime(a) ==> r.readingTime == a.readingTime
    ensures !HasReadingTime(a) ==> r.readingTime == Some(Text.CalculateReadingTime(a.content))
    ensures a.excerpt != "" ==> r.excerpt == a.excerpt
    ensures a.excerpt == "" ==> r.excerpt == Text.GenerateExcerpt(a.content, Text.DefaultExcerptLength)
    ensures r.title == a.title && r.slug == a.slug && r.content == a.content && r.categories == a.categories
    ensures r.status == a.status && r.publishedAt == a.publishedAt && r.author == a.author
  {
    var b := if HasReadingTime(a) then a else a.(readingTime := Some(Text.CalculateReadingTime(a.content)));
    AfterUpdateExcerpt(b, Text.DefaultExcerptLength)
  }

  /** The normalisation hook on a new article, where every field counts
      as modified. */
  function Normalize(a: Article): (r: Article)
    ensures r.slug == Trim(Lower(a.slug)) && r.title == Trim(a.title) && r.content == Trim(a.content)
    ensures r.tags == NormalizeTags(a.tags) && r.keywords == NormalizeKeywords(a.keywords)
    ensures r.categories == a.categories && r.status == a.status && r.publishedAt == a.publishedAt
    ensures r.author == a.author && r.readingTime == a.readingTime
  {
    a.(title := Trim(a.title), slug := Trim(Lower(a.slug)), content := Trim(a.content),
       excerpt := if a.excerpt != "" then Trim(a.excerpt) else a.excerpt,
       metaTitle := if a.metaTitle != "" then Trim(a.metaTitle) else a.metaTitle,
       metaDescription := if a.metaDescription != "" then Trim(a.metaDescription) else a.metaDescription,
       tags := NormalizeTags(a.tags), keywords := NormalizeKeywords(a.keywords))
  }

  /** The publishedAt hook on a status change: a published article without
      a date gets now, any other status loses its date. */
  function StatusDate(a: Article, now: int): (r: Article)
    ensures a.status == Published ==> r.publishedAt == (if a.publishedAt.Some? then a.publishedAt else Some(now))
    ensures a.status != Published ==> r.publishedAt.None?
    ensures r.(publishedAt := a.publishedAt) == a
  {
    if a.status == Published && a.publishedAt.None? then a.(publishedAt := Some(now))
    else if a.status != Published then a.(publishedAt := None)
    else a
  }

  /** Every category of the article is an active category.  The hook
      compares the number of matches with the length of the list, which is
      the same test on a list without repetitions. */
  predicate AllActive(cats: seq<Id>, active: set<Id>) {
    forall c :: c in cats ==> c in active
  }

  /** The hooks after the slug hook, in order: reading time and excerpt
      derived, fields normalised, a slug another article holds refused, an
      inactive or missing category refused, the publication date set from
      the status. */
  function AfterSlugHook(a: Article, others: set<string>, active: set<Id>, now: int): (r: Result<Article, SaveError>)
    ensures r.Err? <==> Trim(Lower(a.slug)) in others || !AllActive(a.categories, active)
    ensures r.Ok? ==> r.value.categories == a.categories && r.value.author == a.author
    ensures r.Ok? ==> r.value.slug == Trim(Lower(a.slug)) && r.value.status == a.status
  {
    var s := Normalize(Derive(a));
    if s.slug in others then Err(SlugTaken)
    else if !AllActive(s.categories, active) then Err(InactiveCategory)
    else Ok(StatusDate(s, now))
  }

  /** The pre-save chain of a new article (run after the validators): the
      slug is regenerated from the title whenever the title is set,
      whatever slug the document carries, and the other hooks follow. */
  function PreSaveNew(a: Article, others: set<string>, active: set<Id>, now: int): (r: Result<Article, SaveError>)
    ensures r.Err? <==> !AllActive(a.categories, active) ||
                        (a.title == "" && Trim(Lower(a.slug)) in others)
    ensures r.Ok? ==> r.value.categories == a.categories && r.value.author == a.author
    ensures r.Ok? && a.title != "" ==> r.value.slug == Slug.UniqueSlug(a.title, others)
    ensures r.Ok? ==> r.value.slug !in others
    ensures r.Ok? ==> r.value.status == a.status
  {
    Slug.UniqueSlugNormal(a.title, others);
    AfterSlugHook(if a.title != "" then a.(slug := Slug.UniqueSlug(a.title, others)) else a, others, active, now)
  }

  /** The chain with the slug hook as evidently intended: a slug is
      generated only when the document has none, so a slug given on
      creation is kept (lower-cased and trimmed). */
  function PreSaveNewKeepingSlug(a: Article, others: set<string>, active: set<Id>, now: int): (r: Result<Article, SaveError>)
    ensures r.Err? <==> !AllActive(a.categories, active) ||
                        (a.slug != "" && Trim(Lower(a.slug)) in others) ||
                        (a.slug == "" && a.title == "" && Trim(Lower(a.slug)) in others)
    ensures r.Ok? ==> r.value.categories == a.categories && r.value.author == a.author
    ensures r.Ok? && a.slug != "" ==> r.value.slug == Trim(Lower(a.slug))
    ensures r.Ok? && a.slug == "" && a.title != "" ==> r.value.slug == Slug.UniqueSlug(a.title, others)
    ensures r.Ok? ==> r.value.slug !in others
    ensures r.Ok? ==> r.value.status == a.status
  {
    Slug.UniqueSlugNormal(a.title, others);
    AfterSlugHook(if a.title != "" && a.slug == "" then a.(slug := Slug.UniqueSlug(a.title, others)) else a,
                  others, active, now)
  }

  /** The slug a new article was given is lost: whenever the title is set,
      the stored slug is the one generated from the title, so any other
      slug, free or not, is replaced; the intended chain keeps it. */
  lemma NewArticleSlugReplaced(a: Article, others: set<string>, active: set<Id>, now: int)
    requires a.title != "" && AllActive(a.categories, active)
    requires a.slug != "" && Slug.ValidSlug(a.slug) && a.slug !in others
    requires a.slug != Slug.UniqueSlug(a.title, others)
    ensures PreSaveNew(a, others, active, now).Ok?
    ensures PreSaveNew(a, others, active, now).value.slug != a.slug
    ensures PreSaveNewKeepingSlug(a, others, active, now).Ok?
    ensures PreSaveNewKeepingSlug(a, others, active, now).value.slug == a.slug
  {
    ValidSlugNormal(a.slug);
    var kept := PreSaveNewKeepingSlug(a, others, active, now);
    assert kept.Ok?;
  }

  /** A slug of the schema pattern is lower case and trimmed. */
  lemma ValidSlugNormal(s: string)
    requires Slug.ValidSlug(s)
    ensures Trim(Lower(s)) == s
  {
    Slug.SlugAlphabetLowerFixed(s);
    LowerOfFixed(s);
    assert Slug.SlugChar(s[0]) && Slug.SlugChar(s[|s| - 1]);
    TrimOfTrimmed(s);
  }

  // ---------------------------------------------------------------------
  // findOneAndUpdate
  // ---------------------------------------------------------------------

  /** An update document: None for a field the update does not set.
      `publishedAt` is Some(None) when the update sets it to null. */
  datatype ArticleUpdate = ArticleUpdate(
    title: Option<string>, slug: Option<string>, content: Option<string>, excerpt: Option<string>,
    featuredImage: Option<string>, status: Option<string>, metaTitle: Option<string>,
    metaDescription: Option<string>, keywords: Option<seq<string>>, tags: Option<seq<string>>,
    featured: Option<bool>, allowComments: Option<bool>, sortOrder: Option<int>,
    categories: Option<seq<Id>>, publishedAt: Option<Option<int>>, readingTime: Option<int>,
    updatedBy: Option<Id>, updatedAt: Option<int>)

  const NoUpdate := ArticleUpdate(None, None, None, None, None, None, None, None, None, None,
                                  None, None, None, None, None, None, None, None)

  /** A text field the update sets to a non-empty string. */
  predicate Given(v: Option<string>) {
    v.Some? && v.value != ""
  }

  function TrimGiven(v: Option<string>): Option<string> {
    if Given(v) then Some(Trim(v.value)) else v
  }

  /** The field rewrites of the hook that do not touch slug or
      publishedAt: title, content, excerpt and meta fields trimmed, tags
      and keywords normalised, a reading time derived from new content
      when the update brings none, updatedAt set to now. */
  function Tidy(u: ArticleUpdate, now: int): (r: ArticleUpdate)
    ensures r.title == TrimGiven(u.title) && r.content == TrimGiven(u.content)
    ensures r.slug == u.slug && r.status == u.status && r.publishedAt == u.publishedAt
    ensures r.categories == u.categories && r.updatedAt == Some(now)
    ensures Given(u.content) && (u.readingTime.None? || u.readingTime.value == 0) ==>
              r.readingTime == Some(Text.CalculateReadingTime(Trim(u.content.value)))
  {
    var content := TrimGiven(u.content);
    u.(title := TrimGiven(u.title), content := content,
       readingTime := if Given(u.content) && (u.readingTime.None? || u.readingTime.value == 0)
                      then Some(Text.CalculateReadingTime(content.value)) else u.readingTime,
       excerpt := TrimGiven(u.excerpt), metaTitle := TrimGiven(u.metaTitle),
       metaDescription := TrimGiven(u.metaDescription),
       tags := if u.tags.Some? then Some(NormalizeTags(u.tags.value)) else u.tags,
       keywords := if u.keywords.Some? then Some(NormalizeKeywords(u.keywords.value)) else u.keywords,
       updatedAt := Some(now))
  }

  /** `!update.publishedAt` */
  predicate DateGiven(u: ArticleUpdate) {
    u.publishedAt.Some? && u.publishedAt.value.Some?
  }

  /** The pre-`findOneAndUpdate` hook as written: a given slug is
      lower-cased, trimmed and refused when another article holds it; a
      title that comes without a slug always brings a slug generated from
      it; status 'published' without a date always gets now. */
  function UpdateHookAsWritten(u: ArticleUpdate, others: set<string>, now: int): (r: Result<ArticleUpdate, SaveError>)
    ensures r.Err? <==> Given(u.slug) && Trim(Lower(u.slug.value)) in others
    ensures r.Err? ==> r == Err(SlugTaken)
    ensures r.Ok? ==> r.value.categories == u.categories && r.value.status == u.status
    ensures r.Ok? && Given(u.title) && !Blank(u.title.value) && !Given(u.slug) ==>
              r.value.slug == Some(Slug.UniqueSlug(Trim(u.title.value), others))
    ensures r.Ok? && u.status == Some(Published) && !DateGiven(u) ==> r.value.publishedAt == Some(Some(now))
    ensures r.Ok? && Given(u.status) && u.status.value != Published ==> r.value.publishedAt == Some(None)
    ensures r.Ok? && u.status == Some(Published) && DateGiven(u) ==> r.value.publishedAt == u.publishedAt
  {
    match UpdateHook(u, others, now)
    case Err(e) => Err(e)
    case Ok(t) => Ok(t.(slug := TitleSlug(t, others), publishedAt := StatusDateUpdate(u, now)))
  }

  /** Lines 294-298: a title without a (non-empty) slug brings the slug
      generated from it. */
  function TitleSlug(t: ArticleUpdate, others: set<string>): Option<string> {
    if Given(t.title) && !Given(t.slug) then Some(Slug.UniqueSlug(t.title.value, others)) else t.slug
  }

  /** Lines 336-341: status 'published' without a date gets now; any other
      status clears the date. */
  function StatusDateUpdate(u: ArticleUpdate, now: int): Option<Option<int>> {
    if u.status == Some(Published) && !DateGiven(u) then Some(Some(now))
    else if Given(u.status) && u.status.value != Published then Some(None)
    else u.publishedAt
  }

  /** The hook with the slug and the publication date left to the caller,
      which has the stored article at hand and decides both. */
  function UpdateHook(u: ArticleUpdate, others: set<string>, now: int): (r: Result<ArticleUpdate, SaveError>)
    ensures r.Err? <==> Given(u.slug) && Trim(Lower(u.slug.value)) in others
    ensures r.Err? ==> r == Err(SlugTaken)
    ensures r.Ok? ==> r.value.categories == u.categories && r.value.status == u.status
    ensures r.Ok? ==> r.value.publishedAt == u.publishedAt && r.value.title == TrimGiven(u.title)
    ensures r.Ok? && !Given(u.slug) ==> r.value.slug == u.slug
    ensures r.Ok? && Given(u.slug) ==> r.value.slug == Some(Trim(Lower(u.slug.value)))
  {
    var t := Tidy(u, now);
    var slug := if Given(u.slug) then Some(Trim(Lower(u.slug.value))) else u.slug;
    if Given(u.slug) && slug.value in others then Err(SlugTaken)
    else Ok(t.(slug := slug))
  }

  /** An update that re-sends the status 'published' of an article that
      is already published (the controller leaves the date alone) has its
      publication date reset to now by the hook as written; the corrected
      hook keeps what the caller decided. */
  lemma RepublishResetsDate(u: ArticleUpdate, others: set<string>, now: int)
    requires u.status == Some(Published) && u.publishedAt.None? && !Given(u.slug)
    ensures UpdateHookAsWritten(u, others, now).Ok?
    ensures UpdateHookAsWritten(u, others, now).value.publishedAt == Some(Some(now))
    ensures UpdateHook(u, others, now).Ok? && UpdateHook(u, others, now).value.publishedAt.None?
  {
  }

  /** An update that re-sends an article's unchanged title without a slug
      (the controller generates none, since the title did not change)
      still has its slug replaced by the one generated from the title;
      the corrected hook leaves the slug out of the update. */
  lemma SameTitleReplacesSlug(u: ArticleUpdate, others: set<string>, now: int)
    requires Given(u.title) && !Blank(u.title.value) && u.slug.None?
    ensures UpdateHookAsWritten(u, others, now).Ok?
    ensures UpdateHookAsWritten(u, others, now).value.slug == Some(Slug.UniqueSlug(Trim(u.title.value), others))
    ensures UpdateHook(u, others, now).Ok? && UpdateHook(u, others, now).value.slug.None?
  {
  }

  /** An article with an update applied: each field the update sets
      replaces the stored one. */
  function Apply(a: Article, u: ArticleUpdate): (r: Article)
    ensures r.categories == u.categories.GetOr(a.categories)
    ensures r.slug == u.slug.GetOr(a.slug) && r.status == u.status.GetOr(a.status)
    ensures r.publishedAt == u.publishedAt.GetOr(a.publishedAt)
    ensures r.author == a.author
  {
    a.(title := u.title.GetOr(a.title), slug := u.slug.GetOr(a.slug),
       content := u.content.GetOr(a.content), excerpt := u.excerpt.GetOr(a.excerpt),
       featuredImage := u.featuredImage.GetOr(a.featuredImage), status := u.status.GetOr(a.status),
       metaTitle := u.metaTitle.GetOr(a.metaTitle), metaDescription := u.metaDescription.GetOr(a.metaDescription),
       keywords := u.keywords.GetOr(a.keywords), tags := u.tags.GetOr(a.tags),
       featured := u.featured.GetOr(a.featured), allowComments := u.allowComments.GetOr(a.allowComments),
       sortOrder := u.sortOrder.GetOr(a.sortOrder), categories := u.categories.GetOr(a.categories),
       publishedAt := u.publishedAt.GetOr(a.publishedAt), readingTime := if u.readingTime.Some? then u.readingTime else a.readingTime,
       updatedBy := u.updatedBy.GetOr(a.updatedBy), updatedAt := u.updatedAt.GetOr(a.updatedAt))
  }

  /** An empty update leaves the article as it is. */
  lemma ApplyNothing(a: Article)
    ensures Apply(a, NoUpdate) == a
  {
  }
}

/** The Article model: the stored record and its schema constraints
    (src/models/Article/schema.js), the virtuals (virtuals.js), the instance
    methods (methods.js) and the sort rule of findWithPagination
    (statics.js).  A document whose methods change it in place is an
    `ArticleDoc`; the functions below say what each method makes of the
    record.  Optional text fields that are absent are the empty string. */
module ArticleModel {
  import opened Wrappers
  import opened Js
  import opened Seqs
  import opened Principal
  import Text
  import Slug
  import Labels
  import SortUtils

  type Id = string

  const Draft := "draft"
  const Published := "published"
  const Archived := "archived"

  /** A stored article.  `readingTime` is None while unset; `publishedAt`
      is None when unset or null. */
  datatype Article = Article(
    title: string, slug: string, content: string, excerpt: string, featuredImage: string,
    categories: seq<Id>, author: Id, status: string, publishedAt: Option<int>,
    metaTitle: string, metaDescription: string, keywords: seq<string>,
    viewCount: int, likeCount: int, commentCount: int, featured: bool, allowComments: bool,
    readingTime: Option<int>, tags: seq<string>, sortOrder: int, updatedBy: Id, updatedAt: int)

  // ---------------------------------------------------------------------
  // Schema
  // ---------------------------------------------------------------------

  /** What the schema's `trim` and `lowercase` setters make of assigned
      values. */
  function Cast(a: Article): Article
  {
    a.(title := Trim(a.title), slug := Trim(Lower(a.slug)), excerpt := Trim(a.excerpt),
       featuredImage := Trim(a.featuredImage), metaTitle := Trim(a.metaTitle),
       metaDescription := Trim(a.metaDescription),
       keywords := seq(|a.keywords|, i requires 0 <= i < |a.keywords| => Trim(a.keywords[i])),
       tags := seq(|a.tags|, i requires 0 <= i < |a.tags| => Trim(a.tags[i])))
  }

  /** The schema validators: title 5..200 characters, a slug of the
      pattern `^[a-z0-9]+(?:-[a-z0-9]+)*$` of at most 250 characters,
      content of at least 50, excerpt at most 500, an author, one of the
      three statuses, the meta and list length caps, non-negative counters
      and sort order, and a reading time of at least one minute when set. */
  predicate ArticleValid(a: Article) {
    5 <= |a.title| <= 200 &&
    Slug.ValidSlug(a.slug) && |a.slug| <= 250 &&
    |a.content| >= 50 && |a.excerpt| <= 500 &&
    a.author != "" &&
    a.status in {Draft, Published, Archived} &&
    |a.metaTitle| <= 60 && |a.metaDescription| <= 160 &&
    (forall k :: k in a.keywords ==> |k| <= 50) &&
    a.viewCount >= 0 && a.likeCount >= 0 && a.commentCount >= 0 &&
    (a.readingTime.None? || a.readingTime.value >= 1) &&
    (forall t :: t in a.tags ==> |t| <= 30) &&
    a.sortOrder >= 0
  }

  /** `if (this.readingTime)`: set and non-zero. */
  predicate HasReadingTime(a: Article) {
    a.readingTime.Some? && a.readingTime.value != 0
  }

  // ---------------------------------------------------------------------
  // Virtuals
  // ---------------------------------------------------------------------

  /** The `url` virtual. */
  function Url(a: Article): string {
    "/articles/" + a.slug
  }

  /** Two articles share a URL only when they share a slug. */
  lemma UrlInjective(a: Article, b: Article)
    ensures Url(a) == Url(b) <==> a.slug == b.slug
  {
    if Url(a) == Url(b) {
      assert a.slug == Url(a)[10..] && b.slug == Url(b)[10..];
    }
  }

  /** `displayTitle`: metaTitle, else title. */
  function DisplayTitle(a: Article): (r: string)
    ensures r == a.metaTitle || r == a.title
    ensures r == "" ==> a.metaTitle == "" && a.title == ""
  {
    if a.metaTitle != "" then a.metaTitle else a.title
  }

  /** `displayDescription`: metaDescription, else excerpt. */
  function DisplayDescription(a: Article): (r: string)
    ensures r == a.metaDescription || r == a.excerpt
    ensures r == "" ==> a.metaDescription == "" && a.excerpt == ""
  {
    if a.metaDescription != "" then a.metaDescription else a.excerpt
  }

  const StatusLabels: map<string, string> :=
    map[Draft := "Bản nháp", Published := "Đã xuất bản", Archived := "Đã lưu trữ"]

  /** `statusDisplay` */
  function StatusDisplay(status: string): string {
    Labels.StatusLabel(StatusLabels, status)
  }

  /** The three statuses get three different labels, and any other value is
      shown as it is. */
  lemma StatusDisplayLabels(status: string)
    ensures StatusDisplay(Draft) != StatusDisplay(Published)
    ensures StatusDisplay(Draft) != StatusDisplay(Archived)
    ensures StatusDisplay(Published) != StatusDisplay(Archived)
    ensures status !in {Draft, Published, Archived} ==> StatusDisplay(status) == status
  {
  }

  predicate IsPublished(a: Article) { a.status == Published }
  predicate IsDraft(a: Article) { a.status == Draft }
  predicate IsArchived(a: Article) { a.status == Archived }

  /** At most one status flag holds, and a valid article has exactly one. */
  lemma StatusFlagsExclusive(a: Article)
    ensures !(IsPublished(a) && IsDraft(a)) && !(IsPublished(a) && IsArchived(a)) && !(IsDraft(a) && IsArchived(a))
    ensures ArticleValid(a) ==> IsPublished(a) || IsDraft(a) || IsArchived(a)
  {
  }

  /** `hasFeaturedImage` as written: it reads the `url` property of the
      featured image, but the image is stored as its URL text, whose `url`
      is undefined, so the virtual is false for every article. */
  function HasFeaturedImage(a: Article): (r: bool)
    ensures !r
  {
    var imageUrl: Option<string> := None;  // `this.featuredImage.url` on a string
    a.featuredImage != "" && imageUrl.Some?
  }

  /** `hasFeaturedImage` as evidently intended: the article has an image
      exactly when its URL text is set. */
  function HasFeaturedImageIntended(a: Article): (r: bool)
    ensures r <==> |a.featuredImage| > 0
  {
    a.featuredImage != ""
  }

  /** The discrepancy on every article with an image: the virtual as
      written says it has none, the intended one that it has one. */
  lemma FeaturedImageIgnored(a: Article)
    requires a.featuredImage != ""
    ensures !HasFeaturedImage(a) && HasFeaturedImageIntended(a)
  {
  }

  /** The `wordCount` virtual. */
  function WordCount(a: Article): nat {
    Text.WordCount(a.content)
  }

  /** `estimatedReadingTime`: the stored reading time when set, else one
      minute per 200 words, at least one. */
  function EstimatedReadingTime(a: Article): (m: int)
    ensures HasReadingTime(a) ==> m == a.readingTime.value
    ensures (a.readingTime.None? || a.readingTime.value >= 1) ==> m >= 1
  {
    if HasReadingTime(a) then a.readingTime.value
    else Max(1, CeilDiv(WordCount(a), Text.WordsPerMinute))
  }

  /** Without a stored reading time the estimate is what the
      `calculateReadingTime` static would store. */
  lemma EstimateIsCalculated(a: Article)
    requires !HasReadingTime(a)
    ensures EstimatedReadingTime(a) == Text.CalculateReadingTime(a.content)
  {
    Text.ReadingTimeFromWordCount(a.content);
  }

  /** `publishedTimeAgo`: null while publishedAt is unset. */
  function PublishedTimeAgo(a: Article, now: int): Option<string> {
    Labels.TimeAgoLabel(a.publishedAt, now)
  }

  /** `commentCountDisplay` */
  function CommentCountDisplay(a: Article): string {
    Labels.CountLabel(a.commentCount, "Chưa có bình luận", " bình luận")
  }

  /** The comment label names the count: different counts, different
      labels; no comments, a fixed text. */
  lemma CommentCountDisplayDistinct(a: Article, b: Article)
    ensures a.commentCount == 0 ==> CommentCountDisplay(a) == "Chưa có bình luận"
    ensures CommentCountDisplay(a) == CommentCountDisplay(b) ==> a.commentCount == b.commentCount
  {
    if CommentCountDisplay(a) == CommentCountDisplay(b) {
      Labels.CountLabelInjective(a.commentCount, b.commentCount, "Chưa có bình luận", " bình luận");
    }
  }

  /** `readingTimeDisplay` */
  function ReadingTimeDisplay(a: Article): string {
    IntToString(EstimatedReadingTime(a)) + " phút đọc"
  }

  /** `displayExcerpt` */
  function DisplayExcerpt(a: Article): string {
    Text.DisplayExcerpt(a.excerpt, a.content)
  }

  // ---------------------------------------------------------------------
  // Instance methods, as functions of the record
  // ---------------------------------------------------------------------

  /** `publish` */
  function AfterPublish(a: Article, now: int): (r: Article)
    ensures r.status == Published && r.publishedAt == Some(now)
    ensures HasReadingTime(a) ==> r.readingTime == a.readingTime
    ensures !HasReadingTime(a) ==> r.readingTime == Some(Text.CalculateReadingTime(a.content))
    ensures r.(status := a.status, publishedAt := a.publishedAt, readingTime := a.readingTime) == a
  {
    a.(status := Published, publishedAt := Some(now),
       readingTime := if HasReadingTime(a) then a.readingTime else Some(Text.CalculateReadingTime(a.content)))
  }

  /** Publishing a valid article leaves it valid. */
  lemma PublishKeepsValid(a: Article, now: int)
    requires ArticleValid(a)
    ensures ArticleValid(AfterPublish(a, now))
  {
  }

  /** `unpublish` */
  function AfterUnpublish(a: Article): (r: Article)
    ensures r.status == Draft && r.publishedAt.None?
    ensures r.(status := a.status, publishedAt := a.publishedAt) == a
  {
    a.(status := Draft, publishedAt := None)
  }

  /** Unpublishing undoes publishing except for the reading time it may
      have filled in. */
  lemma UnpublishAfterPublish(a: Article, now: int)
    requires a.status == Draft && a.publishedAt.None?
    ensures AfterUnpublish(AfterPublish(a, now)) == a.(readingTime := AfterPublish(a, now).readingTime)
  {
  }

  /** The status hook of the save that ends `archive` and `unarchive`:
      when the status changes to anything but 'published', the publication
      date is cleared. */
  function WithDraftStatus(a: Article, status: string): (r: Article)
    requires status != Published
    ensures r.status == status
    ensures a.status != status ==> r.publishedAt.None?
    ensures a.status == status ==> r == a
    ensures r.(status := a.status, publishedAt := a.publishedAt) == a
  {
    if a.status == status then a else a.(status := status, publishedAt := None)
  }

  /** `archive` and its save. */
  function AfterArchive(a: Article): (r: Article)
    ensures r.status == Archived && !IsPublished(r)
    ensures a.status != Archived ==> r.publishedAt.None?
    ensures r.(status := a.status, publishedAt := a.publishedAt) == a
  {
    WithDraftStatus(a, Archived)
  }

  /** `unarchive` and its save. */
  function AfterUnarchive(a: Article): (r: Article)
    ensures r.status == Draft && !IsPublished(r)
    ensures a.status != Draft ==> r.publishedAt.None?
    ensures r.(status := a.status, publishedAt := a.publishedAt) == a
  {
    WithDraftStatus(a, Draft)
  }

  /** Archiving a published article and unarchiving it gives a draft
      without a publication date; unarchiving an archived draft gives the
      draft back. */
  lemma UnarchiveAfterArchive(a: Article)
    ensures a.status == Draft ==> AfterUnarchive(AfterArchive(a)) == a.(publishedAt := None)
    ensures a.status == Published ==> AfterUnarchive(AfterArchive(a)) == AfterUnpublish(a)
  {
  }

  /** `incrementViewCount`, `incrementLikeCount`, `incrementCommentCount` */
  function IncrementView(a: Article, count: int): (r: Article)
    ensures r.viewCount == a.viewCount + count && r.(viewCount := a.viewCount) == a
  {
    a.(viewCount := a.viewCount + count)
  }

  function IncrementLike(a: Article, count: int): (r: Article)
    ensures r.likeCount == a.likeCount + count && r.(likeCount := a.likeCount) == a
  {
    a.(likeCount := a.likeCount + count)
  }

  function IncrementComment(a: Article, count: int): (r: Article)
    ensures r.commentCount == a.commentCount + count && r.(commentCount := a.commentCount) == a
  {
    a.(commentCount := a.commentCount + count)
  }

  /** `decrementLikeCount`: never below zero. */
  function DecrementLike(a: Article, count: int): (r: Article)
    ensures r.likeCount >= 0
    ensures r.likeCount == if a.likeCount - count >= 0 then a.likeCount - count else 0
    ensures r.(likeCount := a.likeCount) == a
  {
    a.(likeCount := Max(0, a.likeCount - count))
  }

  /** `decrementCommentCount`: never below zero. */
  function DecrementComment(a: Article, count: int): (r: Article)
    ensures r.commentCount >= 0
    ensures r.commentCount == if a.commentCount - count >= 0 then a.commentCount - count else 0
    ensures r.(commentCount := a.commentCount) == a
  {
    a.(commentCount := Max(0, a.commentCount - count))
  }

  /** Decrementing undoes incrementing by the same count on a valid
      counter. */
  lemma DecrementUndoesIncrement(a: Article, count: nat)
    requires a.likeCount >= 0 && a.commentCount >= 0
    ensures DecrementLike(IncrementLike(a, count), count) == a
    ensures DecrementComment(IncrementComment(a, count), count) == a
  {
  }

  /** `setFeatured` */
  function WithFeatured(a: Article, featured: bool): (r: Article)
    ensures r.featured == featured && r.(featured := a.featured) == a
  {
    a.(featured := featured)
  }

  /** `updateReadingTime` */
  function AfterUpdateReadingTime(a: Article): (r: Article)
    ensures r.readingTime.Some? && r.readingTime.value >= 1
    ensures r.(readingTime := a.readingTime) == a
  {
    a.(readingTime := Some(Text.CalculateReadingTime(a.content)))
  }

  /** `updateExcerpt`: fills in an absent excerpt only. */
  function AfterUpdateExcerpt(a: Article, length: int): (r: Article)
    ensures a.excerpt != "" ==> r == a
    ensures a.excerpt == "" ==> r == a.(excerpt := Text.GenerateExcerpt(a.content, length))
  {
    if a.excerpt != "" then a else a.(excerpt := Text.GenerateExcerpt(a.content, length))
  }

  /** `addCategory` */
  function WithCategory(a: Article, id: Id): (r: Article)
    ensures id in r.categories
    ensures forall c :: c in r.categories <==> c in a.categories || c == id
    ensures r.(categories := a.categories) == a
  {
    a.(categories := AddIfAbsent(a.categories, id))
  }

  /** `removeCategory`: every entry equal to the id goes, nothing else. */
  function WithoutCategory(a: Article, id: Id): (r: Article)
    ensures id !in r.categories
    ensures forall c :: c != id ==> multiset(r.categories)[c] == multiset(a.categories)[c]
    ensures r.(categories := a.categories) == a
  {
    var cs := Without(a.categories, id);
    assert id !in cs by { assert multiset(cs)[id] == 0; }
    a.(categories := cs)
  }

  /** Adding a category never creates a duplicate, and removing it again
      gives what removing alone gives. */
  lemma CategoryAddRemove(a: Article, id: Id)
    ensures NoDup(a.categories) ==> NoDup(WithCategory(a, id).categories)
    ensures WithoutCategory(WithCategory(a, id), id) == WithoutCategory(a, id)
  {
    if NoDup(a.categories) {
      AddIfAbsentNoDup(a.categories, id);
    }
    WithoutAfterAdd(a.categories, id);
  }

  /** The form in which tags are stored: `tag.trim().toLowerCase()`. */
  function NormalizeTag(tag: string): string {
    Lower(Trim(tag))
  }

  /** The schema's `maxlength` for one tag (schema.js:108-112). */
  const MaxTagLength := 30
  const TagTooLong := "Tag không được vượt quá 30 ký tự"

  /** `addTag` and its save: a tag already stored is left alone and
      nothing is saved; a new tag is pushed in its stored form and the
      document saved, whose validation refuses it when it is longer than
      30 characters, so that nothing is stored.  A blank one is pushed as
      '' and the save's tag hook drops it again. */
  function WithTag(a: Article, tag: string): (r: Result<Article, string>)
    ensures r.Err? <==> NormalizeTag(tag) !in a.tags && |NormalizeTag(tag)| > MaxTagLength
    ensures r.Err? ==> r.error == TagTooLong
    ensures r.Ok? && NormalizeTag(tag) != "" ==> NormalizeTag(tag) in r.value.tags
    ensures r.Ok? ==> forall t :: t in r.value.tags <==> t in a.tags || (t == NormalizeTag(tag) && t != "")
    ensures r.Ok? ==> r.value.(tags := a.tags) == a
  {
    var n := NormalizeTag(tag);
    if n in a.tags then Ok(a)
    else if |n| > MaxTagLength then Err(TagTooLong)
    else if n == "" then Ok(a)
    else Ok(a.(tags := AddIfAbsent(a.tags, n)))
  }

  /** Tags within the schema's limit stay within it: a tag that would
      break it is refused. */
  lemma TagsStayWithinLimit(a: Article, tag: string)
    requires forall t :: t in a.tags ==> |t| <= MaxTagLength
    ensures WithTag(a, tag).Ok? ==> forall t :: t in WithTag(a, tag).value.tags ==> |t| <= MaxTagLength
  {
  }

  /** `removeTag`: every occurrence of the normalised tag goes, nothing
      else. */
  function WithoutTag(a: Article, tag: string): (r: Article)
    ensures NormalizeTag(tag) !in r.tags
    ensures forall t :: t != NormalizeTag(tag) ==> multiset(r.tags)[t] == multiset(a.tags)[t]
    ensures r.(tags := a.tags) == a
  {
    var ts := Without(a.tags, NormalizeTag(tag));
    assert NormalizeTag(tag) !in ts by { assert multiset(ts)[NormalizeTag(tag)] == 0; }
    a.(tags := ts)
  }

  /** Tags are matched in their stored form, so a tag added in any spelling
      that normalises alike is removed again. */
  lemma TagAddRemove(a: Article, added: string, removed: string)
    requires NormalizeTag(added) == NormalizeTag(removed)
    requires WithTag(a, added).Ok?
    ensures NoDup(a.tags) ==> NoDup(WithTag(a, added).value.tags)
    ensures WithoutTag(WithTag(a, added).value, removed) == WithoutTag(a, removed)
  {
    if NoDup(a.tags) {
      AddIfAbsentNoDup(a.tags, NormalizeTag(added));
    }
    WithoutAfterAdd(a.tags, NormalizeTag(added));
  }

  // ---------------------------------------------------------------------
  // Permissions
  // ---------------------------------------------------------------------

  /** The outcome of a permission check that may throw. */
  datatype Check = Allow | Deny | Throws

  /** `canBeEditedBy` as written: after the admin test it reads
      `user._id.toString()`, and the request user has no `_id`, so for any
      article with an author the call throws a TypeError.  (The preceding
      `author.equals(undefined)` is false.) */
  function CanBeEditedByAsWritten(a: Article, user: Option<RequestUser>): (r: Check)
    ensures user.None? ==> r == Deny
    ensures user.Some? && user.value.role == Admin ==> r == Allow
  {
    if user.None? then Deny
    else if user.value.role == Admin then Allow
    else if a.author != "" then Throws
    else if user.value.role == Faculty && a.status == Draft then Allow
    else Deny
  }

  /** Every non-admin caller makes the check throw on a stored article, so
      authors and faculty can never edit. */
  lemma EditCheckThrowsForNonAdmins(a: Article, user: RequestUser)
    requires a.author != "" && user.role != Admin
    ensures CanBeEditedByAsWritten(a, Some(user)) == Throws
  {
  }

  /** `canBeEditedBy` as evidently intended, comparing the author with the
      caller's id: admins always, the author always, faculty on drafts. */
  function CanBeEditedBy(a: Article, user: Option<RequestUser>): (r: bool)
    ensures r <==> user.Some? && (user.value.role == Admin || (a.author != "" && a.author == user.value.id) ||
                                  (user.value.role == Faculty && a.status == Draft))
  {
    if user.None? then false
    else if user.value.role == Admin then true
    else if a.author != "" && a.author == user.value.id then true
    else if user.value.role == Faculty && a.status == Draft then true
    else false
  }

  /** `canBeDeletedBy` as written: throws for every non-admin, as above. */
  function CanBeDeletedByAsWritten(a: Article, user: Option<RequestUser>): (r: Check)
    ensures user.None? ==> r == Deny
    ensures user.Some? && user.value.role == Admin ==> r == Allow
    ensures user.Some? && user.value.role != Admin && a.author != "" ==> r == Throws
  {
    if user.None? then Deny
    else if user.value.role == Admin then Allow
    else if a.author != "" then Throws
    else Deny
  }

  /** `canBeDeletedBy` as evidently intended: admins always, the author
      only while the article is a draft. */
  function CanBeDeletedBy(a: Article, user: Option<RequestUser>): (r: bool)
    ensures r <==> user.Some? && (user.value.role == Admin ||
                                  (a.author != "" && a.author == user.value.id && a.status == Draft))
  {
    if user.None? then false
    else if user.value.role == Admin then true
    else a.author != "" && a.author == user.value.id && a.status == Draft
  }

  /** Whoever may delete may edit. */
  lemma DeleteImpliesEdit(a: Article, user: Option<RequestUser>)
    ensures CanBeDeletedBy(a, user) ==> CanBeEditedBy(a, user)
  {
  }

  // ---------------------------------------------------------------------
  // validateData
  // ---------------------------------------------------------------------

  /** The failures validateData reports, in the order it checks them. */
  datatype DataError = TitleMissing | ContentMissing | NoCategory | NoAuthor

  function Message(e: DataError): string {
    match e
    case TitleMissing => "Tiêu đề bài viết là bắt buộc"
    case ContentMissing => "Nội dung bài viết là bắt buộc"
    case NoCategory => "Bài viết phải thuộc ít nhất một danh mục"
    case NoAuthor => "Tác giả bài viết là bắt buộc"
  }

  datatype Validation = Validation(isValid: bool, errors: seq<DataError>)

  /** `validateData`: one error per failed rule, in order; valid exactly
      when there is none. */
  function ValidateData(a: Article): (v: Validation)
    ensures v.isValid <==> v.errors == []
    ensures TitleMissing in v.errors <==> Blank(a.title)
    ensures ContentMissing in v.errors <==> Blank(a.content)
    ensures NoCategory in v.errors <==> a.categories == []
    ensures NoAuthor in v.errors <==> a.author == ""
    ensures NoDup(v.errors)
  {
    var errors := Failures(Blank(a.title), Blank(a.content), a.categories == [], a.author == "");
    Validation(errors == [], errors)
  }

  /** The error list for the four outcomes of the checks. */
  function Failures(noTitle: bool, noContent: bool, noCategory: bool, noAuthor: bool): (r: seq<DataError>)
    ensures TitleMissing in r <==> noTitle
    ensures ContentMissing in r <==> noContent
    ensures NoCategory in r <==> noCategory
    ensures NoAuthor in r <==> noAuthor
    ensures NoDup(r)
    ensures r == [] <==> !noTitle && !noContent && !noCategory && !noAuthor
  {
    (if noTitle then [TitleMissing] else []) +
    (if noContent then [ContentMissing] else []) +
    (if noCategory then [NoCategory] else []) +
    (if noAuthor then [NoAuthor] else [])
  }

  // ---------------------------------------------------------------------
  // findWithPagination
  // ---------------------------------------------------------------------

  /** The sort of `findWithPagination`: a non-empty explicit sort object
      wins; otherwise one key, sortBy when it is on the allow-list (else
      'createdAt'), with sortOrder when it is exactly 1 or -1 (else -1). */
  function ListSort(sortBy: Value, sortOrder: Value, explicit: seq<SortUtils.SortKey>): (r: seq<SortUtils.SortKey>)
    ensures explicit != [] ==> r == explicit
    ensures explicit == [] ==>
              |r| == 1 && (r[0].order == 1 || r[0].order == -1) &&
              (r[0].field in SortUtils.ArticleSortFields || r[0].field == "createdAt")
    ensures explicit == [] && (sortOrder == Num(Int(1)) || sortOrder == Num(Int(-1))) ==> r[0].order == sortOrder.n.i
  {
    if explicit != [] then explicit
    else
      var order := if sortOrder == Num(Int(1)) || sortOrder == Num(Int(-1)) then sortOrder.n.i else -1;
      [SortUtils.SortKey(SortUtils.ValidateSortField(sortBy, SortUtils.ArticleSortFields, "createdAt"), order)]
  }

  // ---------------------------------------------------------------------
  // The document
  // ---------------------------------------------------------------------

  /** A loaded article document; its methods change the record in place. */
  class ArticleDoc {
    var doc: Article

    constructor (a: Article)
      ensures doc == a
    {
      doc := a;
    }

    method Publish(now: int)
      modifies this
      ensures doc == AfterPublish(old(doc), now)
    {
      doc := AfterPublish(doc, now);
    }

    method Unpublish()
      modifies this
      ensures doc == AfterUnpublish(old(doc))
    {
      doc := AfterUnpublish(doc);
    }

    method Archive()
      modifies this
      ensures doc == AfterArchive(old(doc))
    {
      doc := AfterArchive(doc);
    }

    method Unarchive()
      modifies this
      ensures doc == AfterUnarchive(old(doc))
    {
      doc := AfterUnarchive(doc);
    }

    method SetFeatured(featured: bool)
      modifies this
      ensures doc == WithFeatured(old(doc), featured)
    {
      doc := WithFeatured(doc, featured);
    }

    method IncrementViewCount(count: int)
      modifies this
      ensures doc == IncrementView(old(doc), count)
    {
      doc := doc.(viewCount := doc.viewCount + count);
    }

    method IncrementLikeCount(count: int)
      modifies this
      ensures doc == IncrementLike(old(doc), count)
    {
      doc := doc.(likeCount := doc.likeCount + count);
    }

    method DecrementLikeCount(count: int)
      modifies this
      ensures doc == DecrementLike(old(doc), count)
    {
      doc := doc.(likeCount := Max(0, doc.likeCount - count));
    }

    method IncrementCommentCount(count: int)
      modifies this
      ensures doc == IncrementComment(old(doc), count)
    {
      doc := doc.(commentCount := doc.commentCount + count);
    }

    method DecrementCommentCount(count: int)
      modifies this
      ensures doc == DecrementComment(old(doc), count)
    {
      doc := doc.(commentCount := Max(0, doc.commentCount - count));
    }

    method UpdateReadingTime()
      modifies this
      ensures doc == AfterUpdateReadingTime(old(doc))
    {
      doc := AfterUpdateReadingTime(doc);
    }

    method UpdateExcerpt(length: int)
      modifies this
      ensures doc == AfterUpdateExcerpt(old(doc), length)
    {
      if doc.excerpt == "" {
        doc := doc.(excerpt := Text.GenerateExcerpt(doc.content, length));
      }
    }

    method UpdateModifiedBy(userId: Id)
      modifies this
      ensures doc == old(doc).(updatedBy := userId)
    {
      doc := doc.(updatedBy := userId);
    }

    method AddCategory(id: Id)
      modifies this
      ensures doc == WithCategory(old(doc), id)
    {
      if id !in doc.categories {
        doc := doc.(categories := doc.categories + [id]);
      }
    }

    method RemoveCategory(id: Id)
      modifies this
      ensures doc == WithoutCategory(old(doc), id)
    {
      doc := doc.(categories := Without(doc.categories, id));
    }

    /** `addTag`: the saved record, or the save's refusal with the record
        left as stored. */
    method AddTag(tag: string) returns (saved: Result<Article, string>)
      modifies this
      ensures saved == WithTag(old(doc), tag)
      ensures doc == if saved.Ok? then saved.value else old(doc)
    {
      var normalized := Lower(Trim(tag));
      if normalized in doc.tags {
        return Ok(doc);
      }
      if |normalized| > MaxTagLength {
        return Err(TagTooLong);
      }
      if normalized != "" {
        doc := doc.(tags := doc.tags + [normalized]);
      }
      saved := Ok(doc);
    }

    method RemoveTag(tag: string)
      modifies this
      ensures doc == WithoutTag(old(doc), tag)
    {
      doc := doc.(tags := Without(doc.tags, NormalizeTag(tag)));
    }
  }
}

/** The article handlers (src/controllers/article/crud.js and publish.js)
    as functions from the store before the request to the status code and
    the store after it.  Both the code as written and the code as evidently
    intended are given where they differ; `Version` selects the permission
    checks, the slug hook on creation and the number of decrements on
    deletion, and the update handler comes in two definitions because the
    order of its steps differs. */
module ArticleController {
  import opened Wrappers
  import opened Js
  import opened Seqs
  import opened Principal
  import opened ArticleModel
  import CategoryModel
  import Slug
  import ArticleHooks
  import opened ContentStore
  import opened Responses
  import opened Patterns

  /** A list field of the request body: missing, present but not an array,
      or an array. */
  datatype ListField<T> = Absent | NotArray | Items(items: seq<T>)

  /** The request body of create and update.  A text field is None when it
      is undefined; `sortOrder` is the raw value. */
  datatype ArticleInput = ArticleInput(
    title: Option<string>, slug: Option<string>, content: Option<string>, excerpt: Option<string>,
    featuredImage: Option<string>, categories: ListField<CategoryModel.Id>, status: Option<string>,
    metaTitle: Option<string>, metaDescription: Option<string>,
    keywords: ListField<string>, tags: ListField<string>,
    featured: Option<bool>, allowComments: Option<bool>, sortOrder: Value)

  /** The response status and the two collections afterwards. */
  datatype Outcome = Outcome(code: int, articles: Articles, categories: Categories)

  /** The ids of the categories that exist and are active. */
  function ActiveIds(categories: Categories): set<CategoryModel.Id> {
    set c | c in categories && categories[c].status == CategoryModel.Active
  }

  /** The category check of lines 307-316 and 520-532: `Category.find`
      with `{_id: {$in: ids}, status: 'active'}` returns one document for
      each distinct active category the ids cast to, and the handler
      wants as many documents as it has (de-duplicated) ids. */
  predicate CategoriesFound(ids: seq<CategoryModel.Id>, active: set<CategoryModel.Id>) {
    |Listed(ObjectIdKeys(ids)) * active| == |ids|
  }

  /** The count matches exactly when every id names an active category
      and no two ids name the same one, such as two spellings of one id
      that differ in case. */
  lemma {:induction false} CategoriesFoundIff(ids: seq<CategoryModel.Id>, active: set<CategoryModel.Id>)
    ensures CategoriesFound(ids, active) <==>
            ArticleHooks.AllActive(ObjectIdKeys(ids), active) && NoDup(ObjectIdKeys(ids))
  {
    var keys := ObjectIdKeys(ids);
    var listed := Listed(keys);
    DistinctCount(keys);
    assert |listed| == |listed * active| + |listed - active| by {
      assert listed == (listed * active) + (listed - active);
      assert (listed * active) * (listed - active) == {};
    }
    if ArticleHooks.AllActive(keys, active) {
      assert listed - active == {};
    }
    if CategoriesFound(ids, active) {
      assert |listed - active| == 0 && |listed| == |keys|;
      forall c | c in keys
        ensures c in active
      {
        assert c in listed;
        assert listed - active == {};
        assert c !in listed - active;
      }
    }
  }

  /** De-duplicating a list of ids keeps the ObjectIds it casts to. */
  lemma KeysOfDedup(ids: seq<CategoryModel.Id>)
    ensures forall c :: c in ObjectIdKeys(ids) <==> c in ObjectIdKeys(Dedup(ids))
  {
    var keys, dkeys := ObjectIdKeys(ids), ObjectIdKeys(Dedup(ids));
    forall c | c in keys
      ensures c in dkeys
    {
      var i :| 0 <= i < |ids| && keys[i] == c;
      assert ids[i] in Dedup(ids);
      var j :| 0 <= j < |Dedup(ids)| && Dedup(ids)[j] == ids[i];
      assert dkeys[j] == c;
    }
    forall c | c in dkeys
      ensures c in keys
    {
      var j :| 0 <= j < |Dedup(ids)| && dkeys[j] == c;
      assert Dedup(ids)[j] in ids;
      var i :| 0 <= i < |ids| && ids[i] == Dedup(ids)[j];
      assert keys[i] == c;
    }
  }

  /** The slugs of all articles. */
  function Slugs(articles: Articles): set<string> {
    set a | a in articles :: articles[a].slug
  }

  /** The slugs of all articles other than `id`. */
  function OtherSlugs(articles: Articles, id: ArticleModel.Id): set<string> {
    set a | a in articles && a != id :: articles[a].slug
  }

  /** A text field that is set and non-empty, i.e. truthy. */
  predicate Truthy(s: Option<string>) {
    s.Some? && s.value != ""
  }

  function TrimOr(s: Option<string>, d: string): string {
    if s.Some? then Trim(s.value) else d
  }

  /** `Array.isArray(xs) ? xs.filter(x => x.trim()) : []` */
  function KeptEntries(f: ListField<string>): seq<string> {
    if f.Items? then ArticleHooks.NonBlank(f.items) else []
  }

  /** The permission check of update, publish and unpublish. */
  function EditGate(v: Version, a: Article, user: RequestUser): Check {
    if v == AsWritten then CanBeEditedByAsWritten(a, Some(user))
    else if CanBeEditedBy(a, Some(user)) then Allow else Deny
  }

  /** The permission check of delete. */
  function DeleteGate(v: Version, a: Article, user: RequestUser): Check {
    if v == AsWritten then CanBeDeletedByAsWritten(a, Some(user))
    else if CanBeDeletedBy(a, Some(user)) then Allow else Deny
  }

  /** A denied check answers 403; a check that throws lands in the catch
      block and answers 500. */
  function GateCode(c: Check): int {
    if c == Deny then 403 else 500
  }

  // ---------------------------------------------------------------------
  // createArticle
  // ---------------------------------------------------------------------

  /** `articleData` (lines 338-361), with the schema's defaults for what
      it leaves undefined. */
  function NewArticle(input: ArticleInput, slug: string, cats: seq<CategoryModel.Id>,
                      user: RequestUser, now: int): (r: Article)
    ensures r.slug == slug && r.categories == cats && r.author == user.id
    ensures r.status == input.status.GetOr(Draft)
    ensures r.publishedAt == if r.status == Published then Some(now) else None
  {
    var status := input.status.GetOr(Draft);
    Article(
      title := TrimOr(input.title, ""), slug := slug, content := TrimOr(input.content, ""),
      excerpt := TrimOr(input.excerpt, ""), featuredImage := input.featuredImage.GetOr(""),
      categories := cats, author := user.id, status := status,
      publishedAt := if status == Published then Some(now) else None,
      metaTitle := TrimOr(input.metaTitle, ""), metaDescription := TrimOr(input.metaDescription, ""),
      keywords := KeptEntries(input.keywords), viewCount := 0, likeCount := 0, commentCount := 0,
      featured := input.featured.GetOr(false), allowComments := input.allowComments.GetOr(true),
      readingTime := None, tags := KeptEntries(input.tags),
      sortOrder := ParseIntOr(input.sortOrder, 0), updatedBy := user.id, updatedAt := now)
  }

  /** The checks of lines 277-335 and the validators of `create`: either
      the validated document or the status of the refusal.  A category id
      that is no ObjectId makes the `$in` filter of lines 307-310 throw,
      and the catch block answers 500. */
  function CreateChecks(articles: Articles, categories: Categories, input: ArticleInput,
                        user: RequestUser, now: int): (r: Result<Article, int>)
    ensures r.Err? ==> r.error in {400, 500}
    ensures r.Err? && r.error == 500 <==>
              input.title.Some? && !Blank(input.title.value) && input.content.Some? && !Blank(input.content.value) &&
              input.categories.Items? && |input.categories.items| > 0 && !ObjectIdTexts(input.categories.items)
    ensures input.title.None? || Blank(input.title.value) ==> r.Err?
    ensures input.content.None? || Blank(input.content.value) ==> r.Err?
    ensures !(input.categories.Items? && |input.categories.items| > 0) ==> r.Err?
    ensures input.categories.Items? && !ArticleHooks.AllActive(ObjectIdKeys(input.categories.items), ActiveIds(categories)) ==> r.Err?
    ensures input.categories.Items? && !NoDup(ObjectIdKeys(Dedup(input.categories.items))) ==> r.Err?
    ensures Truthy(input.slug) && Trim(Lower(input.slug.value)) in Slugs(articles) ==> r.Err?
    ensures r.Ok? ==> input.title.Some? && !Blank(input.title.value) && input.categories.Items? &&
                      r.value.categories == ObjectIdKeys(Dedup(input.categories.items)) &&
                      r.value.title == Trim(input.title.value) &&
                      ArticleHooks.AllActive(r.value.categories, ActiveIds(categories)) &&
                      r.value.author == user.id && ArticleValid(r.value)
    ensures r.Ok? && Truthy(input.slug) ==> r.value.slug == Trim(Lower(input.slug.value))
  {
    if input.title.None? || Blank(input.title.value) then Err(400)
    else if input.content.None? || Blank(input.content.value) then Err(400)
    else if !(input.categories.Items? && |input.categories.items| > 0) then Err(400)
    else if !ObjectIdTexts(input.categories.items) then Err(500)
    else
      var cats := Dedup(input.categories.items);
      if !CategoriesFound(cats, ActiveIds(categories)) then Err(400)
      else if Truthy(input.slug) && Trim(Lower(input.slug.value)) in Slugs(articles) then Err(400)
      else
        var slug := if Truthy(input.slug) then input.slug.value
                    else Slug.UniqueSlug(input.title.value, Slugs(articles));
        CategoriesFoundIff(cats, ActiveIds(categories));
        KeysOfDedup(input.categories.items);
        var data := Cast(NewArticle(input, slug, ObjectIdKeys(cats), user, now));
        TrimIdempotent(input.title.value);
        if ArticleValid(data) then Ok(data) else Err(400)
  }

  /** The pre-save chain of the version: as written, the slug is always
      regenerated from the title; as intended, a given slug is kept. */
  function SaveNew(v: Version, data: Article, used: set<string>, active: set<CategoryModel.Id>, now: int): (r: Result<Article, ArticleHooks.SaveError>)
    ensures r.Ok? ==> r.value.categories == data.categories && r.value.author == data.author && r.value.slug !in used
    ensures v == AsWritten && data.title != "" && ArticleHooks.AllActive(data.categories, active) ==> r.Ok?
  {
    if v == AsWritten then ArticleHooks.PreSaveNew(data, used, active, now)
    else ArticleHooks.PreSaveNewKeepingSlug(data, used, active, now)
  }

  /** The article `Article.create` stores, or the status of the refusal:
      the checks, the validators, then the pre-save chain. */
  function Created(v: Version, articles: Articles, categories: Categories, input: ArticleInput,
                   user: RequestUser, now: int): (r: Result<Article, int>)
    ensures r.Err? ==> r.error in {400, 500}
    ensures r.Err? && r.error == 500 <==> CreateChecks(articles, categories, input, user, now).Err? &&
                                          CreateChecks(articles, categories, input, user, now).error == 500
    ensures CreateChecks(articles, categories, input, user, now).Err? ==> r.Err?
    ensures v == AsWritten ==> (r.Err? <==> CreateChecks(articles, categories, input, user, now).Err?)
    ensures r.Ok? ==> input.categories.Items? && r.value.categories == ObjectIdKeys(Dedup(input.categories.items)) &&
                      r.value.author == user.id && r.value.slug !in Slugs(articles) &&
                      forall c :: c in r.value.categories ==> c in ActiveIds(categories)
  {
    match CreateChecks(articles, categories, input, user, now)
    case Err(code) => Err(code)
    case Ok(data) =>
      match SaveNew(v, data, Slugs(articles), ActiveIds(categories), now)
      case Err(_) => Err(400)
      case Ok(b) => Ok(b)
  }

  /** `createArticle`: the article stored under the new id, and +1 for
      each distinct category it lists (lines 363-369). */
  function CreateArticle(v: Version, articles: Articles, categories: Categories, input: ArticleInput,
                         user: RequestUser, newId: ArticleModel.Id, now: int): (r: Outcome)
    requires newId !in articles
    ensures var c := Created(v, articles, categories, input, user, now);
            (c.Err? ==> r == Outcome(c.error, articles, categories)) &&
            (c.Ok? ==> r == Outcome(201, articles[newId := c.value], Bump(categories, Listed(c.value.categories), 1)))
  {
    match Created(v, articles, categories, input, user, now)
    case Err(code) => Outcome(code, articles, categories)
    case Ok(b) => Outcome(201, articles[newId := b], Bump(categories, Listed(b.categories), 1))
  }

  /** Creating keeps every counter equal to the number of articles listing
      its category. */
  lemma CreateKeepsConsistent(v: Version, articles: Articles, categories: Categories, input: ArticleInput,
                              user: RequestUser, newId: ArticleModel.Id, now: int)
    requires newId !in articles && Consistent(articles, categories)
    ensures var r := CreateArticle(v, articles, categories, input, user, newId, now);
            Consistent(r.articles, r.categories)
  {
    var c := Created(v, articles, categories, input, user, now);
    if c.Ok? {
      InsertKeepsConsistent(articles, categories, newId, c.value);
    }
  }

  /** The slug given on creation is lost as written: a free, well-formed
      slug that differs from the one generated from the title is replaced
      by the generated one, while the intended chain stores it. */
  lemma CreateSlugReplaced(articles: Articles, categories: Categories, input: ArticleInput,
                           user: RequestUser, now: int)
    requires CreateChecks(articles, categories, input, user, now).Ok?
    requires Truthy(input.slug) && Slug.ValidSlug(input.slug.value)
    requires input.slug.value != Slug.UniqueSlug(Trim(input.title.value), Slugs(articles))
    ensures Created(AsWritten, articles, categories, input, user, now).Ok?
    ensures Created(AsWritten, articles, categories, input, user, now).value.slug ==
            Slug.UniqueSlug(Trim(input.title.value), Slugs(articles))
    ensures Created(Intended, articles, categories, input, user, now).Ok?
    ensures Created(Intended, articles, categories, input, user, now).value.slug == input.slug.value
  {
    var data := CreateChecks(articles, categories, input, user, now).value;
    ArticleHooks.ValidSlugNormal(input.slug.value);
    CreatedSlug(AsWritten, articles, categories, input, user, now, data);
    CreatedSlug(Intended, articles, categories, input, user, now, data);
  }

  /** The stored slug of each version, for a document that passed the
      checks with a well-formed slug of its own. */
  lemma CreatedSlug(v: Version, articles: Articles, categories: Categories, input: ArticleInput,
                    user: RequestUser, now: int, data: Article)
    requires CreateChecks(articles, categories, input, user, now) == Ok(data)
    requires Truthy(input.slug) && data.slug == input.slug.value
    ensures Created(v, articles, categories, input, user, now).Ok?
    ensures v == AsWritten ==> Created(v, articles, categories, input, user, now).value.slug ==
                               Slug.UniqueSlug(Trim(input.title.value), Slugs(articles))
    ensures v == Intended ==> Created(v, articles, categories, input, user, now).value.slug == input.slug.value
  {
    var used, active := Slugs(articles), ActiveIds(categories);
    assert data.title == Trim(input.title.value) && data.title != "";
    var saved := SaveNew(v, data, used, active, now);
    if v == AsWritten {
      assert saved.Ok? && saved.value.slug == Slug.UniqueSlug(data.title, used);
    } else {
      assert Trim(Lower(data.slug)) == data.slug;
      assert saved.Ok? && saved.value.slug == data.slug;
    }
    assert Created(v, articles, categories, input, user, now) == Ok(saved.value);
  }

  // ---------------------------------------------------------------------
  // updateArticle
  // ---------------------------------------------------------------------

  /** The new category list, when the body brings one: the ObjectIds
      its de-duplicated ids cast to when `updateData.categories` is
      saved. */
  function NewCategories(input: ArticleInput): Option<seq<CategoryModel.Id>> {
    if input.categories.Items? then Some(ObjectIdKeys(Dedup(input.categories.items))) else None
  }

  /** Lines 538-557: −1 for each category only the old list has, +1 for
      each only the new list has.  The handler compares the body's ids
      with the stored ones as text, so a kept category re-sent with
      upper-case digits is decremented and incremented again: the same
      counters as leaving it alone. */
  function Moved(categories: Categories, before: seq<CategoryModel.Id>, after: seq<CategoryModel.Id>): Categories {
    Bump(Bump(categories, Listed(before) - Listed(after), -1), Listed(after) - Listed(before), 1)
  }

  /** A request slug that differs from the article's and is held by another
      article (lines 561-580); the lookup's filter goes through the slug's
      setters, so it is lower-cased and trimmed. */
  predicate SlugClash(articles: Articles, id: ArticleModel.Id, input: ArticleInput)
    requires id in articles
  {
    input.slug.Some? && Trim(input.slug.value) != articles[id].slug &&
    Trim(Lower(input.slug.value)) in OtherSlugs(articles, id)
  }

  /** The slug `updateData` carries: a changed request slug, else the one
      generated from a changed title when no slug was sent. */
  function UpdateSlug(articles: Articles, id: ArticleModel.Id, input: ArticleInput): (r: Option<string>)
    requires id in articles
    ensures input.slug.Some? ==> r == (if Trim(input.slug.value) != articles[id].slug then Some(Trim(input.slug.value)) else None)
    ensures input.slug.None? && Truthy(input.title) && Trim(input.title.value) != articles[id].title ==>
              r == Some(Slug.UniqueSlug(input.title.value, OtherSlugs(articles, id)))
  {
    var a := articles[id];
    if input.slug.Some? then
      if Trim(input.slug.value) != a.slug then Some(Trim(input.slug.value)) else None
    else if Truthy(input.title) && Trim(input.title.value) != a.title then
      Some(Slug.UniqueSlug(input.title.value, OtherSlugs(articles, id)))
    else None
  }

  /** Lines 590-596: publishing a non-published article dates it now, any
      other status clears the date, re-publishing leaves it alone. */
  function UpdateDate(a: Article, input: ArticleInput, now: int): (r: Option<Option<int>>)
    ensures input.status == Some(Published) && a.status != Published ==> r == Some(Some(now))
    ensures input.status.Some? && input.status.value != Published ==> r == Some(None)
    ensures input.status.None? || (input.status == Some(Published) && a.status == Published) ==> r.None?
  {
    if input.status.None? then None
    else if input.status.value == Published && a.status != Published then Some(Some(now))
    else if input.status.value != Published then Some(None)
    else None
  }

  /** `updateData` (lines 491-599): each field the body defines, trimmed
      where the handler trims it. */
  function UpdateData(articles: Articles, id: ArticleModel.Id, input: ArticleInput, user: RequestUser, now: int): (u: ArticleHooks.ArticleUpdate)
    requires id in articles
    ensures u.categories == NewCategories(input) && u.status == input.status
    ensures u.slug == UpdateSlug(articles, id, input)
    ensures u.publishedAt == UpdateDate(articles[id], input, now)
    ensures u.updatedBy == Some(user.id)
  {
    ArticleHooks.ArticleUpdate(
      title := if input.title.Some? then Some(Trim(input.title.value)) else None,
      slug := UpdateSlug(articles, id, input),
      content := if input.content.Some? then Some(Trim(input.content.value)) else None,
      excerpt := if input.excerpt.Some? then Some(Trim(input.excerpt.value)) else None,
      featuredImage := input.featuredImage, status := input.status,
      metaTitle := if input.metaTitle.Some? then Some(Trim(input.metaTitle.value)) else None,
      metaDescription := if input.metaDescription.Some? then Some(Trim(input.metaDescription.value)) else None,
      keywords := if input.keywords.Absent? then None else Some(KeptEntries(input.keywords)),
      tags := if input.tags.Absent? then None else Some(KeptEntries(input.tags)),
      featured := input.featured, allowComments := input.allowComments,
      sortOrder := if input.sortOrder.Undefined? then None else Some(ParseIntOr(input.sortOrder, 0)),
      categories := NewCategories(input), publishedAt := UpdateDate(articles[id], input, now),
      readingTime := None, updatedBy := Some(user.id), updatedAt := None)
  }

  /** A category list that is sent but not a non-empty array (lines
      509-517). */
  predicate BadCategories(input: ArticleInput) {
    input.categories.NotArray? || (input.categories.Items? && |input.categories.items| == 0)
  }

  /** The checks before the counters move (lines 458-535): 0 when all
      pass, else the status of the refusal.  The article is the one the
      id casts to, in whatever case its hex digits are written.  An id, or
      a category id of the body, that is no ObjectId makes `findById`
      (line 458) or the `$in` filter (lines 525-528) throw, and the catch
      block answers 500. */
  function UpdatePreChecks(v: Version, articles: Articles, categories: Categories, id: ArticleModel.Id,
                           input: ArticleInput, user: RequestUser): (code: int)
    ensures !ObjectIdText(id) ==> code == 500
    ensures ObjectIdText(id) && ObjectIdKey(id) !in articles ==> code == 404
    ensures ObjectIdText(id) && ObjectIdKey(id) in articles && EditGate(v, articles[ObjectIdKey(id)], user) != Allow ==>
              code == GateCode(EditGate(v, articles[ObjectIdKey(id)], user))
    ensures (ObjectIdText(id) && ObjectIdKey(id) in articles && EditGate(v, articles[ObjectIdKey(id)], user) == Allow &&
             BadCategories(input)) ==> code == 400
    ensures (ObjectIdText(id) && ObjectIdKey(id) in articles && EditGate(v, articles[ObjectIdKey(id)], user) == Allow &&
             !BadCategories(input) && input.categories.Items? && !ObjectIdTexts(input.categories.items)) ==> code == 500
    ensures code == 0 <==> ObjectIdText(id) && ObjectIdKey(id) in articles &&
                           EditGate(v, articles[ObjectIdKey(id)], user) == Allow && !BadCategories(input) &&
                           (NewCategories(input).Some? ==>
                              ObjectIdTexts(input.categories.items) &&
                              ArticleHooks.AllActive(NewCategories(input).value, ActiveIds(categories)) &&
                              NoDup(NewCategories(input).value))
  {
    if !ObjectIdText(id) then 500
    else if ObjectIdKey(id) !in articles then 404
    else
      var gate := EditGate(v, articles[ObjectIdKey(id)], user);
      if gate != Allow then GateCode(gate)
      else if BadCategories(input) then 400
      else if input.categories.Items? && !ObjectIdTexts(input.categories.items) then 500
      else if input.categories.Items? && !CategoriesFound(Dedup(input.categories.items), ActiveIds(categories)) then
        CategoriesFoundIff(Dedup(input.categories.items), ActiveIds(categories));
        400
      else
        if input.categories.Items? then CategoriesFoundIff(Dedup(input.categories.items), ActiveIds(categories)); 0
        else 0
  }

  /** The update hook of the version: as written it regenerates the slug
      from any title and re-dates any 'published' status; as intended it
      leaves both to the handler. */
  function Hook(v: Version, u: ArticleHooks.ArticleUpdate, others: set<string>, now: int): (r: Result<ArticleHooks.ArticleUpdate, ArticleHooks.SaveError>)
    ensures r.Ok? ==> r.value.categories == u.categories && r.value.status == u.status
    ensures v == Intended && r.Ok? ==> r.value.publishedAt == u.publishedAt
    ensures v == AsWritten && r.Ok? && u.status == Some(Published) && u.publishedAt.None? ==> r.value.publishedAt == Some(Some(now))
    ensures v == AsWritten && r.Ok? && u.status == Some(Published) && u.publishedAt.Some? && u.publishedAt.value.Some? ==>
              r.value.publishedAt == u.publishedAt
  {
    if v == AsWritten then ArticleHooks.UpdateHookAsWritten(u, others, now) else ArticleHooks.UpdateHook(u, others, now)
  }

  /** The steps after the counters move (lines 561-609): the slug check,
      then `findByIdAndUpdate` with its hook and the validators.  Either the
      stored article or the status of the refusal; a hook refusal gets no
      response as written. */
  function Updated(v: Version, articles: Articles, id: ArticleModel.Id, input: ArticleInput,
                   user: RequestUser, now: int): (r: Result<Article, int>)
    requires id in articles
    ensures SlugClash(articles, id, input) ==> r == Err(400)
    ensures r.Err? ==> r.error == (if v == AsWritten then NoResponse else 400) || r.error == 400
    ensures r.Ok? ==> ArticleValid(Cast(r.value)) && r.value.author == articles[id].author
    ensures r.Ok? ==> r.value.categories == NewCategories(input).GetOr(articles[id].categories)
    ensures r.Ok? && input.status.Some? ==> r.value.status == input.status.value
    ensures r.Ok? && v == AsWritten && input.status == Some(Published) ==> r.value.publishedAt == Some(now)
    ensures r.Ok? && v == Intended ==> r.value.publishedAt == UpdateDate(articles[id], input, now).GetOr(articles[id].publishedAt)
  {
    if SlugClash(articles, id, input) then Err(400)
    else
      var u := UpdateData(articles, id, input, user, now);
      match Hook(v, u, OtherSlugs(articles, id), now)
      case Err(_) => Err(if v == AsWritten then NoResponse else 400)
      case Ok(h) =>
        var b := ArticleHooks.Apply(articles[id], h);
        if ArticleValid(Cast(b)) then Ok(b) else Err(400)
  }

  /** `updateArticle` as written.  The category counters move right after
      the category checks, before the slug check, the hook and the
      validators, so a request any of these refuse leaves the counters
      moved while the article keeps its old categories. */
  function UpdateArticleAsWritten(articles: Articles, categories: Categories, id: ArticleModel.Id,
                                  input: ArticleInput, user: RequestUser, now: int): (r: Outcome)
    ensures var pre, key := UpdatePreChecks(AsWritten, articles, categories, id, input, user), ObjectIdKey(id);
            (pre != 0 ==> r == Outcome(pre, articles, categories)) &&
            (pre == 0 ==> var counted := if NewCategories(input).Some?
                                         then Moved(categories, articles[key].categories, NewCategories(input).value)
                                         else categories;
                          var u := Updated(AsWritten, articles, key, input, user, now);
                          r == if u.Ok? then Outcome(200, articles[key := u.value], counted)
                               else Outcome(u.error, articles, counted))
  {
    var pre, key := UpdatePreChecks(AsWritten, articles, categories, id, input, user), ObjectIdKey(id);
    if pre != 0 then Outcome(pre, articles, categories)
    else
      var cats := NewCategories(input);
      var counted := if cats.Some? then Moved(categories, articles[key].categories, cats.value) else categories;
      match Updated(AsWritten, articles, key, input, user, now)
      case Err(code) => Outcome(code, articles, counted)
      case Ok(b) => Outcome(200, articles[key := b], counted)
  }

  /** `updateArticle` as evidently intended: every check first, the
      corrected hook, and the counters moved only together with the
      article. */
  function UpdateArticle(articles: Articles, categories: Categories, id: ArticleModel.Id,
                         input: ArticleInput, user: RequestUser, now: int): (r: Outcome)
    ensures var pre, key := UpdatePreChecks(Intended, articles, categories, id, input, user), ObjectIdKey(id);
            (pre != 0 ==> r == Outcome(pre, articles, categories)) &&
            (pre == 0 ==> var u := Updated(Intended, articles, key, input, user, now);
                          r == if u.Ok? then Outcome(200, articles[key := u.value], Moved(categories, articles[key].categories, u.value.categories))
                               else Outcome(u.error, articles, categories))
  {
    var pre, key := UpdatePreChecks(Intended, articles, categories, id, input, user), ObjectIdKey(id);
    if pre != 0 then Outcome(pre, articles, categories)
    else
      match Updated(Intended, articles, key, input, user, now)
      case Err(code) => Outcome(code, articles, categories)
      case Ok(b) => Outcome(200, articles[key := b], Moved(categories, articles[key].categories, b.categories))
  }

  /** Re-sending the status 'published' of a published article re-dates
      it as written; as intended its date is kept. */
  lemma RepublishRedates(articles: Articles, id: ArticleModel.Id, input: ArticleInput, user: RequestUser, now: int)
    requires id in articles && articles[id].status == Published && input.status == Some(Published)
    ensures var u := Updated(AsWritten, articles, id, input, user, now);
            u.Ok? ==> u.value.publishedAt == Some(now)
    ensures var u := Updated(Intended, articles, id, input, user, now);
            u.Ok? ==> u.value.publishedAt == articles[id].publishedAt
  {
  }

  /** Moving the counters to an unchanged category list changes nothing. */
  lemma MovedSame(categories: Categories, cats: seq<CategoryModel.Id>)
    ensures Moved(categories, cats, cats) == categories
  {
    assert Listed(cats) - Listed(cats) == {};
    BumpTwice(categories, {}, -1, 1);
    BumpZero(categories, {});
  }

  /** The intended update keeps every counter right. */
  lemma UpdateKeepsConsistent(articles: Articles, categories: Categories, id: ArticleModel.Id,
                              input: ArticleInput, user: RequestUser, now: int)
    requires Consistent(articles, categories)
    ensures var r := UpdateArticle(articles, categories, id, input, user, now);
            Consistent(r.articles, r.categories)
  {
    if UpdatePreChecks(Intended, articles, categories, id, input, user) == 0 {
      var u := Updated(Intended, articles, ObjectIdKey(id), input, user, now);
      if u.Ok? {
        assert forall c :: c in u.value.categories ==> c in categories;
        ReplaceKeepsConsistent(articles, categories, ObjectIdKey(id), u.value);
      }
    }
  }

  /** The drift as written: an update that moves an article out of
      category `c` and is then refused for its slug leaves the article in
      `c` but `c`'s counter one lower than the number of articles listing
      it. */
  lemma UpdateRefusedAfterCounting(articles: Articles, categories: Categories, id: ArticleModel.Id,
                                   input: ArticleInput, user: RequestUser, now: int, c: CategoryModel.Id)
    requires Consistent(articles, categories) && ObjectIdText(id) && ObjectIdKey(id) in articles
    requires user.role == Admin
    requires input.categories.Items? && |input.categories.items| > 0
    requires ObjectIdTexts(input.categories.items)
    requires ArticleHooks.AllActive(ObjectIdKeys(input.categories.items), ActiveIds(categories))
    requires NoDup(ObjectIdKeys(Dedup(input.categories.items)))
    requires c in articles[ObjectIdKey(id)].categories && c !in ObjectIdKeys(input.categories.items)
    requires SlugClash(articles, ObjectIdKey(id), input)
    ensures var o := UpdateArticleAsWritten(articles, categories, id, input, user, now);
            o.code == 400 && o.articles == articles &&
            c in o.categories && o.categories[c].articleCount == Count(articles, c) - 1
    ensures UpdateArticle(articles, categories, id, input, user, now) == Outcome(400, articles, categories)
  {
    AdminPassesPreChecks(AsWritten, articles, categories, id, input, user);
    AdminPassesPreChecks(Intended, articles, categories, id, input, user);
    SlugClashRefused(AsWritten, articles, ObjectIdKey(id), input, user, now);
    SlugClashRefused(Intended, articles, ObjectIdKey(id), input, user, now);
    RefusedAfterCounting(articles, categories, id, input, user, now);
    RefusedBeforeCounting(articles, categories, id, input, user, now);
    KeysOfDedup(input.categories.items);
    MovedOutDrops(articles, categories, ObjectIdKey(id), NewCategories(input).value, c);
  }

  /** An administrator's update to an existing article, with a non-empty
      list of active categories no two of whose ids name the same one,
      passes the checks before the save. */
  lemma AdminPassesPreChecks(v: Version, articles: Articles, categories: Categories, id: ArticleModel.Id,
                             input: ArticleInput, user: RequestUser)
    requires ObjectIdText(id) && ObjectIdKey(id) in articles && user.role == Admin
    requires input.categories.Items? && |input.categories.items| > 0
    requires ObjectIdTexts(input.categories.items)
    requires ArticleHooks.AllActive(ObjectIdKeys(input.categories.items), ActiveIds(categories))
    requires NoDup(ObjectIdKeys(Dedup(input.categories.items)))
    ensures UpdatePreChecks(v, articles, categories, id, input, user) == 0
  {
    KeysOfDedup(input.categories.items);
  }

  /** As written, an update refused by its save still leaves the counters
      moved. */
  lemma RefusedAfterCounting(articles: Articles, categories: Categories, id: ArticleModel.Id,
                             input: ArticleInput, user: RequestUser, now: int)
    requires UpdatePreChecks(AsWritten, articles, categories, id, input, user) == 0
    requires input.categories.Items?
    requires Updated(AsWritten, articles, ObjectIdKey(id), input, user, now) == Err(400)
    ensures UpdateArticleAsWritten(articles, categories, id, input, user, now) ==
            Outcome(400, articles, Moved(categories, articles[ObjectIdKey(id)].categories, NewCategories(input).value))
  {
  }

  /** As intended, an update refused by its save changes nothing. */
  lemma RefusedBeforeCounting(articles: Articles, categories: Categories, id: ArticleModel.Id,
                              input: ArticleInput, user: RequestUser, now: int)
    requires UpdatePreChecks(Intended, articles, categories, id, input, user) == 0
    requires Updated(Intended, articles, ObjectIdKey(id), input, user, now) == Err(400)
    ensures UpdateArticle(articles, categories, id, input, user, now) == Outcome(400, articles, categories)
  {
  }

  /** A request slug held by another article refuses the update with 400. */
  lemma SlugClashRefused(v: Version, articles: Articles, id: ArticleModel.Id, input: ArticleInput,
                         user: RequestUser, now: int)
    requires id in articles && SlugClash(articles, id, input)
    ensures Updated(v, articles, id, input, user, now) == Err(400)
  {
  }

  /** Moving an article out of a category lowers that category's counter
      to one less than the number of articles listing it. */
  lemma MovedOutDrops(articles: Articles, categories: Categories, id: ArticleModel.Id,
                      cats: seq<CategoryModel.Id>, c: CategoryModel.Id)
    requires Consistent(articles, categories) && id in articles
    requires c in articles[id].categories && c !in cats
    ensures c in Moved(categories, articles[id].categories, cats)
    ensures Moved(categories, articles[id].categories, cats)[c].articleCount == Count(articles, c) - 1
  {
    assert c in categories;
    assert c in Listed(articles[id].categories) - Listed(cats);
    assert c !in Listed(cats) - Listed(articles[id].categories);
  }

  // ---------------------------------------------------------------------
  // deleteArticle
  // ---------------------------------------------------------------------

  /** How often each category of a deleted article is decremented: once by
      each of the two pre-`findOneAndDelete` hooks and once by the handler
      as written; once as intended. */
  function Decrements(v: Version): int {
    if v == AsWritten then 3 else 1
  }

  /** `deleteArticle`: the lookup, the permission check, the removal and
      the decrements.  An id that is no ObjectId makes `findById` (line
      679) throw, and the catch block answers 500. */
  function DeleteArticle(v: Version, articles: Articles, categories: Categories,
                         id: ArticleModel.Id, user: RequestUser): (r: Outcome)
    ensures !ObjectIdText(id) ==> r == Outcome(500, articles, categories)
    ensures ObjectIdText(id) && ObjectIdKey(id) !in articles ==> r == Outcome(404, articles, categories)
    ensures ObjectIdText(id) && ObjectIdKey(id) in articles && DeleteGate(v, articles[ObjectIdKey(id)], user) != Allow ==>
              r == Outcome(GateCode(DeleteGate(v, articles[ObjectIdKey(id)], user)), articles, categories)
    ensures ObjectIdText(id) && ObjectIdKey(id) in articles && DeleteGate(v, articles[ObjectIdKey(id)], user) == Allow ==>
              r == Outcome(200, articles - {ObjectIdKey(id)}, Bump(categories, Listed(articles[ObjectIdKey(id)].categories), -Decrements(v)))
  {
    if !ObjectIdText(id) then Outcome(500, articles, categories)
    else if ObjectIdKey(id) !in articles then Outcome(404, articles, categories)
    else
      var a := articles[ObjectIdKey(id)];
      var gate := DeleteGate(v, a, user);
      if gate != Allow then Outcome(GateCode(gate), articles, categories)
      else Outcome(200, articles - {ObjectIdKey(id)}, DeleteCounters(v, categories, a.categories))
  }

  /** The counters after a deletion: as written, the two delete hooks and
      then (for an article with categories) the handler's own decrement;
      as intended, the one decrement.  Either way, one adjustment of the
      article's categories by the number of decrements. */
  function DeleteCounters(v: Version, categories: Categories, cats: seq<CategoryModel.Id>): (r: Categories)
    ensures r == Bump(categories, Listed(cats), -Decrements(v))
  {
    var ids := Listed(cats);
    var hooks := Bump(Bump(categories, ids, -1), ids, -1);
    if v == AsWritten && |cats| > 0 then
      ThreeDecrements(categories, ids);
      Bump(hooks, ids, -1)
    else if v == AsWritten then
      assert ids == {};
      BumpNothing(categories, -1);
      BumpNothing(categories, -3);
      hooks
    else Bump(categories, ids, -1)
  }

  /** The two hooks' decrements and the handler's add up to one
      adjustment by -3. */
  lemma ThreeDecrements(categories: Categories, ids: set<CategoryModel.Id>)
    ensures Bump(Bump(Bump(categories, ids, -1), ids, -1), ids, -1) == Bump(categories, ids, -3)
  {
    BumpTwice(categories, ids, -1, -1);
    BumpTwice(categories, ids, -2, -1);
  }

  /** The intended deletion keeps every counter right. */
  lemma DeleteKeepsConsistent(articles: Articles, categories: Categories, id: ArticleModel.Id, user: RequestUser)
    requires Consistent(articles, categories)
    ensures var r := DeleteArticle(Intended, articles, categories, id, user);
            Consistent(r.articles, r.categories)
  {
    if ObjectIdText(id) && ObjectIdKey(id) in articles && DeleteGate(Intended, articles[ObjectIdKey(id)], user) == Allow {
      RemoveKeepsConsistent(articles, categories, ObjectIdKey(id));
    }
  }

  /** The drift as written: after an admin deletes an article, each of its
      categories counts two articles fewer than list it. */
  lemma DeleteCountsThrice(articles: Articles, categories: Categories, id: ArticleModel.Id,
                           user: RequestUser, c: CategoryModel.Id)
    requires Consistent(articles, categories) && ObjectIdText(id) && ObjectIdKey(id) in articles && user.role == Admin
    requires c in articles[ObjectIdKey(id)].categories
    ensures var r := DeleteArticle(AsWritten, articles, categories, id, user);
            r.code == 200 && r.categories[c].articleCount == Count(r.articles, c) - 2
  {
    CountRemove(articles, ObjectIdKey(id), c);
  }

  // ---------------------------------------------------------------------
  // publish.js
  // ---------------------------------------------------------------------

  /** `publishArticle`: lookup, permission check, `publish()` whose save
      runs the validators (a failure lands in the catch block: 500).  An id
      that is no ObjectId makes `findById` (line 10) throw: 500 too. */
  function PublishArticle(v: Version, articles: Articles, id: ArticleModel.Id, user: RequestUser, now: int): (r: (int, Articles))
    ensures !ObjectIdText(id) ==> r == (500, articles)
    ensures ObjectIdText(id) && ObjectIdKey(id) !in articles ==> r == (404, articles)
    ensures ObjectIdText(id) && ObjectIdKey(id) in articles && EditGate(v, articles[ObjectIdKey(id)], user) != Allow ==>
              r == (GateCode(EditGate(v, articles[ObjectIdKey(id)], user)), articles)
    ensures r.0 == 200 <==> ObjectIdText(id) && ObjectIdKey(id) in articles && EditGate(v, articles[ObjectIdKey(id)], user) == Allow &&
                            ArticleValid(AfterPublish(articles[ObjectIdKey(id)], now))
    ensures r.0 == 200 ==> r.1 == articles[ObjectIdKey(id) := AfterPublish(articles[ObjectIdKey(id)], now)] &&
                           r.1[ObjectIdKey(id)].status == Published && r.1[ObjectIdKey(id)].publishedAt == Some(now)
    ensures r.0 != 200 ==> r.1 == articles
  {
    if !ObjectIdText(id) then (500, articles)
    else if ObjectIdKey(id) !in articles then (404, articles)
    else
      var gate := EditGate(v, articles[ObjectIdKey(id)], user);
      if gate != Allow then (GateCode(gate), articles)
      else
        var b := AfterPublish(articles[ObjectIdKey(id)], now);
        if ArticleValid(b) then (200, articles[ObjectIdKey(id) := b]) else (500, articles)
  }

  /** A stored article that meets the schema can always be published by
      whoever may edit it. */
  lemma PublishValidSucceeds(articles: Articles, id: ArticleModel.Id, user: RequestUser, now: int)
    requires ObjectIdText(id) && ObjectIdKey(id) in articles && ArticleValid(articles[ObjectIdKey(id)]) && CanBeEditedBy(articles[ObjectIdKey(id)], Some(user))
    ensures PublishArticle(Intended, articles, id, user, now).0 == 200
  {
    PublishKeepsValid(articles[ObjectIdKey(id)], now);
  }

  /** `unpublishArticle`: as publish, but saved without validation; a
      malformed id makes `findById` (line 71) throw: 500. */
  function UnpublishArticle(v: Version, articles: Articles, id: ArticleModel.Id, user: RequestUser): (r: (int, Articles))
    ensures !ObjectIdText(id) ==> r == (500, articles)
    ensures ObjectIdText(id) && ObjectIdKey(id) !in articles ==> r == (404, articles)
    ensures ObjectIdText(id) && ObjectIdKey(id) in articles && EditGate(v, articles[ObjectIdKey(id)], user) != Allow ==>
              r == (GateCode(EditGate(v, articles[ObjectIdKey(id)], user)), articles)
    ensures r.0 == 200 <==> ObjectIdText(id) && ObjectIdKey(id) in articles && EditGate(v, articles[ObjectIdKey(id)], user) == Allow
    ensures r.0 == 200 ==> r.1 == articles[ObjectIdKey(id) := AfterUnpublish(articles[ObjectIdKey(id)])] &&
                           r.1[ObjectIdKey(id)].status == Draft && r.1[ObjectIdKey(id)].publishedAt.None?
    ensures r.0 != 200 ==> r.1 == articles
  {
    if !ObjectIdText(id) then (500, articles)
    else if ObjectIdKey(id) !in articles then (404, articles)
    else
      var gate := EditGate(v, articles[ObjectIdKey(id)], user);
      if gate != Allow then (GateCode(gate), articles)
      else (200, articles[ObjectIdKey(id) := AfterUnpublish(articles[ObjectIdKey(id)])])
  }

  /** Two article collections with the same ids and the same category
      lists count the same articles for every category. */
  lemma SameListsSameCounts(p: Articles, q: Articles, c: CategoryModel.Id)
    requires p.Keys == q.Keys && forall a :: a in p ==> p[a].categories == q[a].categories
    ensures Count(p, c) == Count(q, c)
  {
    assert Holders(p, c) == Holders(q, c);
  }

  /** Publishing and unpublishing leave the category counters alone and
      the categories of every article unchanged, so they keep the store
      consistent. */
  lemma PublishKeepsConsistent(v: Version, articles: Articles, categories: Categories, id: ArticleModel.Id,
                               user: RequestUser, now: int)
    requires Consistent(articles, categories)
    ensures Consistent(PublishArticle(v, articles, id, user, now).1, categories)
    ensures Consistent(UnpublishArticle(v, articles, id, user).1, categories)
  {
    if PublishArticle(v, articles, id, user, now).0 == 200 {
      SameListsKeepConsistent(articles, categories, ObjectIdKey(id), AfterPublish(articles[ObjectIdKey(id)], now));
    }
    if UnpublishArticle(v, articles, id, user).0 == 200 {
      SameListsKeepConsistent(articles, categories, ObjectIdKey(id), AfterUnpublish(articles[ObjectIdKey(id)]));
    }
  }

  /** Replacing an article by one that lists the same categories keeps the
      store consistent. */
  lemma SameListsKeepConsistent(articles: Articles, categories: Categories, id: ArticleModel.Id, b: Article)
    requires Consistent(articles, categories) && id in articles && b.categories == articles[id].categories
    ensures Consistent(articles[id := b], categories)
  {
    var after := articles[id := b];
    assert after.Keys == articles.Keys;
    forall c | c in categories
      ensures categories[c].articleCount == Count(after, c)
    {
      SameListsSameCounts(after, articles, c);
    }
  }

  /** For a non-admin caller, every handler guarded by `canBeEditedBy` or
      `canBeDeletedBy` answers 500 as written on any article with an
      author, whoever that author is. */
  lemma NonAdminsGet500(articles: Articles, categories: Categories, id: ArticleModel.Id,
                        input: ArticleInput, user: RequestUser, now: int)
    requires ObjectIdKey(id) in articles && articles[ObjectIdKey(id)].author != "" && user.role != Admin
    ensures UpdateArticleAsWritten(articles, categories, id, input, user, now).code == 500
    ensures DeleteArticle(AsWritten, articles, categories, id, user).code == 500
    ensures PublishArticle(AsWritten, articles, id, user, now).0 == 500
    ensures UnpublishArticle(AsWritten, articles, id, user).0 == 500
  {
  }

  /** An id that is no ObjectId never reaches a lookup: every article
      handler that calls `findById` with it answers 500 from its catch
      block and changes nothing, where a well-formed id that names no
      article answers 404. */
  lemma MalformedIdIs500(v: Version, articles: Articles, categories: Categories, id: string,
                         input: ArticleInput, user: RequestUser, now: int)
    requires !ObjectIdText(id)
    ensures UpdateArticleAsWritten(articles, categories, id, input, user, now) == Outcome(500, articles, categories)
    ensures UpdateArticle(articles, categories, id, input, user, now) == Outcome(500, articles, categories)
    ensures DeleteArticle(v, articles, categories, id, user) == Outcome(500, articles, categories)
    ensures PublishArticle(v, articles, id, user, now) == (500, articles)
    ensures UnpublishArticle(v, articles, id, user) == (500, articles)
  {
  }

  /** Only the ObjectId an id casts to matters: every spelling of one id
      that differs in the case of its hex digits gets the same reply, and
      leaves the same store, as the stored, lower-case one. */
  lemma {:induction false} AnySpellingOfId(v: Version, articles: Articles, categories: Categories, id: string,
                                           user: RequestUser, now: int)
    requires ObjectIdText(id)
    ensures DeleteArticle(v, articles, categories, id, user) == DeleteArticle(v, articles, categories, ObjectIdKey(id), user)
    ensures PublishArticle(v, articles, id, user, now) == PublishArticle(v, articles, ObjectIdKey(id), user, now)
    ensures UnpublishArticle(v, articles, id, user) == UnpublishArticle(v, articles, ObjectIdKey(id), user)
  {
    CanonicalIdIsKey(ObjectIdKey(id));
  }

  /** The same for the update handler, as written and as intended. */
  lemma {:induction false} AnySpellingOfIdUpdates(articles: Articles, categories: Categories, id: string,
                                                  input: ArticleInput, user: RequestUser, now: int)
    requires ObjectIdText(id)
    ensures UpdateArticleAsWritten(articles, categories, id, input, user, now) ==
            UpdateArticleAsWritten(articles, categories, ObjectIdKey(id), input, user, now)
    ensures UpdateArticle(articles, categories, id, input, user, now) ==
            UpdateArticle(articles, categories, ObjectIdKey(id), input, user, now)
  {
    var key := ObjectIdKey(id);
    CanonicalIdIsKey(key);
    assert UpdatePreChecks(AsWritten, articles, categories, id, input, user) ==
           UpdatePreChecks(AsWritten, articles, categories, key, input, user);
    assert UpdatePreChecks(Intended, articles, categories, id, input, user) ==
           UpdatePreChecks(Intended, articles, categories, key, input, user);
  }
}

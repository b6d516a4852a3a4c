/** The category handlers that change the store (createCategory,
    updateCategory and deleteCategory of src/controllers/category/crud.js)
    as functions from the categories before the request to the status code
    and the categories after it.  The create handler comes as written and
    as evidently intended: `Version` selects whether the first save hook
    treats the new document as new, which decides whether a slug given in
    the request survives. */
module CategoryController {
  import opened Wrappers
  import opened Js
  import opened Principal
  import opened CategoryModel
  import Slug
  import ArticleModel
  import ArticleHooks
  import opened ContentStore
  import opened ArticleController
  import opened Responses
  import opened Patterns

  /** The request body of create and update.  A text field is None when it
      is undefined; `sortOrder` is the raw value. */
  datatype CategoryInput = CategoryInput(
    name: Option<string>, slug: Option<string>, description: Option<string>, status: Option<string>,
    metaTitle: Option<string>, metaDescription: Option<string>, sortOrder: Value,
    color: Option<string>, icon: Option<string>)

  /** The response status and the categories afterwards. */
  datatype Reply = Reply(code: int, categories: Categories)

  /** The slugs of all categories. */
  function CategorySlugs(categories: Categories): set<string> {
    set c | c in categories :: categories[c].slug
  }

  /** The slugs of the categories other than `id`. */
  function OtherCategorySlugs(categories: Categories, id: CategoryModel.Id): set<string> {
    set c | c in categories && c != id :: categories[c].slug
  }

  // ---------------------------------------------------------------------
  // createCategory
  // ---------------------------------------------------------------------

  /** `categoryData` (lines 189-201) with the destructuring defaults of
      lines 151-161 and the schema's for the rest. */
  function NewCategory(input: CategoryInput, slug: string, user: RequestUser, now: int): (r: Category)
    requires input.name.Some?
    ensures r.name == Trim(input.name.value) && r.slug == slug
    ensures r.status == input.status.GetOr(Active) && r.color == input.color.GetOr(DefaultColor)
    ensures r.articleCount == 0 && r.createdBy == user.id && r.updatedBy == user.id
  {
    Category(
      name := Trim(input.name.value), slug := slug, description := TrimOr(input.description, ""),
      status := input.status.GetOr(Active), metaTitle := TrimOr(input.metaTitle, ""),
      metaDescription := TrimOr(input.metaDescription, ""), sortOrder := ParseIntOr(input.sortOrder, 0),
      color := input.color.GetOr(DefaultColor), icon := TrimOr(input.icon, ""), articleCount := 0,
      createdBy := user.id, updatedBy := user.id, createdAt := Some(now), updatedAt := Some(now))
  }

  /** The `trim` and `lowercase` setters of the slug and the `trim` setter
      of the colour, applied when the document is built. */
  function Cast(c: Category): (r: Category)
    ensures r.slug == Trim(Lower(c.slug)) && r.color == Trim(c.color)
    ensures r.name == c.name && r.status == c.status && r.articleCount == c.articleCount
    ensures r.createdBy == c.createdBy && r.sortOrder == c.sortOrder
  {
    c.(slug := Trim(Lower(c.slug)), color := Trim(c.color))
  }

  /** Every path of a new document counts as modified. */
  const AllDirty := Dirty(true, true, true, true, true, true, true)

  /** The checks of lines 164-186 and the validators of `create`: either
      the validated document or the status of the refusal. */
  function CreateChecks(categories: Categories, input: CategoryInput, user: RequestUser, now: int): (r: Result<Category, int>)
    ensures r.Err? ==> r.error == 400
    ensures input.name.None? || Blank(input.name.value) ==> r.Err?
    ensures ArticleController.Truthy(input.slug) && Trim(Lower(input.slug.value)) in CategorySlugs(categories) ==> r.Err?
    ensures r.Ok? ==> input.name.Some? && !Blank(input.name.value) && CategoryValid(r.value) &&
                      r.value.name == Trim(input.name.value) && r.value.articleCount == 0 &&
                      r.value.status == input.status.GetOr(Active) && r.value.createdBy == user.id
    ensures r.Ok? && ArticleController.Truthy(input.slug) ==> r.value.slug == Trim(Lower(input.slug.value))
    ensures r.Ok? && !ArticleController.Truthy(input.slug) ==>
              r.value.slug == Slug.UniqueSlug(input.name.value, CategorySlugs(categories))
  {
    if input.name.None? || Blank(input.name.value) then Err(400)
    else if ArticleController.Truthy(input.slug) && Trim(Lower(input.slug.value)) in CategorySlugs(categories) then Err(400)
    else
      var used := CategorySlugs(categories);
      var slug := if ArticleController.Truthy(input.slug) then input.slug.value else Slug.UniqueSlug(input.name.value, used);
      Slug.UniqueSlugNormal(input.name.value, used);
      var data := Cast(NewCategory(input, slug, user, now));
      if CategoryValid(data) then Ok(data) else Err(400)
  }

  /** The saved category, or the status of the refusal.  As written the
      first save hook sees a new document and replaces its slug by one
      generated from the name; as intended it generates one only when the
      document has none.  A refusal by the uniqueness hook, which only the
      intended version can meet, answers 400. */
  function Saved(v: Version, categories: Categories, input: CategoryInput, user: RequestUser, now: int): (r: Result<Category, int>)
    ensures r.Err? ==> r.error == 400
    ensures input.name.None? || Blank(input.name.value) ==> r.Err?
    ensures ArticleController.Truthy(input.slug) && Trim(Lower(input.slug.value)) in CategorySlugs(categories) ==> r.Err?
    ensures v == AsWritten ==> (r.Ok? <==> CreateChecks(categories, input, user, now).Ok?)
    ensures r.Ok? ==> input.name.Some? &&
                      r.value.slug !in CategorySlugs(categories) && r.value.articleCount == 0 &&
                      r.value.name == NormalizeName(Trim(input.name.value)) &&
                      r.value.status == input.status.GetOr(Active) && r.value.createdBy == user.id
    ensures r.Ok? && v == AsWritten ==>
              r.value.slug == Slug.UniqueSlug(Trim(input.name.value), CategorySlugs(categories))
    ensures r.Ok? && v == Intended && ArticleController.Truthy(input.slug) ==> r.value.slug == Trim(Lower(input.slug.value))
  {
    match CreateChecks(categories, input, user, now)
    case Err(e) => Err(e)
    case Ok(data) =>
      var used := CategorySlugs(categories);
      if v == AsWritten then
        NewCategorySlugFromName(data, AllDirty, used);
        Ok(PreSave(data, true, AllDirty, used).value)
      else
        ArticleHooks.ValidSlugNormal(data.slug);
        var s := PreSave(data, false, AllDirty, used);
        if s.Ok? then Ok(s.value) else Err(400)
  }

  /** `createCategory`: 201 with the saved category under the new id, or a
      refusal that leaves the categories alone. */
  function CreateCategory(v: Version, categories: Categories, input: CategoryInput, user: RequestUser,
                          newId: CategoryModel.Id, now: int): (r: Reply)
    requires newId !in categories
    ensures r.code == 201 || r.code == 400
    ensures r.code == 400 ==> r.categories == categories
    ensures r.code == 201 ==> Saved(v, categories, input, user, now).Ok? &&
                              r.categories == categories[newId := Saved(v, categories, input, user, now).value]
  {
    var s := Saved(v, categories, input, user, now);
    if s.Ok? then Reply(201, categories[newId := s.value]) else Reply(400, categories)
  }

  /** A new category counts no article, so creation keeps the store
      consistent. */
  lemma CreateCategoryKeepsConsistent(v: Version, articles: Articles, categories: Categories, input: CategoryInput,
                                      user: RequestUser, newId: CategoryModel.Id, now: int)
    requires Consistent(articles, categories) && newId !in categories
    ensures Consistent(articles, CreateCategory(v, categories, input, user, newId, now).categories)
  {
    var r := CreateCategory(v, categories, input, user, newId, now);
    if r.code == 201 {
      InsertCategoryKeepsConsistent(articles, categories, newId, Saved(v, categories, input, user, now).value);
    }
  }

  /** A slug given with the request: as written the stored slug is the one
      generated from the name whatever was given; as intended it is the
      given one, lower-cased and trimmed. */
  lemma CreateCategorySlugReplaced(categories: Categories, input: CategoryInput, user: RequestUser,
                                   newId: CategoryModel.Id, now: int)
    requires newId !in categories && ArticleController.Truthy(input.slug)
    ensures var r := CreateCategory(AsWritten, categories, input, user, newId, now);
            r.code == 201 ==> input.name.Some? &&
                              r.categories[newId].slug == Slug.UniqueSlug(Trim(input.name.value), CategorySlugs(categories))
    ensures var r := CreateCategory(Intended, categories, input, user, newId, now);
            r.code == 201 ==> r.categories[newId].slug == Trim(Lower(input.slug.value))
  {
  }

  // ---------------------------------------------------------------------
  // updateCategory
  // ---------------------------------------------------------------------

  /** A new slug that another category already has (lines 309-327; the
      lookup's filter goes through the slug's setters, so it is also
      lower-cased). */
  predicate SlugClash(categories: Categories, id: CategoryModel.Id, input: CategoryInput)
    requires id in categories
  {
    input.slug.Some? && Trim(input.slug.value) != categories[id].slug &&
    Trim(Lower(input.slug.value)) in OtherCategorySlugs(categories, id)
  }

  /** The slug the handler puts in the update: a changed trimmed slug, or
      for a changed name without a slug one generated from the name
      (lines 309-333). */
  function UpdateSlug(categories: Categories, id: CategoryModel.Id, input: CategoryInput): (r: Option<string>)
    requires id in categories
    ensures input.slug.Some? ==>
              r == if Trim(input.slug.value) != categories[id].slug then Some(Trim(input.slug.value)) else None
    ensures r.Some? && input.slug.None? ==>
              input.name.Some? && r.value !in OtherCategorySlugs(categories, id) &&
              r.value == Slug.UniqueSlug(input.name.value, OtherCategorySlugs(categories, id))
  {
    var c := categories[id];
    if input.slug.Some? then
      (if Trim(input.slug.value) != c.slug then Some(Trim(input.slug.value)) else None)
    else if ArticleController.Truthy(input.name) && Trim(input.name.value) != c.name then
      Some(Slug.UniqueSlug(input.name.value, OtherCategorySlugs(categories, id)))
    else None
  }

  /** `updateData` (lines 295-336). */
  function UpdateData(categories: Categories, id: CategoryModel.Id, input: CategoryInput, user: RequestUser): (u: Update)
    requires id in categories
    ensures u.name == TrimOpt(input.name) && u.slug == UpdateSlug(categories, id, input)
    ensures u.status == input.status && u.color == input.color && u.updatedBy == Some(user.id)
    ensures u.sortOrder == if input.sortOrder.Undefined? then None else Some(ParseIntOr(input.sortOrder, 0))
  {
    Update(
      name := TrimOpt(input.name), slug := UpdateSlug(categories, id, input),
      description := TrimOpt(input.description), status := input.status,
      metaTitle := TrimOpt(input.metaTitle), metaDescription := TrimOpt(input.metaDescription),
      sortOrder := if input.sortOrder.Undefined? then None else Some(ParseIntOr(input.sortOrder, 0)),
      color := input.color, icon := TrimOpt(input.icon), updatedBy := Some(user.id), updatedAt := None)
  }

  /** The stored category after the update: each set field replaces the
      old one (the colour through its `trim` setter). */
  function Apply(c: Category, h: Update): (r: Category)
    ensures r.articleCount == c.articleCount && r.createdBy == c.createdBy && r.createdAt == c.createdAt
    ensures r.name == h.name.GetOr(c.name) && r.slug == h.slug.GetOr(c.slug)
    ensures r.status == h.status.GetOr(c.status) && r.sortOrder == h.sortOrder.GetOr(c.sortOrder)
    ensures r.updatedBy == h.updatedBy.GetOr(c.updatedBy)
    ensures h.updatedAt.Some? ==> r.updatedAt == h.updatedAt
  {
    c.(name := h.name.GetOr(c.name), slug := h.slug.GetOr(c.slug),
       description := h.description.GetOr(c.description), status := h.status.GetOr(c.status),
       metaTitle := h.metaTitle.GetOr(c.metaTitle), metaDescription := h.metaDescription.GetOr(c.metaDescription),
       sortOrder := h.sortOrder.GetOr(c.sortOrder),
       color := if h.color.Some? then Trim(h.color.value) else c.color,
       icon := h.icon.GetOr(c.icon), updatedBy := h.updatedBy.GetOr(c.updatedBy),
       updatedAt := if h.updatedAt.Some? then h.updatedAt else c.updatedAt)
  }

  /** The update validators (`runValidators`): the schema's rules for the
      paths the update sets, checked on the updated document `k`. */
  predicate UpdateValid(k: Category, h: Update) {
    (h.name.Some? ==> Trimmed(k.name) && 2 <= |k.name| <= 100) &&
    (h.slug.Some? ==> Slug.ValidSlug(k.slug) && |k.slug| <= 150) &&
    (h.description.Some? ==> |k.description| <= 500) &&
    (h.status.Some? ==> k.status in {Active, Inactive}) &&
    (h.metaTitle.Some? ==> |k.metaTitle| <= 60) &&
    (h.metaDescription.Some? ==> |k.metaDescription| <= 160) &&
    (h.sortOrder.Some? ==> k.sortOrder >= 0) &&
    (h.color.Some? ==> k.color == "" || HexColor(k.color)) &&
    (h.icon.Some? ==> |k.icon| <= 50)
  }

  /** A valid category stays valid under an update that passes the update
      validators. */
  lemma UpdateKeepsValid(c: Category, h: Update)
    requires CategoryValid(c) && UpdateValid(Apply(c, h), h)
    ensures CategoryValid(Apply(c, h))
  {
  }

  /** Everything after the lookup: the slug check, the query hook (whose
      refusal leaves the request without a response) and the update
      validators. */
  function Updated(categories: Categories, id: CategoryModel.Id, input: CategoryInput,
                   user: RequestUser, now: int): (r: Result<Category, int>)
    requires id in categories
    ensures r.Err? ==> r.error == 400 || r.error == NoResponse
    ensures SlugClash(categories, id, input) ==> r == Err(400)
    ensures r.Ok? ==> r.value.articleCount == categories[id].articleCount &&
                      r.value.createdBy == categories[id].createdBy &&
                      r.value.updatedBy == user.id && r.value.updatedAt == Some(now)
  {
    if SlugClash(categories, id, input) then Err(400)
    else
      match Hooked(categories, id, input, user, now)
      case Err(_) => Err(NoResponse)
      case Ok(h) =>
        var k := Apply(categories[id], h);
        if UpdateValid(k, h) then Ok(k) else Err(400)
  }

  /** The update document after the query hook. */
  function Hooked(categories: Categories, id: CategoryModel.Id, input: CategoryInput,
                  user: RequestUser, now: int): (r: Result<Update, SaveError>)
    requires id in categories
    ensures r.Ok? ==> r.value.updatedAt == Some(now) && r.value.updatedBy == Some(user.id)
  {
    UpdateHook(UpdateData(categories, id, input, user), OtherCategorySlugs(categories, id), now)
  }

  /** What a successful update stores: a valid category stays valid, a
      given name is stored trimmed and capitalised, a rename without a slug
      gets a slug no other category has, and with neither name nor slug the
      slug stays. */
  lemma UpdatedFields(categories: Categories, id: CategoryModel.Id, input: CategoryInput,
                      user: RequestUser, now: int)
    requires id in categories
    ensures var r := Updated(categories, id, input, user, now);
            r.Ok? && CategoryValid(categories[id]) ==> CategoryValid(r.value)
    ensures var r := Updated(categories, id, input, user, now);
            r.Ok? && input.name.Some? && !Blank(input.name.value) ==>
              r.value.name == NormalizeName(Trim(input.name.value))
    ensures var r := Updated(categories, id, input, user, now);
            r.Ok? && input.slug.None? && input.name.Some? && !Blank(input.name.value) ==>
              r.value.slug !in OtherCategorySlugs(categories, id)
    ensures var r := Updated(categories, id, input, user, now);
            r.Ok? && input.slug.None? && input.name.None? ==> r.value.slug == categories[id].slug
  {
    var r := Updated(categories, id, input, user, now);
    if r.Ok? {
      var u := UpdateData(categories, id, input, user);
      var h := Hooked(categories, id, input, user, now).value;
      if CategoryValid(categories[id]) {
        UpdateKeepsValid(categories[id], h);
      }
      RenameSlugFree(categories, id, input, u, h, now);
      if input.name.Some? && !Blank(input.name.value) {
        TrimIdempotent(input.name.value);
      }
    }
  }

  /** The hook leaves a rename without a slug with a slug no other category
      has: the handler's generated one, or the hook's own. */
  lemma RenameSlugFree(categories: Categories, id: CategoryModel.Id, input: CategoryInput,
                       u: Update, h: Update, now: int)
    requires id in categories && u.slug == UpdateSlug(categories, id, input) && u.name == TrimOpt(input.name)
    requires UpdateHook(u, OtherCategorySlugs(categories, id), now) == Ok(h)
    ensures input.slug.None? && input.name.Some? && !Blank(input.name.value) ==>
              h.slug.Some? && h.slug.value !in OtherCategorySlugs(categories, id)
  {
    var others := OtherCategorySlugs(categories, id);
    if input.slug.None? && input.name.Some? && !Blank(input.name.value) {
      TrimIdempotent(input.name.value);
      assert Given(u.name) && !Blank(u.name.value);
      if u.slug.Some? && u.slug.value != "" {
        Slug.UniqueSlugNormal(input.name.value, others);
      }
    }
  }

  /** `updateCategory`: 500 for an id that is no ObjectId, whose cast
      makes `findById` (line 280) throw into the catch block; 404 when no
      category has the ObjectId the id casts to; otherwise that category
      is replaced on success and nothing changes on a refusal. */
  function UpdateCategory(categories: Categories, id: CategoryModel.Id, input: CategoryInput,
                          user: RequestUser, now: int): (r: Reply)
    ensures !ObjectIdText(id) ==> r == Reply(500, categories)
    ensures ObjectIdText(id) && ObjectIdKey(id) !in categories ==> r == Reply(404, categories)
    ensures r.code in {200, 400, 404, 500, NoResponse}
    ensures r.code != 200 ==> r.categories == categories
    ensures r.code == 200 ==> var key := ObjectIdKey(id);
                              key in categories && Updated(categories, key, input, user, now).Ok? &&
                              r.categories == categories[key := Updated(categories, key, input, user, now).value]
  {
    var key := ObjectIdKey(id);
    if !ObjectIdText(id) then Reply(500, categories)
    else if key !in categories then Reply(404, categories)
    else
      var r := Updated(categories, key, input, user, now);
      if r.Ok? then Reply(200, categories[key := r.value]) else Reply(r.error, categories)
  }

  /** Updating a category never touches its counter, so the store stays
      consistent. */
  lemma UpdateCategoryKeepsConsistent(articles: Articles, categories: Categories, id: CategoryModel.Id,
                                      input: CategoryInput, user: RequestUser, now: int)
    requires Consistent(articles, categories)
    ensures Consistent(articles, UpdateCategory(categories, id, input, user, now).categories)
  {
    var r := UpdateCategory(categories, id, input, user, now);
    if r.code == 200 {
      ReplaceCategoryKeepsConsistent(articles, categories, ObjectIdKey(id), Updated(categories, ObjectIdKey(id), input, user, now).value);
    }
  }

  /** Sending the current name again without a slug makes the hook replace
      the slug, a custom one included, by one generated from the name. */
  lemma SameNameReplacesSlug(categories: Categories, id: CategoryModel.Id, input: CategoryInput,
                             user: RequestUser, now: int)
    requires id in categories && input.slug.None? && input.name.Some?
    requires Trim(input.name.value) == categories[id].name && !Blank(input.name.value)
    ensures var r := Updated(categories, id, input, user, now);
            r.Ok? ==> r.value.slug == Slug.UniqueSlug(NormalizeName(Trim(input.name.value)),
                                                      OtherCategorySlugs(categories, id))
  {
    UpdatedSlug(categories, id, input, user, now);
    var others := OtherCategorySlugs(categories, id);
    var u := UpdateData(categories, id, input, user);
    assert u.slug == UpdateSlug(categories, id, input) == None;
    TrimIdempotent(input.name.value);
    assert Given(u.name) && !Blank(u.name.value) && u.name.value == Trim(input.name.value);
    assert Hooked(categories, id, input, user, now) == UpdateHook(u, others, now);
  }

  /** With the hook as intended, the same update keeps the stored slug:
      the handler generates none for an unchanged name. */
  lemma SameNameKeepsSlugIntended(categories: Categories, id: CategoryModel.Id, input: CategoryInput,
                                  user: RequestUser, now: int)
    requires id in categories && input.slug.None? && input.name.Some?
    requires Trim(input.name.value) == categories[id].name
    ensures var r := UpdateHookIntended(UpdateData(categories, id, input, user), OtherCategorySlugs(categories, id), now);
            r.Ok? && Apply(categories[id], r.value).slug == categories[id].slug
  {
  }

  /** A stored update carries the slug of the hooked update document, or
      keeps the old one when the document has none. */
  lemma UpdatedSlug(categories: Categories, id: CategoryModel.Id, input: CategoryInput, user: RequestUser, now: int)
    requires id in categories
    ensures var r := Updated(categories, id, input, user, now);
            r.Ok? ==> Hooked(categories, id, input, user, now).Ok? &&
                      r.value.slug == Hooked(categories, id, input, user, now).value.slug.GetOr(categories[id].slug)
  {
  }

  // ---------------------------------------------------------------------
  // deleteCategory
  // ---------------------------------------------------------------------

  /** `deleteCategory`: 500 for an id that is no ObjectId (`findById`,
      line 411, throws into the catch block), 404 when no category has the
      ObjectId the id casts to, 400
      while `canBeDeleted` fails, otherwise the category is removed (the
      model hook, which only refuses positive counts, cannot refuse after
      that check). */
  function DeleteCategory(categories: Categories, id: CategoryModel.Id): (r: Reply)
    ensures r.code in {200, 400, 404, 500}
    ensures r.code == 500 <==> !ObjectIdText(id)
    ensures r.code == 404 <==> ObjectIdText(id) && ObjectIdKey(id) !in categories
    ensures r.code != 200 ==> r.categories == categories
    ensures r.code == 200 <==> ObjectIdText(id) && ObjectIdKey(id) in categories &&
                               categories[ObjectIdKey(id)].articleCount == 0
    ensures r.code == 200 ==> r.categories == categories - {ObjectIdKey(id)}
  {
    var key := ObjectIdKey(id);
    if !ObjectIdText(id) then Reply(500, categories)
    else if key !in categories then Reply(404, categories)
    else if !CanBeDeleted(categories[key]) then Reply(400, categories)
    else
      DeleteGuards(categories[key]);
      Reply(200, categories - {key})
  }

  /** In a consistent store a category can be deleted exactly when no
      article lists it, and deleting it keeps the store consistent. */
  lemma DeleteCategoryWhenUnused(articles: Articles, categories: Categories, id: CategoryModel.Id)
    requires Consistent(articles, categories) && ObjectIdText(id) && ObjectIdKey(id) in categories
    ensures DeleteCategory(categories, id).code == 200 <==>
            forall a :: a in articles ==> ObjectIdKey(id) !in articles[a].categories
    ensures Consistent(articles, DeleteCategory(categories, id).categories)
  {
    var key := ObjectIdKey(id);
    CountZero(articles, key);
    if CanBeDeleted(categories[key]) {
      DeleteCategoryKeepsConsistent(articles, categories, key);
    }
  }

  /** As written, deleting the only article of a category leaves its
      counter at -2, so the category can no longer be deleted although no
      article lists it; with the single intended decrement it can. */
  lemma DeletedArticleLocksCategory(articles: Articles, categories: Categories, id: ArticleModel.Id,
                                    user: RequestUser, c: CategoryModel.Id)
    requires Consistent(articles, categories) && ObjectIdText(id) && ObjectIdKey(id) in articles && user.role == Admin
    requires ObjectIdText(c) && ObjectIdKey(c) in articles[ObjectIdKey(id)].categories && Count(articles, ObjectIdKey(c)) == 1
    ensures var r := DeleteArticle(AsWritten, articles, categories, id, user);
            r.code == 200 && Count(r.articles, ObjectIdKey(c)) == 0 && DeleteCategory(r.categories, c).code == 400
    ensures var r := DeleteArticle(Intended, articles, categories, id, user);
            r.code == 200 ==> Count(r.articles, ObjectIdKey(c)) == 0 && DeleteCategory(r.categories, c).code == 200
  {
    DeleteCountsThrice(articles, categories, id, user, ObjectIdKey(c));
    var r := DeleteArticle(Intended, articles, categories, id, user);
    if r.code == 200 {
      DeleteKeepsConsistent(articles, categories, id, user);
      CountRemove(articles, ObjectIdKey(id), ObjectIdKey(c));
    }
  }

  /** An id that is no ObjectId never reaches a lookup: both category
      handlers that call `findById` with it answer 500 from their catch
      block and change nothing, where a well-formed id that names no
      category answers 404. */
  lemma MalformedIdIs500(categories: Categories, id: string, input: CategoryInput, user: RequestUser, now: int)
    requires !ObjectIdText(id)
    ensures UpdateCategory(categories, id, input, user, now) == Reply(500, categories)
    ensures DeleteCategory(categories, id) == Reply(500, categories)
  {
  }

  /** Only the ObjectId an id casts to matters: every spelling of one id
      that differs in the case of its hex digits gets the same reply as
      the stored, lower-case one. */
  lemma {:induction false} AnySpellingOfId(categories: Categories, id: string, input: CategoryInput,
                                           user: RequestUser, now: int)
    requires ObjectIdText(id)
    ensures UpdateCategory(categories, id, input, user, now) == UpdateCategory(categories, ObjectIdKey(id), input, user, now)
    ensures DeleteCategory(categories, id) == DeleteCategory(categories, ObjectIdKey(id))
  {
    CanonicalIdIsKey(ObjectIdKey(id));
  }
}

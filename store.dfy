/** The two collections as mutable state and the handlers as methods that
    change them step by step, in the order the handlers of
    src/controllers/article/crud.js, publish.js and
    src/controllers/category/crud.js issue their writes.  Each method is
    proved to leave the state, and to answer the status, that the
    corresponding function of ArticleController or CategoryController
    describes. */
module Database {
  import opened Wrappers
  import opened Seqs
  import opened Principal
  import opened ArticleModel
  import CategoryModel
  import opened ContentStore
  import opened ArticleController
  import opened Responses
  import CategoryController
  import opened Patterns

  /** One more id in the `$in` set adjusts at most one more counter. */
  lemma BumpStep(categories: Categories, seen: set<CategoryModel.Id>, c: CategoryModel.Id, delta: int)
    ensures c !in seen && c in categories ==>
              Bump(categories, seen + {c}, delta) ==
              Bump(categories, seen, delta)[c := CategoryModel.UpdateArticleCount(categories[c], delta)]
    ensures c in seen || c !in categories ==> Bump(categories, seen + {c}, delta) == Bump(categories, seen, delta)
  {
    var l, r := Bump(categories, seen + {c}, delta), Bump(categories, seen, delta);
    if c !in seen && c in categories {
      var r' := r[c := CategoryModel.UpdateArticleCount(categories[c], delta)];
      assert l.Keys == r'.Keys;
      assert forall k :: k in l ==> l[k] == r'[k];
    } else {
      assert l.Keys == r.Keys;
      assert forall k :: k in l ==> l[k] == r[k];
    }
  }

  /** An empty `$in` set changes nothing. */
  lemma BumpNone(categories: Categories, delta: int)
    ensures Bump(categories, {}, delta) == categories
  {
    var l := Bump(categories, {}, delta);
    assert l.Keys == categories.Keys;
    assert forall k :: k in l ==> l[k] == categories[k];
  }

  /** The two `updateMany` calls of an update (lines 542-555 of
      src/controllers/article/crud.js), each skipped when its list is
      empty, amount to moving the counters from `before` to `after`. */
  lemma MovedInSteps(categories: Categories, before: seq<CategoryModel.Id>, after: seq<CategoryModel.Id>)
    ensures var remove, add := Except(before, after), Except(after, before);
            var c1 := if |remove| > 0 then Bump(categories, Listed(remove), -1) else categories;
            Moved(categories, before, after) == if |add| > 0 then Bump(c1, Listed(add), 1) else c1
  {
    var remove, add := Except(before, after), Except(after, before);
    assert Listed(remove) == Listed(before) - Listed(after);
    assert Listed(add) == Listed(after) - Listed(before);
    if |remove| == 0 {
      assert Listed(remove) == {};
      BumpNone(categories, -1);
    }
    var c1 := Bump(categories, Listed(remove), -1);
    if |add| == 0 {
      assert Listed(add) == {};
      BumpNone(c1, 1);
    }
  }

  /** `findByIdAndUpdate` on the articles collection: the slug check, the
      query hook and the validators, then the stored article replaced when
      all of them pass. */
  method FindByIdAndUpdate(v: Version, articles: Articles, id: ArticleModel.Id, input: ArticleInput,
                           user: RequestUser, now: int)
    returns (u: Result<Article, int>, after: Articles)
    requires id in articles
    ensures u == Updated(v, articles, id, input, user, now)
    ensures after == if u.Ok? then articles[id := u.value] else articles
  {
    u := Updated(v, articles, id, input, user, now);
    after := articles;
    if u.Ok? {
      after := articles[id := u.value];
    }
  }

  /** `new Category(data).save()` into the categories collection: the
      handler's checks and the pre-save hook, then the document stored
      under its new id when they pass. */
  method SaveCategory(v: Version, categories: Categories, input: CategoryController.CategoryInput,
                      user: RequestUser, newId: CategoryModel.Id, now: int)
    returns (r: Result<CategoryModel.Category, int>, after: Categories)
    requires newId !in categories
    ensures r == CategoryController.Saved(v, categories, input, user, now)
    ensures after == if r.Ok? then categories[newId := r.value] else categories
  {
    r := CategoryController.Saved(v, categories, input, user, now);
    after := categories;
    if r.Ok? {
      after := categories[newId := r.value];
    }
  }

  class Store {
    var articles: Articles
    var categories: Categories

    constructor (articles0: Articles, categories0: Categories)
      ensures articles == articles0 && categories == categories0
    {
      articles := articles0;
      categories := categories0;
    }

    /** Every counter matches the articles and every listed category exists. */
    predicate Valid()
      reads this
    {
      Consistent(articles, categories)
    }

    /** `Category.updateMany({_id: {$in: ids}}, {$inc: {articleCount: delta}})`:
        each existing category among `ids` moves once, however often it is
        listed. */
    method IncrementCounts(ids: seq<CategoryModel.Id>, delta: int)
      modifies this
      ensures categories == Bump(old(categories), Listed(ids), delta)
      ensures articles == old(articles)
    {
      var seen: set<CategoryModel.Id> := {};
      var i := 0;
      BumpNone(categories, delta);
      while i < |ids|
        invariant 0 <= i <= |ids|
        invariant seen == Listed(ids[..i])
        invariant categories == Bump(old(categories), seen, delta)
        invariant articles == old(articles)
      {
        var c := ids[i];
        BumpStep(old(categories), seen, c, delta);
        if c !in seen && c in categories {
          categories := categories[c := CategoryModel.UpdateArticleCount(categories[c], delta)];
        }
        seen := seen + {c};
        assert ids[..i + 1] == ids[..i] + [c];
        i := i + 1;
      }
      assert ids[..i] == ids;
    }

    /** The two `updateMany` calls of an update: -1 for the categories
        dropped from the list, then +1 for those added, each call skipped
        when its list is empty. */
    method MoveCounts(before: seq<CategoryModel.Id>, after: seq<CategoryModel.Id>)
      modifies this
      ensures categories == Moved(old(categories), before, after)
      ensures articles == old(articles)
    {
      MovedInSteps(categories, before, after);
      var remove := Except(before, after);
      if |remove| > 0 {
        IncrementCounts(remove, -1);
      }
      var add := Except(after, before);
      if |add| > 0 {
        IncrementCounts(add, 1);
      }
    }

    /** `Article.create(b)` followed by +1 for each category `b` lists. */
    method InsertArticle(newId: ArticleModel.Id, b: Article)
      modifies this
      ensures articles == old(articles)[newId := b]
      ensures categories == Bump(old(categories), Listed(b.categories), 1)
    {
      articles := articles[newId := b];
      IncrementCounts(b.categories, 1);
    }

    /** `createArticle`: `Article.create`, then +1 for each listed
      category. */
    method CreateArticle(v: Version, input: ArticleInput, user: RequestUser, newId: ArticleModel.Id, now: int)
      returns (code: int)
      requires newId !in articles
      modifies this
      ensures var o := ArticleController.CreateArticle(v, old(articles), old(categories), input, user, newId, now);
              code == o.code && articles == o.articles && categories == o.categories
      ensures old(Valid()) ==> Valid()
    {
      ghost var a0, c0 := articles, categories;
      var r := Created(v, articles, categories, input, user, now);
      if r.Err? {
        code := r.error;
      } else {
        InsertArticle(newId, r.value);
        code := 201;
      }
      if Consistent(a0, c0) {
        CreateKeepsConsistent(v, a0, c0, input, user, newId, now);
      }
    }

    /** The slug check, then `findByIdAndUpdate` with its hook and the
        validators: the stored article is replaced when all pass. */
    method ApplyUpdate(v: Version, id: ArticleModel.Id, input: ArticleInput, user: RequestUser, now: int)
      returns (u: Result<Article, int>)
      requires id in articles
      modifies this
      ensures u == Updated(v, old(articles), id, input, user, now)
      ensures articles == if u.Ok? then old(articles)[id := u.value] else old(articles)
      ensures categories == old(categories)
    {
      var after;
      u, after := FindByIdAndUpdate(v, articles, id, input, user, now);
      articles := after;
    }

    /** `updateArticle` as written: the counters move before the slug
        check, the query hook and the validators. */
    method UpdateArticleAsWritten(id: ArticleModel.Id, input: ArticleInput, user: RequestUser, now: int)
      returns (code: int)
      modifies this
      ensures var o := ArticleController.UpdateArticleAsWritten(old(articles), old(categories), id, input, user, now);
              code == o.code && articles == o.articles && categories == o.categories
    {
      ghost var o := ArticleController.UpdateArticleAsWritten(articles, categories, id, input, user, now);
      code := UpdatePreChecks(AsWritten, articles, categories, id, input, user);
      if code != 0 {
        return;
      }
      var key := ObjectIdKey(id);
      var cats := NewCategories(input);
      if cats.Some? {
        MoveCounts(articles[key].categories, cats.value);
      }
      assert categories == o.categories;
      var u := ApplyUpdate(AsWritten, key, input, user, now);
      code := if u.Ok? then 200 else u.error;
    }

    /** `updateArticle` as intended: the article is replaced first and the
        counters move only when it was. */
    method UpdateArticle(id: ArticleModel.Id, input: ArticleInput, user: RequestUser, now: int)
      returns (code: int)
      modifies this
      ensures var o := ArticleController.UpdateArticle(old(articles), old(categories), id, input, user, now);
              code == o.code && articles == o.articles && categories == o.categories
      ensures old(Valid()) ==> Valid()
    {
      ghost var a0, c0 := articles, categories;
      ghost var o := ArticleController.UpdateArticle(articles, categories, id, input, user, now);
      code := UpdatePreChecks(Intended, articles, categories, id, input, user);
      if code == 0 {
        var key := ObjectIdKey(id);
        var before := articles[key].categories;
        var u := ApplyUpdate(Intended, key, input, user, now);
        if u.Ok? {
          MoveCounts(before, u.value.categories);
          code := 200;
        } else {
          code := u.error;
        }
      }
      if Consistent(a0, c0) {
        UpdateKeepsConsistent(a0, c0, id, input, user, now);
      }
    }

    /** `deleteArticle`: as written, each of the two pre-`findOneAndDelete`
        hooks decrements the article's categories and the handler does so
        once more; as intended only the handler does. */
    method DeleteArticle(v: Version, id: ArticleModel.Id, user: RequestUser) returns (code: int)
      modifies this
      ensures var o := ArticleController.DeleteArticle(v, old(articles), old(categories), id, user);
              code == o.code && articles == o.articles && categories == o.categories
      ensures v == Intended && old(Valid()) ==> Valid()
    {
      ghost var a0, c0 := articles, categories;
      if !ObjectIdText(id) {
        return 500;
      }
      var key := ObjectIdKey(id);
      if key !in articles {
        return 404;
      }
      var gate := DeleteGate(v, articles[key], user);
      if gate != Allow {
        return GateCode(gate);
      }
      var cats := articles[key].categories;
      if v == AsWritten {
        IncrementCounts(cats, -1);
        IncrementCounts(cats, -1);
        BumpTwice(c0, Listed(cats), -1, -1);
      }
      articles := articles - {key};
      if |cats| > 0 {
        IncrementCounts(cats, -1);
        BumpTwice(c0, Listed(cats), -2, -1);
      } else {
        assert Listed(cats) == {};
        BumpNone(c0, -Decrements(v));
        BumpNone(categories, -1);
      }
      code := 200;
      if v == Intended && Consistent(a0, c0) {
        DeleteKeepsConsistent(a0, c0, id, user);
      }
    }

    /** `publishArticle`: the document's `publish()`, whose save runs the
        validators. */
    method PublishArticle(v: Version, id: ArticleModel.Id, user: RequestUser, now: int) returns (code: int)
      modifies this
      ensures var o := ArticleController.PublishArticle(v, old(articles), id, user, now);
              code == o.0 && articles == o.1 && categories == old(categories)
      ensures old(Valid()) ==> Valid()
    {
      ghost var a0 := articles;
      if !ObjectIdText(id) {
        return 500;
      }
      var key := ObjectIdKey(id);
      if key !in articles {
        return 404;
      }
      var gate := EditGate(v, articles[key], user);
      if gate != Allow {
        return GateCode(gate);
      }
      var doc := new ArticleDoc(articles[key]);
      doc.Publish(now);
      if !ArticleValid(doc.doc) {
        return 500;
      }
      articles := articles[key := doc.doc];
      code := 200;
      if Consistent(a0, categories) {
        PublishKeepsConsistent(v, a0, categories, id, user, now);
      }
    }

    /** `unpublishArticle`: the document's `unpublish()`, saved without
        validation. */
    method UnpublishArticle(v: Version, id: ArticleModel.Id, user: RequestUser) returns (code: int)
      modifies this
      ensures var o := ArticleController.UnpublishArticle(v, old(articles), id, user);
              code == o.0 && articles == o.1 && categories == old(categories)
      ensures old(Valid()) ==> Valid()
    {
      ghost var a0 := articles;
      if !ObjectIdText(id) {
        return 500;
      }
      var key := ObjectIdKey(id);
      if key !in articles {
        return 404;
      }
      var gate := EditGate(v, articles[key], user);
      if gate != Allow {
        return GateCode(gate);
      }
      var doc := new ArticleDoc(articles[key]);
      doc.Unpublish();
      articles := articles[key := doc.doc];
      code := 200;
      if Consistent(a0, categories) {
        PublishKeepsConsistent(v, a0, categories, id, user, 0);
      }
    }

    /** `createCategory`. */
    method CreateCategory(v: Version, input: CategoryController.CategoryInput, user: RequestUser,
                          newId: CategoryModel.Id, now: int) returns (code: int)
      requires newId !in categories
      modifies this
      ensures var o := CategoryController.CreateCategory(v, old(categories), input, user, newId, now);
              code == o.code && categories == o.categories && articles == old(articles)
      ensures old(Valid()) ==> Valid()
    {
      if Consistent(articles, categories) {
        CategoryController.CreateCategoryKeepsConsistent(v, articles, categories, input, user, newId, now);
      }
      var r, after := SaveCategory(v, categories, input, user, newId, now);
      categories := after;
      code := if r.Ok? then 201 else r.error;
    }

    /** `updateCategory`. */
    method UpdateCategory(id: CategoryModel.Id, input: CategoryController.CategoryInput, user: RequestUser, now: int)
      returns (code: int)
      modifies this
      ensures var o := CategoryController.UpdateCategory(old(categories), id, input, user, now);
              code == o.code && categories == o.categories && articles == old(articles)
      ensures old(Valid()) ==> Valid()
    {
      ghost var c0 := categories;
      if !ObjectIdText(id) {
        return 500;
      }
      var key := ObjectIdKey(id);
      if key !in categories {
        return 404;
      }
      var r := CategoryController.Updated(categories, key, input, user, now);
      if r.Err? {
        code := r.error;
      } else {
        if Consistent(articles, c0) {
          ReplaceCategoryKeepsConsistent(articles, c0, key, r.value);
        }
        categories := categories[key := r.value];
        code := 200;
      }
    }

    /** `deleteCategory`. */
    method DeleteCategory(id: CategoryModel.Id) returns (code: int)
      modifies this
      ensures var o := CategoryController.DeleteCategory(old(categories), id);
              code == o.code && categories == o.categories && articles == old(articles)
      ensures old(Valid()) ==> Valid()
    {
      ghost var c0 := categories;
      if !ObjectIdText(id) {
        return 500;
      }
      var key := ObjectIdKey(id);
      if key !in categories {
        return 404;
      }
      if !CategoryModel.CanBeDeleted(categories[key]) {
        return 400;
      }
      categories := categories - {key};
      code := 200;
      if Consistent(articles, c0) {
        CategoryController.DeleteCategoryWhenUnused(articles, c0, id);
      }
    }
  }
}

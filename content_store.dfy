/** The two collections the article and category controllers work on, and
    the `articleCount` bookkeeping between them.  A category's
    `articleCount` is meant to be the number of articles that list it; the
    controllers keep it by `updateMany({_id: {$in: ids}}, {$inc: …})`, which
    adjusts each listed category that exists once, however often it is
    listed. */
module ContentStore {
  import opened ArticleModel
  import opened CategoryModel

  type Articles = map<ArticleModel.Id, Article>
  type Categories = map<CategoryModel.Id, Category>

  /** The articles that list category `c`. */
  function Holders(articles: Articles, c: CategoryModel.Id): set<ArticleModel.Id> {
    set a | a in articles && c in articles[a].categories
  }

  /** The number of articles that list `c`: what `articleCount` should be. */
  function Count(articles: Articles, c: CategoryModel.Id): nat {
    |Holders(articles, c)|
  }

  /** Every category an article lists exists. */
  predicate Referential(articles: Articles, categories: Categories) {
    forall a, c :: a in articles && c in articles[a].categories ==> c in categories
  }

  /** Every category's counter equals the number of articles listing it. */
  predicate CountsConsistent(articles: Articles, categories: Categories) {
    forall c :: c in categories ==> categories[c].articleCount == Count(articles, c)
  }

  predicate Consistent(articles: Articles, categories: Categories) {
    Referential(articles, categories) && CountsConsistent(articles, categories)
  }

  /** 1 when `b` holds, 0 otherwise. */
  function Ind(b: bool): nat {
    if b then 1 else 0
  }

  /** Adding an article adds one holder to each category it lists. */
  lemma CountInsert(articles: Articles, id: ArticleModel.Id, b: Article, c: CategoryModel.Id)
    requires id !in articles
    ensures Count(articles[id := b], c) == Count(articles, c) + Ind(c in b.categories)
  {
    var before, after := Holders(articles, c), Holders(articles[id := b], c);
    if c in b.categories {
      assert after == before + {id};
    } else {
      assert after == before;
    }
  }

  /** Removing an article takes one holder from each category it lists. */
  lemma CountRemove(articles: Articles, id: ArticleModel.Id, c: CategoryModel.Id)
    requires id in articles
    ensures Count(articles - {id}, c) == Count(articles, c) - Ind(c in articles[id].categories)
  {
    var before, after := Holders(articles, c), Holders(articles - {id}, c);
    if c in articles[id].categories {
      assert after == before - {id};
    } else {
      assert after == before;
    }
  }

  /** Replacing an article moves its holdings from the old category list to
      the new one. */
  lemma CountReplace(articles: Articles, id: ArticleModel.Id, b: Article, c: CategoryModel.Id)
    requires id in articles
    ensures Count(articles[id := b], c) ==
            Count(articles, c) - Ind(c in articles[id].categories) + Ind(c in b.categories)
  {
    var rest := articles - {id};
    assert articles[id := b] == rest[id := b];
    CountRemove(articles, id, c);
    CountInsert(rest, id, b, c);
  }

  /** A category nobody lists is held by no article. */
  lemma CountZero(articles: Articles, c: CategoryModel.Id)
    ensures Count(articles, c) == 0 <==> forall a :: a in articles ==> c !in articles[a].categories
  {
    if Count(articles, c) == 0 {
      assert Holders(articles, c) == {};
      forall a | a in articles ensures c !in articles[a].categories {
        assert a !in Holders(articles, c);
      }
    } else {
      var a :| a in Holders(articles, c);
    }
  }

  // ---------------------------------------------------------------------
  // updateMany with $inc
  // ---------------------------------------------------------------------

  /** `updateMany({_id: {$in: ids}}, {$inc: {articleCount: delta}})`: every
      existing category among `ids` moves by `delta`, the others stay. */
  function Bump(categories: Categories, ids: set<CategoryModel.Id>, delta: int): (r: Categories)
    ensures r.Keys == categories.Keys
    ensures forall c :: c in r ==>
              r[c].articleCount == categories[c].articleCount + (if c in ids then delta else 0) &&
              r[c].(articleCount := categories[c].articleCount) == categories[c]
  {
    map c | c in categories :: if c in ids then UpdateArticleCount(categories[c], delta) else categories[c]
  }

  /** Two adjustments of the same categories add up, so the two delete
      hooks and the controller's own decrement amount to one adjustment by
      their sum. */
  lemma BumpTwice(categories: Categories, ids: set<CategoryModel.Id>, d: int, e: int)
    ensures Bump(Bump(categories, ids, d), ids, e) == Bump(categories, ids, d + e)
  {
    var l, r := Bump(Bump(categories, ids, d), ids, e), Bump(categories, ids, d + e);
    forall c | c in l ensures l[c] == r[c] {
      if c in ids {
        UpdateArticleCountAdds(categories[c], d, e);
      }
    }
    assert l.Keys == r.Keys;
  }

  /** Counters outside `ids` are untouched; the set of categories never
      changes. */
  lemma BumpOthers(categories: Categories, ids: set<CategoryModel.Id>, delta: int, c: CategoryModel.Id)
    requires c in categories && c !in ids
    ensures Bump(categories, ids, delta)[c] == categories[c]
  {
  }

  /** `$inc` with delta 0 is no change. */
  lemma BumpZero(categories: Categories, ids: set<CategoryModel.Id>)
    ensures Bump(categories, ids, 0) == categories
  {
    forall c | c in categories && c in ids
      ensures UpdateArticleCount(categories[c], 0) == categories[c]
    {
      UpdateArticleCountAdds(categories[c], 0, 0);
    }
  }

  /** Adjusting no category changes nothing. */
  lemma BumpNothing(categories: Categories, d: int)
    ensures Bump(categories, {}, d) == categories
  {
    assert Bump(categories, {}, d).Keys == categories.Keys;
  }

  /** The category ids an article lists, as the `$in` set. */
  function Listed(cats: seq<CategoryModel.Id>): set<CategoryModel.Id> {
    set c | c in cats
  }

  /** Creating article `id` that lists `cats` and incrementing each listed
      category keeps the counters right. */
  lemma InsertKeepsConsistent(articles: Articles, categories: Categories, id: ArticleModel.Id, b: Article)
    requires Consistent(articles, categories) && id !in articles
    requires forall c :: c in b.categories ==> c in categories
    ensures Consistent(articles[id := b], Bump(categories, Listed(b.categories), 1))
  {
    var cats := Bump(categories, Listed(b.categories), 1);
    forall c | c in cats ensures cats[c].articleCount == Count(articles[id := b], c) {
      CountInsert(articles, id, b, c);
    }
  }

  /** Deleting article `id` and decrementing each of its categories once
      keeps the counters right. */
  lemma RemoveKeepsConsistent(articles: Articles, categories: Categories, id: ArticleModel.Id)
    requires Consistent(articles, categories) && id in articles
    ensures Consistent(articles - {id}, Bump(categories, Listed(articles[id].categories), -1))
  {
    var cats := Bump(categories, Listed(articles[id].categories), -1);
    forall c | c in cats ensures cats[c].articleCount == Count(articles - {id}, c) {
      CountRemove(articles, id, c);
    }
  }

  /** Replacing article `id` by `b`, decrementing the categories only the
      old version lists and incrementing those only the new one lists,
      keeps the counters right. */
  lemma ReplaceKeepsConsistent(articles: Articles, categories: Categories, id: ArticleModel.Id, b: Article)
    requires Consistent(articles, categories) && id in articles
    requires forall c :: c in b.categories ==> c in categories
    ensures Consistent(articles[id := b],
                       Bump(Bump(categories, Listed(articles[id].categories) - Listed(b.categories), -1),
                            Listed(b.categories) - Listed(articles[id].categories), 1))
  {
    var old_, new_ := Listed(articles[id].categories), Listed(b.categories);
    var cats := Bump(Bump(categories, old_ - new_, -1), new_ - old_, 1);
    forall c | c in cats ensures cats[c].articleCount == Count(articles[id := b], c) {
      CountReplace(articles, id, b, c);
    }
  }

  /** A category whose counter is 0 in a consistent store is listed by no
      article, so deleting it leaves every article's categories existing. */
  lemma DeleteCategoryKeepsConsistent(articles: Articles, categories: Categories, c: CategoryModel.Id)
    requires Consistent(articles, categories) && c in categories
    requires CanBeDeleted(categories[c])
    ensures Consistent(articles, categories - {c})
  {
    CountZero(articles, c);
  }

  /** A category that is new to the store has no articles, so adding it
      with a counter of 0 keeps the store consistent. */
  lemma InsertCategoryKeepsConsistent(articles: Articles, categories: Categories, c: CategoryModel.Id, k: Category)
    requires Consistent(articles, categories) && c !in categories
    requires k.articleCount == 0
    ensures Consistent(articles, categories[c := k])
  {
    CountZero(articles, c);
  }

  /** Changing a category's other fields keeps the store consistent. */
  lemma ReplaceCategoryKeepsConsistent(articles: Articles, categories: Categories, c: CategoryModel.Id, k: Category)
    requires Consistent(articles, categories) && c in categories
    requires k.articleCount == categories[c].articleCount
    ensures Consistent(articles, categories[c := k])
  {
  }
}

/** Query-parameter normalisation and pagination arithmetic
    (src/utils/sortUtils.js).  Request values are `Js.Value`s; a parameter
    missing from the query is `Undefined`. */
module SortUtils {
  import opened Js

  /** `normalizeSortOrder`: 1 for ascending, -1 for descending. */
  function NormalizeSortOrder(v: Value): (r: int)
    ensures r == 1 || r == -1
  {
    if v.Str? && (Lower(v.s) == "asc" || Lower(v.s) == "1") then 1
    else if v.Str? && (Lower(v.s) == "desc" || Lower(v.s) == "-1") then -1
    else if v.Num? then SignOrder(v.n)
    else SignOrder(ParseIntValue(v))
  }

  /** The sign rule shared by numbers and numeric strings: NaN sorts
      descending. */
  function SignOrder(n: Number): int {
    if n.Int? && n.i >= 0 then 1 else -1
  }

  /** 'asc' and '1' in any letter case sort ascending; 'desc' and '-1'
      descending. */
  lemma KeywordOrders(s: string)
    ensures Lower(s) == "asc" || Lower(s) == "1" ==> NormalizeSortOrder(Str(s)) == 1
    ensures Lower(s) == "desc" || Lower(s) == "-1" ==> NormalizeSortOrder(Str(s)) == -1
  {
  }

  /** Any other string is read with parseInt: its sign decides, and text
      that is no number sorts descending. */
  lemma OtherStringsBySign(s: string)
    requires Lower(s) !in {"asc", "1", "desc", "-1"}
    ensures NormalizeSortOrder(Str(s)) == SignOrder(ParseInt(s))
  {
  }

  /** A number sorts by its sign, NaN descending; values that are neither
      strings nor numbers are read through parseInt(String(v)). */
  lemma NumbersBySign(n: Number)
    ensures NormalizeSortOrder(Num(n)) == SignOrder(n)
  {
  }

  /** The written-out sort orders read back as themselves. */
  lemma NormalizeOfInt(i: int)
    ensures NormalizeSortOrder(Str(IntToString(i))) == (if i >= 0 then 1 else -1)
  {
    ParseIntOfIntToString(i);
    var s := IntToString(i);
    IntToStringLowerFixed(i);
    LowerOfFixed(s);
    if s == "1" {
      IntToStringInjective(i, 1);
    } else if s == "-1" {
      IntToStringInjective(i, -1);
    }
  }

  /** `validateSortField`: the requested field when it is a string on the
      allow-list, the default otherwise. */
  function ValidateSortField(sortBy: Value, allowedFields: seq<string>, defaultField: string): (r: string)
    ensures r in allowedFields || r == defaultField
    ensures r != defaultField ==> sortBy == Str(r)
    ensures sortBy.Str? && sortBy.s in allowedFields ==> r == sortBy.s
  {
    if sortBy.Str? && sortBy.s in allowedFields then sortBy.s else defaultField
  }

  const ArticleSortFields: seq<string> :=
    ["createdAt", "updatedAt", "publishedAt", "title", "viewCount", "likeCount",
     "commentCount", "status", "featured", "readingTime", "seoScore"]

  const CategorySortFields: seq<string> := ["createdAt", "updatedAt", "name", "sortOrder", "articleCount"]

  /** A MongoDB sort object with a single key. */
  datatype SortKey = SortKey(field: string, order: int)

  /** `createSortObject`: one key, from the allow-list or 'createdAt', with
      direction 1 or -1. */
  function CreateSortObject(sortBy: Value, sortOrder: Value, allowedFields: seq<string>): (r: SortKey)
    ensures r.field in allowedFields || r.field == "createdAt"
    ensures r.order == 1 || r.order == -1
    ensures r.order == NormalizeSortOrder(sortOrder)
    ensures r.field == ValidateSortField(sortBy, allowedFields, "createdAt")
  {
    SortKey(ValidateSortField(sortBy, allowedFields, "createdAt"), NormalizeSortOrder(sortOrder))
  }

  /** The parsed pagination parameters. */
  datatype PageParams = PageParams(page: int, limit: int, sortBy: string, sortOrder: string)

  /** The destructuring default: it applies to an absent (undefined) value
      only, not to null. */
  function Default(v: Value, d: Value): Value {
    if v.Undefined? then d else v
  }

  /** `parsePaginationParams` */
  function ParsePaginationParams(page: Value, limit: Value, sortBy: Value, sortOrder: Value): (r: PageParams)
    ensures r.page >= 1
    ensures 1 <= r.limit <= 100
  {
    PageParams(Max(1, ParseIntOr(Default(page, Num(Int(1))), 1)),
               Min(100, Max(1, ParseIntOr(Default(limit, Num(Int(10))), 10))),
               ToStr(Default(sortBy, Str("createdAt"))),
               ToStr(Default(sortOrder, Str("desc"))))
  }

  /** A page or limit that parses to 0 or NaN falls back to 1 or to 10
      (not to 1, as the clamp alone would give). */
  lemma ZeroOrNaNFallBack(page: Value, limit: Value, sortBy: Value, sortOrder: Value)
    ensures var p := ParseIntValue(Default(page, Num(Int(1))));
            (p.NaN? || p.i == 0) ==> ParsePaginationParams(page, limit, sortBy, sortOrder).page == 1
    ensures var l := ParseIntValue(Default(limit, Num(Int(10))));
            (l.NaN? || l.i == 0) ==> ParsePaginationParams(page, limit, sortBy, sortOrder).limit == 10
  {
  }

  /** Absent parameters give page 1, limit 10, 'createdAt', 'desc'. */
  lemma PaginationDefaults()
    ensures ParsePaginationParams(Undefined, Undefined, Undefined, Undefined) == PageParams(1, 10, "createdAt", "desc")
  {
    ParseIntPlain("1", 1);
    ParseIntPlain("10", 10);
  }

  /** A page number or limit written as text in range is taken as is. */
  lemma PaginationInRange(page: nat, limit: nat, sortBy: Value, sortOrder: Value)
    requires page >= 1 && 1 <= limit <= 100
    ensures var r := ParsePaginationParams(Str(NatToString(page)), Str(NatToString(limit)), sortBy, sortOrder);
            r.page == page && r.limit == limit
  {
    ParseIntPlain(NatToString(page), page);
    ParseIntPlain(NatToString(limit), limit);
  }

  /** The pagination block of a list response. */
  datatype Pagination = Pagination(currentPage: int, totalPages: int, totalItems: nat, limit: int,
                                   hasNextPage: bool, hasPrevPage: bool)

  /** `createPaginationResponse` (and the same arithmetic in the models'
      findWithPagination). */
  function CreatePaginationResponse(total: nat, page: int, limit: int): (r: Pagination)
    requires limit >= 1
    ensures r.currentPage == page && r.totalItems == total && r.limit == limit
    ensures (r.totalPages - 1) * limit < total <= r.totalPages * limit
    ensures r.hasNextPage <==> page < r.totalPages
    ensures r.hasPrevPage <==> page > 1
  {
    var totalPages := CeilDiv(total, limit);
    Pagination(page, totalPages, total, limit, page < totalPages, page > 1)
  }

  /** The number of items the query skips for a page. */
  function Skip(page: int, limit: int): int {
    (page - 1) * limit
  }

  /** totalPages is the least number of pages of `limit` items that holds
      every item: with fewer pages some item is left over. */
  lemma TotalPagesLeast(total: nat, page: int, limit: int, pages: int)
    requires limit >= 1
    requires pages * limit >= total
    ensures CreatePaginationResponse(total, page, limit).totalPages <= pages
  {
    var t := CreatePaginationResponse(total, page, limit).totalPages;
    if t > pages {
      assert (t - 1) * limit >= pages * limit by {
        assert t - 1 >= pages;
        MulMonotone(pages, t - 1, limit);
      }
    }
  }

  lemma MulMonotone(a: int, b: int, c: int)
    requires a <= b && c >= 0
    ensures a * c <= b * c
  {
  }

  /** Item i (counting from 0) is shown on page i / limit + 1, which is a
      page that exists; the page after the current one exists exactly when
      some item lies beyond the current page. */
  lemma ItemsOnPages(total: nat, page: int, limit: int, i: nat)
    requires limit >= 1 && page >= 1 && i < total
    ensures var p := i / limit + 1;
            Skip(p, limit) <= i < Skip(p, limit) + limit &&
            1 <= p <= CreatePaginationResponse(total, page, limit).totalPages
    ensures CreatePaginationResponse(total, page, limit).hasNextPage <==> page * limit < total
  {
    var t := CreatePaginationResponse(total, page, limit).totalPages;
    var p := i / limit + 1;
    assert Skip(p, limit) == (i / limit) * limit;
    if p > t {
      assert p - 1 >= t;
      MulMonotone(t, p - 1, limit);
    }
    if page < t {
      MulMonotone(page, t - 1, limit);
    } else {
      MulMonotone(t, page, limit);
    }
  }

  /** Twenty-five items at ten per page make three pages. */
  lemma ThreePages()
    ensures CreatePaginationResponse(25, 1, 10).totalPages == 3
  {
  }
}

/** The Category model: the stored record and its schema constraints
    (src/models/Category/schema.js), the virtuals (virtuals.js), the
    instance methods (methods.js), the sort rule and counter update of the
    statics (statics.js), the save and query hooks (hooks.js) and the sort
    normalisation of the list endpoint (src/controllers/category/crud.js).
    Optional text fields that are absent are the empty string. */
module CategoryModel {
  import opened Wrappers
  import opened Js
  import Patterns
  import Slug
  import Labels
  import SortUtils

  type Id = string

  const Active := "active"
  const Inactive := "inactive"
  const DefaultColor := "#3B82F6"

  /** A stored category.  The timestamps are None while unset. */
  datatype Category = Category(
    name: string, slug: string, description: string, status: string,
    metaTitle: string, metaDescription: string, sortOrder: int, color: string, icon: string,
    articleCount: int, createdBy: Id, updatedBy: Id, createdAt: Option<int>, updatedAt: Option<int>)

  // ---------------------------------------------------------------------
  // Schema
  // ---------------------------------------------------------------------

  /** `/^#([A-Fa-f0-9]{6}|[A-Fa-f0-9]{3})$/` */
  predicate HexColor(s: string) {
    (|s| == 7 || |s| == 4) && s[0] == '#' && forall i :: 1 <= i < |s| ==> Patterns.HexDigit(s[i])
  }

  /** The schema validators on a stored document (whose string fields the
      `trim` setters have already trimmed): a name of 2..100 characters, a
      slug of the pattern `^[a-z0-9]+(?:-[a-z0-9]+)*$` of at most 150, one of
      the two statuses, the length caps, a hex colour when set, and a
      non-negative sort order and article count. */
  predicate CategoryValid(c: Category) {
    Trimmed(c.name) && 2 <= |c.name| <= 100 &&
    Slug.ValidSlug(c.slug) && |c.slug| <= 150 &&
    |c.description| <= 500 &&
    c.status in {Active, Inactive} &&
    |c.metaTitle| <= 60 && |c.metaDescription| <= 160 &&
    c.sortOrder >= 0 &&
    (c.color == "" || HexColor(c.color)) &&
    |c.icon| <= 50 &&
    c.articleCount >= 0
  }

  // ---------------------------------------------------------------------
  // Virtuals
  // ---------------------------------------------------------------------

  /** The `url` virtual. */
  function Url(c: Category): string {
    "/categories/" + c.slug
  }

  /** Two categories share a URL only when they share a slug. */
  lemma UrlInjective(a: Category, b: Category)
    ensures Url(a) == Url(b) <==> a.slug == b.slug
  {
    if Url(a) == Url(b) {
      assert a.slug == Url(a)[12..] && b.slug == Url(b)[12..];
    }
  }

  const StatusLabels: map<string, string> :=
    map[Active := "Hoạt động", Inactive := "Không hoạt động"]

  /** `statusDisplay` */
  function StatusDisplay(status: string): string {
    Labels.StatusLabel(StatusLabels, status)
  }

  /** The two statuses get different labels, and any other value is shown
      as it is. */
  lemma StatusDisplayLabels(status: string)
    ensures StatusDisplay(Active) == "Hoạt động" && StatusDisplay(Inactive) == "Không hoạt động"
    ensures status !in {Active, Inactive} ==> StatusDisplay(status) == status
  {
  }

  /** The `isActive` virtual. */
  predicate IsActive(c: Category) { c.status == Active }

  /** The `hasArticles` virtual. */
  predicate HasArticles(c: Category) { c.articleCount > 0 }

  /** `createdTimeAgo` */
  function CreatedTimeAgo(c: Category, now: int): Option<string> {
    Labels.TimeAgoLabel(c.createdAt, now)
  }

  /** `updatedTimeAgo` */
  function UpdatedTimeAgo(c: Category, now: int): Option<string> {
    Labels.TimeAgoLabel(c.updatedAt, now)
  }

  /** `articleCountDisplay` */
  function ArticleCountDisplay(c: Category): string {
    Labels.CountLabel(c.articleCount, "Chưa có bài viết", " bài viết")
  }

  /** The article label names the count: no articles, a fixed text;
      different counts, different labels. */
  lemma ArticleCountDisplayDistinct(a: Category, b: Category)
    ensures a.articleCount == 0 ==> ArticleCountDisplay(a) == "Chưa có bài viết"
    ensures ArticleCountDisplay(a) == ArticleCountDisplay(b) ==> a.articleCount == b.articleCount
  {
    if ArticleCountDisplay(a) == ArticleCountDisplay(b) {
      Labels.CountLabelInjective(a.articleCount, b.articleCount, "Chưa có bài viết", " bài viết");
    }
  }

  /** `s.replace('#', '')`: only the first '#' goes. */
  function DropFirstHash(s: string): (r: string)
    ensures '#' !in s ==> r == s
    ensures s != [] && s[0] == '#' ==> r == s[1..]
  {
    if s == [] then []
    else if s[0] == '#' then s[1..]
    else [s[0]] + DropFirstHash(s[1..])
  }

  /** `s.substr(start, 2)` for a non-negative start. */
  function Pair(s: string, start: nat): (r: string)
    ensures |r| <= 2
  {
    if start >= |s| then [] else if start + 2 >= |s| then s[start..] else s[start..start + 2]
  }

  /** A number as a template literal shows it. */
  function NumberText(n: Number): string {
    if n.NaN? then "NaN" else IntToString(n.i)
  }

  function Rgba(r: string, g: string, b: string): string {
    "rgba(" + r + ", " + g + ", " + b + ", 0.1)"
  }

  /** `colorWithOpacity` as written: null without a colour; else the hex
      pairs at offsets 0, 2 and 4 of the colour without its '#', each read
      by `parseInt(…, 16)`. */
  function ColorWithOpacity(c: Category): (r: Option<string>)
    ensures r.None? <==> c.color == ""
  {
    if c.color == "" then None
    else
      var hex := DropFirstHash(c.color);
      Some(Rgba(NumberText(ParseIntRadix(Pair(hex, 0), 16)),
                NumberText(ParseIntRadix(Pair(hex, 2), 16)),
                NumberText(ParseIntRadix(Pair(hex, 4), 16))))
  }

  /** The value of two hex digits. */
  function HexByte(hi: char, lo: char): (v: nat)
    requires Patterns.HexDigit(hi) && Patterns.HexDigit(lo)
    ensures v <= 255
  {
    DigitVal(hi) * 16 + DigitVal(lo)
  }

  /** `parseInt(p, 16)` of two hex digits is their byte value. */
  lemma ParsePair(p: string)
    requires |p| == 2 && Patterns.HexDigit(p[0]) && Patterns.HexDigit(p[1])
    ensures ParseIntRadix(p, 16) == Int(HexByte(p[0], p[1]))
  {
    HexDigitNotSpace(p[0]);
    HexDigitNotSpace(p[1]);
    TrimStartKeeps(p);
    MagnitudePair(p);
  }

  lemma MagnitudePair(p: string)
    requires |p| == 2 && DigitVal(p[0]) < 16 && DigitVal(p[1]) < 16 && p[1] != 'x' && p[1] != 'X'
    ensures ParseMagnitude(p, 16) == Int(DigitVal(p[0]) * 16 + DigitVal(p[1]))
  {
    assert DigitRun(p, 16) == 2 by {
      assert DigitRun(p[1..], 16) == 1 by {
        assert p[1..][1..] == [];
      }
    }
    assert p[..2] == p;
    assert DigitsValue(p[..1], 16) == DigitVal(p[0]) by {
      assert p[..1][..0] == [];
    }
  }

  /** For a six-digit colour, colorWithOpacity shows the three bytes of
      the colour, each in 0..255. */
  lemma ColorWithOpacitySixDigits(c: Category)
    requires HexColor(c.color) && |c.color| == 7
    ensures var s := c.color;
            ColorWithOpacity(c) ==
              Some(Rgba(IntToString(HexByte(s[1], s[2])), IntToString(HexByte(s[3], s[4])),
                        IntToString(HexByte(s[5], s[6]))))
  {
    var s := c.color;
    var hex := DropFirstHash(s);
    assert hex == s[1..];
    assert Pair(hex, 0) == [s[1], s[2]];
    assert Pair(hex, 2) == [s[3], s[4]];
    assert Pair(hex, 4) == [s[5], s[6]];
    ParsePair(Pair(hex, 0));
    ParsePair(Pair(hex, 2));
    ParsePair(Pair(hex, 4));
  }

  /** For a three-digit colour the first pair mixes the red and green
      digits, the second pair is the blue digit alone, and the third pair
      is empty and reads as NaN. */
  lemma ColorWithOpacityThreeDigits(c: Category)
    requires HexColor(c.color) && |c.color| == 4
    ensures var s := c.color;
            ColorWithOpacity(c) ==
              Some(Rgba(IntToString(HexByte(s[1], s[2])), IntToString(DigitVal(s[3])), "NaN"))
  {
    var s := c.color;
    var hex := DropFirstHash(s);
    assert hex == s[1..];
    assert Pair(hex, 0) == [s[1], s[2]];
    assert Pair(hex, 2) == [s[3]];
    assert Pair(hex, 4) == [];
    ParsePair(Pair(hex, 0));
    ParseSingle(Pair(hex, 2));
    assert ParseIntRadix([], 16) == NaN;
  }

  lemma ParseSingle(p: string)
    requires |p| == 1 && Patterns.HexDigit(p[0])
    ensures ParseIntRadix(p, 16) == Int(DigitVal(p[0]))
  {
    HexDigitNotSpace(p[0]);
    TrimStartKeeps(p);
    MagnitudeSingle(p);
  }

  lemma HexDigitNotSpace(c: char)
    requires Patterns.HexDigit(c)
    ensures !IsSpace(c) && c != '-' && c != '+' && DigitVal(c) < 16
  {
  }

  lemma MagnitudeSingle(p: string)
    requires |p| == 1 && DigitVal(p[0]) < 16
    ensures ParseMagnitude(p, 16) == Int(DigitVal(p[0]))
  {
    assert p[1..] == [];
    assert DigitRun(p, 16) == 1;
    assert p[..1] == p && p[..0] == [];
    assert DigitsValue(p, 16) == DigitsValue(p[..0], 16) * 16 + DigitVal(p[0]);
  }

  /** The discrepancy on one input: '#F00' (pure red) is shown as
      'rgba(240, 0, NaN, 0.1)', while the corrected virtual shows
      'rgba(255, 0, 0, 0.1)'. */
  lemma ColorWithOpacityShortColor(c: Category)
    requires c.color == ['#', 'F', '0', '0']
    ensures HexColor(c.color)
    ensures ColorWithOpacity(c) == Some(Rgba(IntToString(240), IntToString(0), "NaN"))
    ensures ColorWithOpacityExpanded(c) == Some(Rgba(IntToString(255), IntToString(0), IntToString(0)))
  {
    ShortColorHex(c.color);
    ShortColorAsWritten(c);
    ShortColorExpanded(c);
  }

  lemma ShortColorHex(s: string)
    requires s == ['#', 'F', '0', '0']
    ensures HexColor(s)
  {
    forall i | 1 <= i < |s| ensures Patterns.HexDigit(s[i]) {
      assert s[i] == 'F' || s[i] == '0';
    }
  }

  lemma ShortColorAsWritten(c: Category)
    requires c.color == ['#', 'F', '0', '0']
    ensures ColorWithOpacity(c) == Some(Rgba(IntToString(240), IntToString(0), "NaN"))
  {
    ColorWithOpacityThreeDigits(c);
    assert HexByte('F', '0') == 240;
  }

  lemma ShortColorExpanded(c: Category)
    requires c.color == ['#', 'F', '0', '0']
    ensures ColorWithOpacityExpanded(c) == Some(Rgba(IntToString(255), IntToString(0), IntToString(0)))
  {
    ShortColorHex(c.color);
    ColorWithOpacityExpandedBytes(c);
    var e := ExpandColor(c.color);
    assert e[1] == 'F' && e[2] == 'F' && e[3] == '0' && e[4] == '0' && e[5] == '0' && e[6] == '0';
    RedBytes();
  }

  lemma RedBytes()
    ensures HexByte('F', 'F') == 255 && HexByte('0', '0') == 0
  {
  }

  /** `#RGB` written out as `#RRGGBB`; a six-digit colour is unchanged. */
  function ExpandColor(s: string): (r: string)
    requires HexColor(s)
    ensures HexColor(r) && |r| == 7
  {
    if |s| == 7 then s else ['#', s[1], s[1], s[2], s[2], s[3], s[3]]
  }

  /** colorWithOpacity reading every valid colour as the CSS colour it
      denotes: a three-digit colour is expanded first. */
  function ColorWithOpacityExpanded(c: Category): (r: Option<string>)
    requires c.color == "" || HexColor(c.color)
    ensures r.None? <==> c.color == ""
  {
    if c.color == "" then None
    else ColorWithOpacity(c.(color := ExpandColor(c.color)))
  }

  /** For every colour the schema accepts, the corrected virtual shows the
      three bytes of the colour it denotes. */
  lemma ColorWithOpacityExpandedBytes(c: Category)
    requires HexColor(c.color)
    ensures var s := ExpandColor(c.color);
            ColorWithOpacityExpanded(c) ==
              Some(Rgba(IntToString(HexByte(s[1], s[2])), IntToString(HexByte(s[3], s[4])),
                        IntToString(HexByte(s[5], s[6]))))
  {
    ColorWithOpacitySixDigits(c.(color := ExpandColor(c.color)));
  }

  // ---------------------------------------------------------------------
  // Statics
  // ---------------------------------------------------------------------

  /** The sort direction of `findWithPagination`: a number that is not NaN
      is kept, anything else becomes -1. */
  function ValidSortOrder(v: Value): int {
    if v.Num? && v.n.Int? then v.n.i else -1
  }

  /** The query `findWithPagination` runs for a page: items to skip, the
      sort key, and the page metadata for `total` matching categories. */
  datatype PageQuery = PageQuery(skip: int, sort: SortUtils.SortKey, pagination: SortUtils.Pagination)

  function FindWithPagination(total: nat, page: int, limit: int, sortBy: string, sortOrder: Value): (q: PageQuery)
    requires limit >= 1
    ensures q.skip == (page - 1) * limit
    ensures q.sort.field == sortBy
    ensures sortOrder.Num? && sortOrder.n.Int? ==> q.sort.order == sortOrder.n.i
    ensures !(sortOrder.Num? && sortOrder.n.Int?) ==> q.sort.order == -1
    ensures (q.pagination.totalPages - 1) * limit < total <= q.pagination.totalPages * limit
    ensures q.pagination.hasNextPage <==> page < q.pagination.totalPages
    ensures q.pagination.hasPrevPage <==> page > 1
  {
    PageQuery(SortUtils.Skip(page, limit), SortUtils.SortKey(sortBy, ValidSortOrder(sortOrder)),
              SortUtils.CreatePaginationResponse(total, page, limit))
  }

  /** `updateArticleCount`: an atomic `$inc` with no lower bound. */
  function UpdateArticleCount(c: Category, increment: int): (r: Category)
    ensures r.articleCount == c.articleCount + increment
    ensures r.(articleCount := c.articleCount) == c
  {
    c.(articleCount := c.articleCount + increment)
  }

  /** The increments add up, so a sequence of `$inc`s leaves the count
      shifted by their sum, negative totals included. */
  lemma UpdateArticleCountAdds(c: Category, i: int, j: int)
    ensures UpdateArticleCount(UpdateArticleCount(c, i), j) == UpdateArticleCount(c, i + j)
  {
  }

  // ---------------------------------------------------------------------
  // Instance methods, as functions of the record
  // ---------------------------------------------------------------------

  /** `activate` / `deactivate` */
  function WithStatus(c: Category, status: string): (r: Category)
    ensures r.status == status && r.(status := c.status) == c
  {
    c.(status := status)
  }

  /** `toggleStatus`: 'active' becomes 'inactive', anything else 'active'. */
  function Toggled(c: Category): (r: Category)
    ensures r.status == (if c.status == Active then Inactive else Active)
    ensures r.(status := c.status) == c
  {
    c.(status := if c.status == Active then Inactive else Active)
  }

  /** Toggling flips the isActive virtual, and toggling twice restores a
      category with one of the two statuses. */
  lemma ToggleFlips(c: Category)
    ensures IsActive(Toggled(c)) <==> !IsActive(c)
    ensures c.status in {Active, Inactive} ==> Toggled(Toggled(c)) == c
  {
  }

  /** `incrementArticleCount(count)` */
  function Incremented(c: Category, count: int): (r: Category)
    ensures r.articleCount == c.articleCount + count && r.(articleCount := c.articleCount) == c
  {
    c.(articleCount := c.articleCount + count)
  }

  /** `decrementArticleCount(count)`: clamped at zero. */
  function Decremented(c: Category, count: int): (r: Category)
    ensures r.articleCount >= 0
    ensures r.articleCount == Max(0, c.articleCount - count)
    ensures r.(articleCount := c.articleCount) == c
  {
    c.(articleCount := Max(0, c.articleCount - count))
  }

  /** Decrementing by what was added restores a non-negative count. */
  lemma DecrementUndoesIncrement(c: Category, count: int)
    requires c.articleCount >= 0
    ensures Decremented(Incremented(c, count), count) == c
  {
  }

  /** `resetArticleCount` */
  function Reset(c: Category): (r: Category)
    ensures r.articleCount == 0 && r.(articleCount := c.articleCount) == c
  {
    c.(articleCount := 0)
  }

  /** `canBeDeleted`: exactly zero articles. */
  predicate CanBeDeleted(c: Category) {
    c.articleCount == 0
  }

  /** A category that counts no article can be deleted after a reset, and a
      negative count (which `$inc` can produce) blocks deletion although no
      article is counted. */
  lemma CanBeDeletedCases(c: Category)
    ensures CanBeDeleted(Reset(c))
    ensures c.articleCount < 0 ==> !CanBeDeleted(c) && !HasArticles(c)
    ensures CanBeDeleted(c) <==> c.articleCount == 0
  {
  }

  /** `duplicate(newName)`: the record handed to `Category.create`, with
      `used` the slugs already taken. */
  function Duplicate(c: Category, newName: string, used: set<string>): (r: Category)
    ensures r.name == (if newName != "" then newName else c.name + " (Copy)")
    ensures r.slug !in used && r.slug == Slug.UniqueSlug(r.name, used)
    ensures r.status == Inactive && r.articleCount == 0 && r.sortOrder == c.sortOrder + 1
    ensures r.metaTitle == (if c.metaTitle != "" then c.metaTitle + " (Copy)" else "")
    ensures r.description == c.description && r.metaDescription == c.metaDescription
    ensures r.color == c.color && r.icon == c.icon
    ensures r.createdBy == c.createdBy && r.updatedBy == c.updatedBy
  {
    var name := if newName != "" then newName else c.name + " (Copy)";
    Category(name, Slug.UniqueSlug(name, used), c.description, Inactive,
             if c.metaTitle != "" then c.metaTitle + " (Copy)" else "",
             c.metaDescription, c.sortOrder + 1, c.color, c.icon, 0,
             c.createdBy, c.updatedBy, None, None)
  }

  /** A copy never counts articles and can always be deleted; a copy of a
      valid category keeps a valid status, sort order and count. */
  lemma DuplicateDeletable(c: Category, newName: string, used: set<string>)
    ensures CanBeDeleted(Duplicate(c, newName, used))
    ensures !IsActive(Duplicate(c, newName, used))
    ensures CategoryValid(c) ==> Duplicate(c, newName, used).sortOrder >= 1
  {
  }

  /** The fields `updateFromImport` copies, each None when the import
      leaves it undefined. */
  datatype ImportData = ImportData(
    name: Option<string>, description: Option<string>, status: Option<string>,
    metaTitle: Option<string>, metaDescription: Option<string>, sortOrder: Option<int>,
    color: Option<string>, icon: Option<string>)

  /** The assignment loop of `updateFromImport`: every allowed field the
      import defines is copied through the schema's setters, which trim
      every text field but the status. */
  function Assign(c: Category, d: ImportData): (r: Category)
    ensures r.name == (if d.name.Some? then Trim(d.name.value) else c.name)
    ensures r.description == (if d.description.Some? then Trim(d.description.value) else c.description)
    ensures r.status == d.status.GetOr(c.status)
    ensures r.metaTitle == (if d.metaTitle.Some? then Trim(d.metaTitle.value) else c.metaTitle)
    ensures r.metaDescription == (if d.metaDescription.Some? then Trim(d.metaDescription.value) else c.metaDescription)
    ensures r.sortOrder == d.sortOrder.GetOr(c.sortOrder)
    ensures r.color == (if d.color.Some? then Trim(d.color.value) else c.color)
    ensures r.icon == (if d.icon.Some? then Trim(d.icon.value) else c.icon)
    ensures r.slug == c.slug && r.articleCount == c.articleCount
    ensures r.createdBy == c.createdBy && r.updatedBy == c.updatedBy
    ensures r.createdAt == c.createdAt && r.updatedAt == c.updatedAt
  {
    c.(name := SetTrimmed(d.name, c.name), description := SetTrimmed(d.description, c.description),
       status := d.status.GetOr(c.status), metaTitle := SetTrimmed(d.metaTitle, c.metaTitle),
       metaDescription := SetTrimmed(d.metaDescription, c.metaDescription),
       sortOrder := d.sortOrder.GetOr(c.sortOrder), color := SetTrimmed(d.color, c.color),
       icon := SetTrimmed(d.icon, c.icon))
  }

  /** `this[field] = value` on a field with the `trim` setter. */
  function SetTrimmed(v: Option<string>, old_: string): string {
    if v.Some? then Trim(v.value) else old_
  }

  function WithUpdater(c: Category, userId: Option<Id>): Category {
    if userId.Some? && userId.value != "" then c.(updatedBy := userId.value) else c
  }

  /** `updateFromImport` as written: the import's name is compared with
      the document's name after the assignment loop has already copied it
      (trimmed), so the slug is refreshed only when the imported name has
      surrounding whitespace, whether or not the name changed.  `used`
      holds the other categories' slugs. */
  function UpdateFromImportAsWritten(c: Category, d: ImportData, userId: Option<Id>, used: set<string>): (r: Category)
    ensures r.(slug := c.slug, updatedBy := c.updatedBy) == Assign(c, d)
    ensures r.updatedBy == (if userId.Some? && userId.value != "" then userId.value else c.updatedBy)
  {
    var a := Assign(c, d);
    var b := if d.name.Some? && d.name.value != "" && d.name.value != a.name
             then a.(slug := Slug.UniqueSlug(a.name, used)) else a;
    WithUpdater(b, userId)
  }

  /** As written, a trimmed imported name never refreshes the slug, even
      when it renames the category. */
  lemma ImportSlugRefreshDead(c: Category, d: ImportData, userId: Option<Id>, used: set<string>)
    requires d.name.None? || Trimmed(d.name.value)
    ensures UpdateFromImportAsWritten(c, d, userId, used).slug == c.slug
    ensures UpdateFromImportAsWritten(c, d, userId, used).name == d.name.GetOr(c.name)
  {
    if d.name.Some? {
      TrimOfTrimmed(d.name.value);
    }
  }

  /** As written, an imported name with surrounding whitespace refreshes
      the slug, even when its trimmed form is the stored name. */
  lemma ImportPaddedNameRefreshes(c: Category, d: ImportData, userId: Option<Id>, used: set<string>)
    requires d.name.Some? && d.name.value != Trim(d.name.value)
    ensures UpdateFromImportAsWritten(c, d, userId, used).slug == Slug.UniqueSlug(Trim(d.name.value), used)
  {
  }

  /** `updateFromImport` with the name compared before it is overwritten:
      a new non-empty name, once trimmed, brings a new unique slug. */
  function Imported(c: Category, d: ImportData, userId: Option<Id>, used: set<string>): (r: Category)
    ensures d.name.Some? && d.name.value != "" && Trim(d.name.value) != c.name ==>
              r.slug == Slug.UniqueSlug(Trim(d.name.value), used) && r.slug !in used
    ensures !(d.name.Some? && d.name.value != "" && Trim(d.name.value) != c.name) ==> r.slug == c.slug
    ensures r.(slug := c.slug, updatedBy := c.updatedBy) == Assign(c, d)
    ensures r.updatedBy == (if userId.Some? && userId.value != "" then userId.value else c.updatedBy)
  {
    var a := Assign(c, d);
    var b := if d.name.Some? && d.name.value != "" && Trim(d.name.value) != c.name
             then a.(slug := Slug.UniqueSlug(a.name, used)) else a;
    WithUpdater(b, userId)
  }

  /** `Imported` is the updater applied to the assigned document, with the
      slug refreshed exactly on a rename. */
  lemma ImportedSteps(c: Category, d: ImportData, userId: Option<Id>, used: set<string>, renamed: bool, b: Category)
    requires renamed == (d.name.Some? && d.name.value != "" && Trim(d.name.value) != c.name)
    requires b == (if renamed then Assign(c, d).(slug := Slug.UniqueSlug(Assign(c, d).name, used)) else Assign(c, d))
    ensures Imported(c, d, userId, used) == WithUpdater(b, userId)
  {
  }

  /** The two versions differ whenever the import renames the category to
      a trimmed name whose slug differs from the stored one. */
  lemma ImportVersionsDiffer(c: Category, d: ImportData, userId: Option<Id>, used: set<string>)
    requires d.name.Some? && d.name.value != "" && Trimmed(d.name.value) && d.name.value != c.name
    requires Slug.UniqueSlug(d.name.value, used) != c.slug
    ensures UpdateFromImportAsWritten(c, d, userId, used) != Imported(c, d, userId, used)
  {
    ImportSlugRefreshDead(c, d, userId, used);
    TrimOfTrimmed(d.name.value);
  }

  /** Messages of `validateData`. */
  datatype DataError = NameMissing | SlugMissing | BadColor | NegativeSortOrder

  function Message(e: DataError): string {
    match e
    case NameMissing => "Tên danh mục là bắt buộc"
    case SlugMissing => "Slug là bắt buộc"
    case BadColor => "Màu sắc phải là mã hex hợp lệ"
    case NegativeSortOrder => "Thứ tự hiển thị không được nhỏ hơn 0"
  }

  datatype Validation = Validation(isValid: bool, errors: seq<DataError>)

  /** `validateData`: one error per failed check, valid iff none. */
  function ValidateData(c: Category): (v: Validation)
    ensures v.isValid <==> v.errors == []
    ensures NameMissing in v.errors <==> Blank(c.name)
    ensures SlugMissing in v.errors <==> Blank(c.slug)
    ensures BadColor in v.errors <==> c.color != "" && !HexColor(c.color)
    ensures NegativeSortOrder in v.errors <==> c.sortOrder < 0
    ensures |v.errors| <= 4
  {
    var errors := Failures(Blank(c.name), Blank(c.slug), c.color != "" && !HexColor(c.color), c.sortOrder < 0);
    Validation(errors == [], errors)
  }

  /** The error list for the four outcomes of the checks, in the order
      the checks run. */
  function Failures(noName: bool, noSlug: bool, badColor: bool, negative: bool): (r: seq<DataError>)
    ensures NameMissing in r <==> noName
    ensures SlugMissing in r <==> noSlug
    ensures BadColor in r <==> badColor
    ensures NegativeSortOrder in r <==> negative
    ensures |r| <= 4
    ensures r == [] <==> !noName && !noSlug && !badColor && !negative
  {
    (if noName then [NameMissing] else []) +
    (if noSlug then [SlugMissing] else []) +
    (if badColor then [BadColor] else []) +
    (if negative then [NegativeSortOrder] else [])
  }

  /** Every category the schema accepts also passes validateData. */
  lemma ValidPassesValidateData(c: Category)
    requires CategoryValid(c)
    ensures ValidateData(c).isValid
  {
    TrimOfTrimmed(c.name);
    ValidSlugNotBlank(c.slug);
  }

  lemma ValidSlugNotBlank(s: string)
    requires Slug.ValidSlug(s)
    ensures !Blank(s)
  {
    assert Slug.SlugChar(s[0]);
    assert Slug.SlugChar(s[|s| - 1]);
    TrimOfTrimmed(s);
  }

  // ---------------------------------------------------------------------
  // Hooks
  // ---------------------------------------------------------------------

  /** `s.charAt(0).toUpperCase() + s.slice(1)` */
  function Capitalize(s: string): string {
    if s == [] then [] else [UpperChar(s[0])] + s[1..]
  }

  /** The name normalisation shared by the save and update hooks. */
  function NormalizeName(name: string): (r: string)
    ensures |r| <= |name|
    ensures Trimmed(r)
    ensures r == [] <==> Blank(name)
    ensures r != [] ==> r[0] == UpperChar(Trim(name)[0]) && r[1..] == Trim(name)[1..]
  {
    var t := Trim(name);
    if t == [] then []
    else
      UpperKeepsNonSpace(t[0]);
      Capitalize(t)
  }

  lemma UpperKeepsNonSpace(c: char)
    requires !IsSpace(c)
    ensures !IsSpace(UpperChar(c))
  {
  }

  /** Which fields a save changes (`isModified`). */
  datatype Dirty = Dirty(name: bool, slug: bool, description: bool, metaTitle: bool,
                         metaDescription: bool, color: bool, icon: bool)

  datatype SaveError = SlugTaken

  /** The first hook regenerates the slug of a new or slug-less document
      whose name was modified. */
  predicate Regenerates(c: Category, isNew: bool, dirty: Dirty) {
    dirty.name && (c.slug == "" || isNew)
  }

  /** The three pre-save hooks in registration order, run after the
      validators: a new or slug-less document with a modified name gets a
      unique slug; modified fields are normalised; a modified slug that
      another category uses is refused.  `others` holds the other
      categories' slugs. */
  function PreSave(c: Category, isNew: bool, dirty: Dirty, others: set<string>): (r: Result<Category, SaveError>)
    ensures r.Err? <==> (dirty.slug || Regenerates(c, isNew, dirty)) && SavedSlug(c, isNew, dirty, others) in others
    ensures r.Ok? ==> r.value.slug == SavedSlug(c, isNew, dirty, others)
    ensures r.Ok? && dirty.name ==> r.value.name == NormalizeName(c.name)
    ensures r.Ok? && dirty.color && c.color != "" ==> r.value.color == Upper(c.color)
    ensures r.Ok? ==> r.value.status == c.status && r.value.articleCount == c.articleCount &&
                      r.value.sortOrder == c.sortOrder
  {
    var regenerate := Regenerates(c, isNew, dirty);
    var s1 := if regenerate then c.(slug := Slug.UniqueSlug(c.name, others)) else c;
    var s2 := NormalizeFields(s1, dirty, dirty.slug || regenerate);
    if (dirty.slug || regenerate) && s2.slug in others then Err(SlugTaken) else Ok(s2)
  }

  /** The normalisation hook: each modified field that is set is trimmed,
      the name also capitalised, the slug lower-cased, the colour
      upper-cased. */
  function NormalizeFields(c: Category, dirty: Dirty, slugDirty: bool): (r: Category)
    ensures r.name == (if dirty.name then NormalizeName(c.name) else c.name)
    ensures r.slug == (if slugDirty then Trim(Lower(c.slug)) else c.slug)
    ensures r.color == (if dirty.color && c.color != "" then Upper(c.color) else c.color)
    ensures r.status == c.status && r.articleCount == c.articleCount && r.sortOrder == c.sortOrder
  {
    c.(name := if dirty.name then NormalizeName(c.name) else c.name,
       slug := if slugDirty then Trim(Lower(c.slug)) else c.slug,
       description := if dirty.description && c.description != "" then Trim(c.description) else c.description,
       metaTitle := if dirty.metaTitle && c.metaTitle != "" then Trim(c.metaTitle) else c.metaTitle,
       metaDescription := if dirty.metaDescription && c.metaDescription != "" then Trim(c.metaDescription) else c.metaDescription,
       color := if dirty.color && c.color != "" then Upper(c.color) else c.color,
       icon := if dirty.icon && c.icon != "" then Trim(c.icon) else c.icon)
  }

  /** The slug a save leaves on the document. */
  function SavedSlug(c: Category, isNew: bool, dirty: Dirty, others: set<string>): string {
    if Regenerates(c, isNew, dirty) then Trim(Lower(Slug.UniqueSlug(c.name, others)))
    else if dirty.slug then Trim(Lower(c.slug))
    else c.slug
  }

  /** A new category always ends up with the slug generated from its name,
      whatever slug it was created with, and that slug is free. */
  lemma NewCategorySlugFromName(c: Category, dirty: Dirty, others: set<string>)
    requires dirty.name
    ensures PreSave(c, true, dirty, others).Ok?
    ensures PreSave(c, true, dirty, others).value.slug == Slug.UniqueSlug(c.name, others)
  {
    Slug.UniqueSlugNormal(c.name, others);
  }

  /** `remove` and `findOneAndDelete` are refused while the category counts
      articles. */
  predicate DeleteRefused(c: Category) {
    c.articleCount > 0
  }

  /** The model hook refuses only positive counts, while the controller's
      `canBeDeleted` also refuses negative ones. */
  lemma DeleteGuards(c: Category)
    ensures CanBeDeleted(c) ==> !DeleteRefused(c)
    ensures DeleteRefused(c) ==> !CanBeDeleted(c)
    ensures c.articleCount < 0 ==> !CanBeDeleted(c) && !DeleteRefused(c)
  {
  }

  /** The fields of a `findOneAndUpdate` update document; None when the
      update does not set the field. */
  datatype Update = Update(
    name: Option<string>, slug: Option<string>, description: Option<string>, status: Option<string>,
    metaTitle: Option<string>, metaDescription: Option<string>, sortOrder: Option<int>,
    color: Option<string>, icon: Option<string>, updatedBy: Option<Id>, updatedAt: Option<int>)

  predicate Given(v: Option<string>) {
    v.Some? && v.value != ""
  }

  function TrimGiven(v: Option<string>): Option<string> {
    if Given(v) then Some(Trim(v.value)) else v
  }

  /** The pre-`findOneAndUpdate` hook: a given name is trimmed and
      capitalised; a given slug is lower-cased and trimmed and refused when
      another category has it; a name left non-empty with no slug brings a
      generated slug; the text fields are trimmed, the colour upper-cased,
      and updatedAt set to now.  `others` holds the other categories'
      slugs. */
  function UpdateHook(u: Update, others: set<string>, now: int): (r: Result<Update, SaveError>)
    ensures r.Err? <==> Given(u.slug) && Trim(Lower(u.slug.value)) in others
    ensures r.Err? ==> r == Err(SlugTaken)
    ensures r.Ok? ==> r.value.updatedAt == Some(now)
    ensures r.Ok? && Given(u.name) ==> r.value.name == Some(NormalizeName(u.name.value))
    ensures r.Ok? && Given(u.slug) && Trim(Lower(u.slug.value)) != "" ==> r.value.slug == Some(Trim(Lower(u.slug.value)))
    ensures r.Ok? && !Given(u.slug) && Given(u.name) && !Blank(u.name.value) ==>
              r.value.slug == Some(Slug.UniqueSlug(NormalizeName(u.name.value), others)) &&
              r.value.slug.value !in others
    ensures r.Ok? && Given(u.color) ==> r.value.color == Some(Upper(u.color.value))
    ensures r.Ok? ==> r.value.status == u.status && r.value.sortOrder == u.sortOrder
  {
    var name := if Given(u.name) then Some(NormalizeName(u.name.value)) else u.name;
    var slug := if Given(u.slug) then Some(Trim(Lower(u.slug.value))) else u.slug;
    if Given(u.slug) && slug.value in others then Err(SlugTaken)
    else
      var slug' := if Given(name) && !Given(slug) then Some(Slug.UniqueSlug(name.value, others)) else slug;
      Ok(TidyUpdate(u, name, slug', now))
  }

  /** The hook as its comment intends it: a slug is generated only for a
      changed name, which the handler already does, so the hook leaves a
      missing slug missing.  Otherwise it is the hook above. */
  function UpdateHookIntended(u: Update, others: set<string>, now: int): (r: Result<Update, SaveError>)
    ensures r.Err? <==> UpdateHook(u, others, now).Err?
    ensures r.Ok? ==> r.value == UpdateHook(u, others, now).value.(slug := r.value.slug)
    ensures r.Ok? && !Given(u.slug) ==> r.value.slug == u.slug
    ensures r.Ok? && Given(u.slug) ==> r.value.slug == UpdateHook(u, others, now).value.slug
  {
    match UpdateHook(u, others, now)
    case Err(e) => Err(e)
    case Ok(t) => Ok(t.(slug := if Given(u.slug) then t.slug else u.slug))
  }

  /** The update document after the hook, given its new name and slug. */
  function TidyUpdate(u: Update, name: Option<string>, slug: Option<string>, now: int): (r: Update)
    ensures r.name == name && r.slug == slug && r.updatedAt == Some(now)
    ensures r.color == (if Given(u.color) then Some(Upper(u.color.value)) else u.color)
    ensures r.status == u.status && r.sortOrder == u.sortOrder
  {
    u.(name := name, slug := slug,
       description := TrimGiven(u.description),
       metaTitle := TrimGiven(u.metaTitle),
       metaDescription := TrimGiven(u.metaDescription),
       color := if Given(u.color) then Some(Upper(u.color.value)) else u.color,
       icon := TrimGiven(u.icon),
       updatedAt := Some(now))
  }

  // ---------------------------------------------------------------------
  // List endpoint sort normalisation
  // ---------------------------------------------------------------------

  const ListSortFields: seq<string> := ["name", "createdAt", "updatedAt", "sortOrder", "articleCount"]

  /** The sort of `getCategories`: a field outside the allow-list becomes
      'createdAt'; a text direction is -1 for 'desc' in any letter case and
      1 otherwise; a missing one takes the default -1; any other value
      goes through `parseInt(…) || -1`. */
  function ListSort(sortBy: Value, sortOrder: Value): (r: SortUtils.SortKey)
    ensures r.field in ListSortFields
    ensures sortBy.Str? && sortBy.s in ListSortFields ==> r.field == sortBy.s
    ensures !(sortBy.Str? && sortBy.s in ListSortFields) ==> r.field == "createdAt"
    ensures sortOrder.Str? ==> (r.order == -1 <==> Lower(sortOrder.s) == "desc") && (r.order == 1 || r.order == -1)
    ensures sortOrder.Undefined? ==> r.order == -1
    ensures r.order != 0
  {
    var field := if sortBy.Str? && sortBy.s in ListSortFields then sortBy.s else "createdAt";
    var order := if sortOrder.Str? then (if Lower(sortOrder.s) == "desc" then -1 else 1)
                 else if sortOrder.Undefined? then -1
                 else ParseIntOr(sortOrder, -1);
    SortUtils.SortKey(field, order)
  }

  // ---------------------------------------------------------------------
  // A document whose methods update it in place
  // ---------------------------------------------------------------------

  class CategoryDoc {
    var doc: Category

    constructor (c: Category)
      ensures doc == c
    {
      doc := c;
    }

    method Activate()
      modifies this
      ensures doc == WithStatus(old(doc), Active)
    {
      doc := WithStatus(doc, Active);
    }

    method Deactivate()
      modifies this
      ensures doc == WithStatus(old(doc), Inactive)
    {
      doc := WithStatus(doc, Inactive);
    }

    method ToggleStatus()
      modifies this
      ensures doc == Toggled(old(doc))
    {
      doc := Toggled(doc);
    }

    method IncrementArticleCount(count: int)
      modifies this
      ensures doc == Incremented(old(doc), count)
    {
      doc := Incremented(doc, count);
    }

    method DecrementArticleCount(count: int)
      modifies this
      ensures doc == Decremented(old(doc), count)
    {
      doc := Decremented(doc, count);
    }

    method ResetArticleCount()
      modifies this
      ensures doc == Reset(old(doc))
    {
      doc := Reset(doc);
    }

    method UpdateSortOrder(newOrder: int)
      modifies this
      ensures doc == old(doc).(sortOrder := newOrder)
    {
      doc := doc.(sortOrder := newOrder);
    }

    method UpdateModifiedBy(userId: Id)
      modifies this
      ensures doc == old(doc).(updatedBy := userId)
    {
      doc := doc.(updatedBy := userId);
    }

    /** The assignments of `updateFromImport` with the name compared before
        the loop; the save that follows is `PreSave`. */
    method UpdateFromImport(d: ImportData, userId: Option<Id>, used: set<string>)
      modifies this
      ensures doc == Imported(old(doc), d, userId, used)
    {
      ghost var before := doc;
      var renamed := d.name.Some? && d.name.value != "" && Trim(d.name.value) != doc.name;
      doc := Assign(doc, d);
      if renamed {
        var s := Slug.GenerateUniqueSlug(doc.name, used);
        doc := doc.(slug := s);
      }
      ImportedSteps(before, d, userId, used, renamed, doc);
      if userId.Some? && userId.value != "" {
        doc := doc.(updatedBy := userId.value);
      }
    }
  }
}

/** The public directory page: its filter state and the transitions the search box, the
    category buttons and the pager apply to it, the page count, and the text of a listing card. */
module HomePage {
  import opened Wrappers
  import opened Text
  import opened BusinessEntity

  /** The client's search parameters; `None` is a property the request leaves out. */
  datatype SearchParams = SearchParams(
    query: Option<string>,
    category: Option<Category>,
    city: Option<string>,
    state: Option<string>,
    country: Option<string>,
    isActive: Option<bool>,
    isFeatured: Option<bool>,
    page: Option<int>,
    limit: Option<int>,
    sortBy: Option<string>,
    sortOrder: Option<string>)

  /** The page starts on page 1 of 12 listings and asks for active listings only; this is
      where the "public view shows active listings" policy lives. */
  function InitialFilters(): (f: SearchParams)
    ensures f.page == Some(1) && f.limit == Some(12) && f.isActive == Some(true)
    ensures f.query.None? && f.category.None? && f.isFeatured.None?
    ensures f.city.None? && f.state.None? && f.country.None?
    ensures f.sortBy.None? && f.sortOrder.None?
  {
    SearchParams(None, None, None, None, None, Some(true), None, Some(1), Some(12), None, None)
  }

  /** Two filter states that agree on everything except possibly the query, the category and
      the page. */
  predicate SameBesidesQueryCategoryPage(a: SearchParams, b: SearchParams) {
    a.(query := b.query, category := b.category, page := b.page) == b
  }

  /** Submitting the search box: the query is the typed text, back to page 1, every other
      filter kept. */
  function HandleSearch(f: SearchParams, typed: string): (r: SearchParams)
    ensures r.query == Some(typed) && r.page == Some(1)
    ensures r.category == f.category
    ensures SameBesidesQueryCategoryPage(r, f)
  {
    f.(query := Some(typed), page := Some(1))
  }

  /** A category button, or "All Categories" (`None`): the category is set or cleared, back to
      page 1, every other filter kept. */
  function HandleCategoryFilter(f: SearchParams, c: Option<Category>): (r: SearchParams)
    ensures r.category == c && r.page == Some(1)
    ensures r.query == f.query
    ensures SameBesidesQueryCategoryPage(r, f)
  {
    f.(category := c, page := Some(1))
  }

  /** The pager: only the page changes. */
  function HandlePageChange(f: SearchParams, newPage: int): (r: SearchParams)
    ensures r.page == Some(newPage)
    ensures r.query == f.query && r.category == f.category
    ensures SameBesidesQueryCategoryPage(r, f)
  {
    f.(page := Some(newPage))
  }

  /** None of the three transitions touches the active-only filter of the initial state. */
  lemma TransitionsKeepActiveOnly(f: SearchParams, typed: string, c: Option<Category>, p: int)
    requires f.isActive == Some(true)
    ensures HandleSearch(f, typed).isActive == Some(true)
    ensures HandleCategoryFilter(f, c).isActive == Some(true)
    ensures HandlePageChange(f, p).isActive == Some(true)
  {
  }

  /** Choosing a category and then searching lands on page 1 with both filters applied, in
      whichever order the two are done. */
  lemma SearchAndCategoryCommute(f: SearchParams, typed: string, c: Option<Category>)
    ensures HandleSearch(HandleCategoryFilter(f, c), typed)
         == HandleCategoryFilter(HandleSearch(f, typed), c)
  {
  }

  // ---------------------------------------------------------------------------
  // Page count and pager
  // ---------------------------------------------------------------------------

  const DefaultLimit: nat := 12

  /** `filters.limit || 12`: a missing or zero limit counts as 12. */
  function PageSize(limit: Option<int>): int {
    if limit.None? || limit.value == 0 then DefaultLimit else limit.value
  }

  /** `Math.ceil(total / size)` for a positive page size: the fewest pages of `size` rows
      that hold `total` rows. */
  function TotalPages(total: nat, limit: Option<int>): (r: nat)
    requires PageSize(limit) >= 1
    ensures r * PageSize(limit) >= total
    ensures r == 0 || (r - 1) * PageSize(limit) < total
    ensures r == 0 <==> total == 0
  {
    var size := PageSize(limit);
    var r := (total + size - 1) / size;
    CeilingDivision(total, size, r);
    r
  }

  lemma CeilingDivision(total: nat, size: int, r: int)
    requires size >= 1 && r == (total + size - 1) / size
    ensures r >= 0 && r * size >= total && (r == 0 || (r - 1) * size < total)
  {
    var q, m := (total + size - 1) / size, (total + size - 1) % size;
    assert total + size - 1 == q * size + m && 0 <= m < size;
    assert q * size >= total by {
      assert q * size == total + size - 1 - m;
    }
    if q > 0 {
      assert (q - 1) * size == q * size - size;
    }
  }

  /** The pager is shown only when there is more than one page. */
  predicate ShowsPager(totalPages: nat) {
    totalPages > 1
  }

  /** "Previous" is disabled on the first page and "Next" on the last. */
  predicate PreviousDisabled(page: int) {
    page == 1
  }

  predicate NextDisabled(page: int, totalPages: nat) {
    page == totalPages
  }

  /** Starting from a page in range, an enabled "Previous" or "Next" leads to a page in
      range, so the pager never asks for page 0 or for a page past the last. */
  lemma PagerStaysInRange(page: int, totalPages: nat)
    requires ShowsPager(totalPages) && 1 <= page <= totalPages
    ensures !PreviousDisabled(page) ==> 1 <= page - 1 <= totalPages
    ensures !NextDisabled(page, totalPages) ==> 1 <= page + 1 <= totalPages
    ensures PreviousDisabled(page) ==> page - 1 < 1
    ensures NextDisabled(page, totalPages) ==> page + 1 > totalPages
  {
  }

  // ---------------------------------------------------------------------------
  // The listing card
  // ---------------------------------------------------------------------------

  /** `category.charAt(0).toUpperCase() + category.slice(1)`. */
  function CategoryLabel(s: string): (r: string)
    ensures |r| == |s|
    ensures |s| > 0 ==> r[0] == UpperChar(s[0]) && r[1..] == s[1..]
  {
    if |s| == 0 then "" else [UpperChar(s[0])] + s[1..]
  }

  /** Every category's label is its stored string with an upper-case first letter; lower-casing
      the label gives the stored string back, so two categories never share a label. */
  lemma CategoryLabelOfValue(c: Category)
    ensures var v := CategoryValue(c);
      && 'a' <= v[0] <= 'z'
      && CategoryLabel(v)[0] as int == v[0] as int - 32
      && Lower(CategoryLabel(v)) == v
  {
    CategoryValueLower(c);
    LabelLowersBack(CategoryValue(c));
  }

  lemma CategoryValueLower(c: Category)
    ensures LowerLetters(CategoryValue(c))
  {
    match c
    case Vehicles =>
    case Properties =>
    case Equipment =>
    case Events =>
    case Recreation =>
    case Electronics =>
    case Furniture =>
    case Tools =>
    case Other =>
  }

  predicate LowerLetters(s: string) {
    |s| > 0 && forall k :: 0 <= k < |s| ==> 'a' <= s[k] <= 'z'
  }

  /** Lower-casing the label of a lower-case word gives the word back. */
  lemma LabelLowersBack(v: string)
    requires LowerLetters(v)
    ensures Lower(CategoryLabel(v)) == v
  {
    var l := CategoryLabel(v);
    forall k | 0 <= k < |v| ensures LowerChar(l[k]) == v[k] {
      assert 'a' <= v[k] <= 'z';
    }
  }

  lemma CategoryLabelsDistinct(c: Category, d: Category)
    requires CategoryLabel(CategoryValue(c)) == CategoryLabel(CategoryValue(d))
    ensures c == d
  {
    CategoryLabelOfValue(c);
    CategoryLabelOfValue(d);
    CategoryValueInjective(c, d);
  }

  const PreviewLength: nat := 150

  /** The description on a card: its first 150 characters, followed by `...` exactly when
      something was cut off. */
  function DescriptionPreview(description: string): (r: string)
    ensures |description| <= PreviewLength ==> r == description
    ensures |description| > PreviewLength ==> r == description[..PreviewLength] + "..."
    ensures |r| <= PreviewLength + 3
  {
    Take(description, PreviewLength) + (if |description| > PreviewLength then "..." else "")
  }

  const ShownItems: nat := 3

  /** The rental-item tags on a card: the first three items, and how many more there are
      when there are more than three; nothing at all without items. */
  datatype ItemTags = ItemTags(shown: seq<string>, more: Option<nat>)

  function RentalItemTags(items: Option<seq<string>>): (t: Option<ItemTags>)
    ensures t.None? <==> items.None? || items.value == []
    ensures t.Some? ==> items.Some? && |t.value.shown| <= ShownItems && |t.value.shown| <= |items.value|
    ensures t.Some? ==> t.value.shown == items.value[..|t.value.shown|]
    ensures t.Some? ==> (t.value.more.Some? <==> |items.value| > ShownItems)
    ensures t.Some? ==> |t.value.shown| + t.value.more.GetOr(0) == |items.value|
  {
    if items.None? || |items.value| == 0 then None
    else
      var n := |items.value|;
      if n > ShownItems then Some(ItemTags(items.value[..ShownItems], Some(n - ShownItems)))
      else Some(ItemTags(items.value, None))
  }

  /** The text of the last tag: `+k more`. */
  function MoreTag(k: nat): string {
    "+" + NatToString(k) + " more"
  }

  /** The "more" tag reads back as the number of hidden items. */
  lemma MoreTagCounts(items: seq<string>)
    requires |items| > ShownItems
    ensures var t := RentalItemTags(Some(items)).value;
      t.more.Some? && ParseDigits(MoreTag(t.more.value)[1..|MoreTag(t.more.value)| - 5]) == |items| - 3
  {
    var k := |items| - 3;
    var s := MoreTag(k);
    assert s[1..|s| - 5] == NatToString(k);
    NatToStringRoundTrip(k);
  }
}

/** The query string of `GET /businesses`: its validation rules, its defaults, and the
    search that `findAll` reads out of it. */
module SearchBusinessDto {
  import opened Wrappers
  import opened BusinessEntity

  /** A search request after class-transformer coercion. A property the query string leaves
      out is `None`; `category` is the raw string before `@IsEnum`. */
  datatype SearchBusinessDto = SearchBusinessDto(
    query: Option<string>,
    category: Option<string>,
    city: Option<string>,
    state: Option<string>,
    country: Option<string>,
    isActive: Option<bool>,
    isFeatured: Option<bool>,
    page: Option<int>,
    limit: Option<int>,
    sortBy: Option<string>,
    sortOrder: Option<string>)

  const DefaultPage: int := 1
  const DefaultLimit: int := 12
  const DefaultSortBy: string := "createdAt"
  const DefaultSortOrder: string := "DESC"

  /** `@IsOptional() @IsEnum(BusinessCategory)`: absent, or one of the nine values. */
  predicate CategoryOk(d: SearchBusinessDto) {
    d.category.Some? ==> ParseCategory(d.category.value).Some?
  }

  /** `@IsOptional() @Min(1)`, with no upper bound. */
  predicate PageOk(d: SearchBusinessDto) {
    d.page.Some? ==> d.page.value >= 1
  }

  predicate LimitOk(d: SearchBusinessDto) {
    d.limit.Some? ==> d.limit.value >= 1
  }

  /** What the validation pipe demands; the free-text properties and the two sort properties
      only have to be strings, which their types already say. */
  predicate ValidSearch(d: SearchBusinessDto) {
    CategoryOk(d) && PageOk(d) && LimitOk(d)
  }

  /** The properties the pipe reports, in declaration order. */
  function SearchViolations(d: SearchBusinessDto): (r: seq<string>)
    ensures r == [] <==> ValidSearch(d)
    ensures "category" in r <==> !CategoryOk(d)
    ensures "page" in r <==> !PageOk(d)
    ensures "limit" in r <==> !LimitOk(d)
  {
    (if CategoryOk(d) then [] else ["category"])
    + (if PageOk(d) then [] else ["page"])
    + (if LimitOk(d) then [] else ["limit"])
  }

  /** The search `findAll` works with once the defaults are filled in. */
  datatype Search = Search(
    query: Option<string>,
    category: Option<Category>,
    city: Option<string>,
    state: Option<string>,
    country: Option<string>,
    isActive: Option<bool>,
    isFeatured: Option<bool>,
    page: nat,
    limit: nat,
    sortBy: string,
    sortOrder: string)

  /** The destructuring at the head of `findAll`: page 1, limit 12, newest first unless the
      request says otherwise. */
  function Resolve(d: SearchBusinessDto): (s: Search)
    requires ValidSearch(d)
    ensures s.page >= 1 && s.limit >= 1
    ensures d.page.None? ==> s.page == 1
    ensures d.page.Some? ==> s.page == d.page.value
    ensures d.limit.None? ==> s.limit == 12
    ensures d.limit.Some? ==> s.limit == d.limit.value
    ensures s.sortBy == (if d.sortBy.Some? then d.sortBy.value else "createdAt")
    ensures s.sortOrder == (if d.sortOrder.Some? then d.sortOrder.value else "DESC")
    ensures d.category.None? <==> s.category.None?
    ensures s.category.Some? ==> CategoryValue(s.category.value) == d.category.value
    ensures s.query == d.query && s.city == d.city && s.state == d.state && s.country == d.country
    ensures s.isActive == d.isActive && s.isFeatured == d.isFeatured
  {
    Search(
      query := d.query,
      category := if d.category.Some? then ParseCategory(d.category.value) else None,
      city := d.city,
      state := d.state,
      country := d.country,
      isActive := d.isActive,
      isFeatured := d.isFeatured,
      page := d.page.GetOr(DefaultPage),
      limit := d.limit.GetOr(DefaultLimit),
      sortBy := d.sortBy.GetOr(DefaultSortBy),
      sortOrder := d.sortOrder.GetOr(DefaultSortOrder))
  }
}

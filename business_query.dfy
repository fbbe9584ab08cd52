/** The query logic of the listing store: which rows a search selects, how the query is
    composed condition by condition, how rows are ordered, and the aggregate reports. */
module BusinessQuery {
  import opened Wrappers
  import opened Text
  import opened Collections
  import opened Sorting
  import opened BusinessEntity
  import opened SearchBusinessDto

  // ---------------------------------------------------------------------------
  // Which rows a search selects
  // ---------------------------------------------------------------------------

  /** The rows a search selects, stated directly: the two flags constrain whenever they are
      given (so `false` is a real filter); category, city, state, country and the free-text
      query constrain only when non-empty; a NULL state never contains anything; the query
      may occur in the name, the description or the address. */
  predicate Matches(s: Search, b: Business) {
    && (s.isActive.Some? ==> b.isActive == s.isActive.value)
    && (s.isFeatured.Some? ==> b.isFeatured == s.isFeatured.value)
    && (s.category.Some? ==> b.category == s.category.value)
    && (Truthy(s.city) ==> ContainsIgnoreCase(b.city, s.city.value))
    && (Truthy(s.state) ==> b.state.Some? && ContainsIgnoreCase(b.state.value, s.state.value))
    && (Truthy(s.country) ==> ContainsIgnoreCase(b.country, s.country.value))
    && (Truthy(s.query) ==>
          || ContainsIgnoreCase(b.name, s.query.value)
          || ContainsIgnoreCase(b.description, s.query.value)
          || ContainsIgnoreCase(b.address, s.query.value))
  }

  /** The stored rows a search selects, in storage order. */
  function MatchingRows(rows: seq<Business>, s: Search): (r: seq<Business>)
    ensures forall b :: b in r <==> b in rows && Matches(s, b)
  {
    Filter(rows, b => Matches(s, b))
  }

  /** A search with no constraint selects every row. */
  lemma UnconstrainedSearchSelectsAll(rows: seq<Business>, s: Search)
    requires s.isActive.None? && s.isFeatured.None? && s.category.None?
    requires !Truthy(s.city) && !Truthy(s.state) && !Truthy(s.country) && !Truthy(s.query)
    ensures MatchingRows(rows, s) == rows
  {
    FilterCongruent(rows, b => Matches(s, b), b => true);
    FilterTrue(rows);
  }

  lemma {:induction false} FilterTrue(rows: seq<Business>)
    ensures Filter(rows, b => true) == rows
  {
    if |rows| > 0 {
      FilterTrue(rows[1..]);
      assert rows == [rows[0]] + rows[1..];
    }
  }

  // ---------------------------------------------------------------------------
  // Composing the query
  // ---------------------------------------------------------------------------

  /** A column value as the query sees it; the enum column compares as its string. */
  datatype Cell = BoolCell(b: bool) | TextCell(t: string)

  /** The columns a search condition names. */
  datatype Column =
    | IsActiveColumn | IsFeaturedColumn | CategoryColumn | CityColumn | StateColumn
    | CountryColumn | NameColumn | DescriptionColumn | AddressColumn

  /** The value of a column of a row; `None` for SQL NULL. */
  function CellOf(b: Business, column: Column): Option<Cell> {
    match column
    case IsActiveColumn => Some(BoolCell(b.isActive))
    case IsFeaturedColumn => Some(BoolCell(b.isFeatured))
    case CategoryColumn => Some(TextCell(CategoryValue(b.category)))
    case CityColumn => Some(TextCell(b.city))
    case StateColumn => if b.state.Some? then Some(TextCell(b.state.value)) else None
    case CountryColumn => Some(TextCell(b.country))
    case NameColumn => Some(TextCell(b.name))
    case DescriptionColumn => Some(TextCell(b.description))
    case AddressColumn => Some(TextCell(b.address))
  }

  /** The value of one entry of the `where` object: a plain value, compared with `=`, or an
      `ILike` operator whose pattern is `%needle%`. */
  datatype Operand = Equal(value: Cell) | ILike(needle: string)

  /** One `where[key] = value` assignment. */
  datatype WhereEntry = WhereEntry(key: Column, operand: Operand)

  /** `column ILIKE '%needle%'`; NULL matches no pattern. */
  predicate ILikeHolds(b: Business, column: Column, needle: string) {
    var c := CellOf(b, column);
    c.Some? && c.value.TextCell? && ContainsIgnoreCase(c.value.t, needle)
  }

  /** `column = value`; NULL equals nothing. */
  predicate EqualHolds(b: Business, column: Column, value: Cell) {
    CellOf(b, column) == Some(value)
  }

  /** One `andWhere` clause of the query builder. */
  datatype Condition =
    | EqualCondition(column: Column, value: Cell)
    | ILikeCondition(column: Column, needle: string)
    | AnyILikeCondition(columns: seq<Column>, needle: string)

  predicate ConditionHolds(c: Condition, b: Business) {
    match c
    case EqualCondition(column, value) => EqualHolds(b, column, value)
    case ILikeCondition(column, needle) => ILikeHolds(b, column, needle)
    case AnyILikeCondition(columns, needle) =>
      exists i :: 0 <= i < |columns| && ILikeHolds(b, columns[i], needle)
  }

  /** `andWhere` chains its clauses with AND. */
  predicate AllHold(conditions: seq<Condition>, b: Business) {
    forall i :: 0 <= i < |conditions| ==> ConditionHolds(conditions[i], b)
  }

  /** The constraints the `where` object carries: all of `Matches` but the free-text query,
      one predicate per property. */
  predicate ActiveFilter(s: Search, b: Business) {
    s.isActive.Some? ==> b.isActive == s.isActive.value
  }

  predicate FeaturedFilter(s: Search, b: Business) {
    s.isFeatured.Some? ==> b.isFeatured == s.isFeatured.value
  }

  predicate CategoryFilter(s: Search, b: Business) {
    s.category.Some? ==> b.category == s.category.value
  }

  predicate CityFilter(s: Search, b: Business) {
    Truthy(s.city) ==> ContainsIgnoreCase(b.city, s.city.value)
  }

  predicate StateFilter(s: Search, b: Business) {
    Truthy(s.state) ==> b.state.Some? && ContainsIgnoreCase(b.state.value, s.state.value)
  }

  predicate CountryFilter(s: Search, b: Business) {
    Truthy(s.country) ==> ContainsIgnoreCase(b.country, s.country.value)
  }

  predicate FieldFiltersHold(s: Search, b: Business) {
    && ActiveFilter(s, b) && FeaturedFilter(s, b) && CategoryFilter(s, b)
    && CityFilter(s, b) && StateFilter(s, b) && CountryFilter(s, b)
  }

  /** The k-th property constraint, in the order `findAll` assigns them. */
  predicate FilterAt(s: Search, k: nat, b: Business) {
    if k == 0 then ActiveFilter(s, b)
    else if k == 1 then FeaturedFilter(s, b)
    else if k == 2 then CategoryFilter(s, b)
    else if k == 3 then CityFilter(s, b)
    else if k == 4 then StateFilter(s, b)
    else if k == 5 then CountryFilter(s, b)
    else true
  }

  /** The first k property constraints. */
  predicate FiltersBefore(s: Search, k: nat, b: Business) {
    k == 0 || (FiltersBefore(s, k - 1, b) && FilterAt(s, k - 1, b))
  }

  lemma AllSixFilters(s: Search, b: Business)
    ensures FiltersBefore(s, 6, b) <==> FieldFiltersHold(s, b)
  {
    assert FiltersBefore(s, 1, b) <==> ActiveFilter(s, b);
    assert FiltersBefore(s, 2, b) <==> FiltersBefore(s, 1, b) && FeaturedFilter(s, b);
    assert FiltersBefore(s, 3, b) <==> FiltersBefore(s, 2, b) && CategoryFilter(s, b);
    assert FiltersBefore(s, 4, b) <==> FiltersBefore(s, 3, b) && CityFilter(s, b);
    assert FiltersBefore(s, 5, b) <==> FiltersBefore(s, 4, b) && StateFilter(s, b);
  }

  predicate EntryHolds(e: WhereEntry, b: Business) {
    match e.operand
    case Equal(value) => EqualHolds(b, e.key, value)
    case ILike(needle) => ILikeHolds(b, e.key, needle)
  }

  /** Every entry of the `where` object holds. */
  predicate EntriesHold(w: seq<WhereEntry>, b: Business) {
    forall i :: 0 <= i < |w| ==> EntryHolds(w[i], b)
  }

  /** After k assignments the `where` object holds exactly the first k constraints. */
  ghost predicate WhereCovers(w: seq<WhereEntry>, s: Search, k: nat) {
    forall b :: EntriesHold(w, b) <==> FiltersBefore(s, k, b)
  }

  lemma AppendEntry(w: seq<WhereEntry>, e: WhereEntry)
    ensures forall b :: EntriesHold(w + [e], b) <==> EntriesHold(w, b) && EntryHolds(e, b)
  {
    forall b ensures EntriesHold(w + [e], b) <==> EntriesHold(w, b) && EntryHolds(e, b) {
      assert (w + [e])[|w|] == e;
      assert forall i :: 0 <= i < |w| ==> (w + [e])[i] == w[i];
    }
  }

  /** Assigning an entry that encodes the k-th constraint. */
  lemma AddEntry(w: seq<WhereEntry>, e: WhereEntry, s: Search, k: nat)
    requires WhereCovers(w, s, k)
    requires forall b :: EntryHolds(e, b) <==> FilterAt(s, k, b)
    ensures WhereCovers(w + [e], s, k + 1)
  {
    AppendEntry(w, e);
  }

  /** Skipping an assignment whose constraint holds of every row. */
  lemma SkipEntry(w: seq<WhereEntry>, s: Search, k: nat)
    requires WhereCovers(w, s, k)
    requires forall b :: FilterAt(s, k, b)
    ensures WhereCovers(w, s, k + 1)
  {
  }

  /** The enum column compares equal to a category's string exactly for that category. */
  lemma CategoryEntry(c: Category)
    ensures forall b :: EntryHolds(WhereEntry(CategoryColumn, Equal(TextCell(CategoryValue(c)))), b)
                        <==> b.category == c
  {
    forall b ensures EqualHolds(b, CategoryColumn, TextCell(CategoryValue(c))) <==> b.category == c {
      if CategoryValue(b.category) == CategoryValue(c) {
        CategoryValueInjective(b.category, c);
      }
    }
  }

  /** Builds the `where` object field by field: a flag whenever it is given, the category
      whenever it is non-empty, and a `%…%` pattern for each non-empty location filter. */
  method BuildWhere(s: Search) returns (w: seq<WhereEntry>)
    ensures forall b :: EntriesHold(w, b) <==> FieldFiltersHold(s, b)
  {
    w := [];
    if s.isActive.Some? {
      var e := WhereEntry(IsActiveColumn, Equal(BoolCell(s.isActive.value)));
      AddEntry(w, e, s, 0);
      w := w + [e];
    } else {
      SkipEntry(w, s, 0);
    }
    if s.isFeatured.Some? {
      var e := WhereEntry(IsFeaturedColumn, Equal(BoolCell(s.isFeatured.value)));
      AddEntry(w, e, s, 1);
      w := w + [e];
    } else {
      SkipEntry(w, s, 1);
    }
    if s.category.Some? {
      var e := WhereEntry(CategoryColumn, Equal(TextCell(CategoryValue(s.category.value))));
      CategoryEntry(s.category.value);
      AddEntry(w, e, s, 2);
      w := w + [e];
    } else {
      SkipEntry(w, s, 2);
    }
    if Truthy(s.city) {
      var e := WhereEntry(CityColumn, ILike(s.city.value));
      AddEntry(w, e, s, 3);
      w := w + [e];
    } else {
      SkipEntry(w, s, 3);
    }
    if Truthy(s.state) {
      var e := WhereEntry(StateColumn, ILike(s.state.value));
      AddEntry(w, e, s, 4);
      w := w + [e];
    } else {
      SkipEntry(w, s, 4);
    }
    if Truthy(s.country) {
      var e := WhereEntry(CountryColumn, ILike(s.country.value));
      AddEntry(w, e, s, 5);
      w := w + [e];
    } else {
      SkipEntry(w, s, 5);
    }
    forall b ensures EntriesHold(w, b) <==> FieldFiltersHold(s, b) {
      AllSixFilters(s, b);
    }
  }

  /** The builder: one `andWhere` per `where` entry (`ILIKE` for an operator, `=` for a
      plain value), then the free-text clause over name, description and address. The query
      selects exactly the rows `Matches` describes. */
  method ComposeQuery(s: Search) returns (conditions: seq<Condition>)
    ensures forall b :: AllHold(conditions, b) <==> Matches(s, b)
  {
    var w := BuildWhere(s);
    conditions := [];
    var i := 0;
    while i < |w|
      invariant 0 <= i <= |w|
      invariant |conditions| == i
      invariant forall b :: AllHold(conditions, b) <==> EntriesHold(w[..i], b)
    {
      var c;
      match w[i].operand {
        case ILike(needle) =>
          c := ILikeCondition(w[i].key, needle);
        case Equal(value) =>
          c := EqualCondition(w[i].key, value);
      }
      assert forall b :: ConditionHolds(c, b) <==> EntryHolds(w[i], b);
      AppendCondition(conditions, c);
      AppendEntry(w[..i], w[i]);
      assert w[..i + 1] == w[..i] + [w[i]];
      conditions := conditions + [c];
      i := i + 1;
    }
    assert w[..i] == w;
    if Truthy(s.query) {
      var columns := [NameColumn, DescriptionColumn, AddressColumn];
      var q := AnyILikeCondition(columns, s.query.value);
      forall b
        ensures ConditionHolds(q, b) <==>
                  || ContainsIgnoreCase(b.name, s.query.value)
                  || ContainsIgnoreCase(b.description, s.query.value)
                  || ContainsIgnoreCase(b.address, s.query.value)
      {
        assert ILikeHolds(b, columns[0], s.query.value) <==> ContainsIgnoreCase(b.name, s.query.value);
        assert ILikeHolds(b, columns[1], s.query.value) <==> ContainsIgnoreCase(b.description, s.query.value);
        assert ILikeHolds(b, columns[2], s.query.value) <==> ContainsIgnoreCase(b.address, s.query.value);
      }
      AppendCondition(conditions, q);
      conditions := conditions + [q];
    }
  }

  lemma AppendCondition(cs: seq<Condition>, c: Condition)
    ensures forall b :: AllHold(cs + [c], b) <==> AllHold(cs, b) && ConditionHolds(c, b)
  {
    forall b ensures AllHold(cs + [c], b) <==> AllHold(cs, b) && ConditionHolds(c, b) {
      assert (cs + [c])[|cs|] == c;
      assert forall i :: 0 <= i < |cs| ==> (cs + [c])[i] == cs[i];
    }
  }

  // ---------------------------------------------------------------------------
  // ORDER BY business.<sortBy> <sortOrder>
  // ---------------------------------------------------------------------------

  /** The scalar columns a search can be ordered by. */
  datatype SortField =
    | SortById | SortByName | SortByDescription | SortByCategory | SortByWebsite | SortByPhone
    | SortByEmail | SortByAddress | SortByCity | SortByState | SortByCountry | SortByZipCode
    | SortByLatitude | SortByLongitude | SortByLogo | SortByRating | SortByReviewCount
    | SortByIsActive | SortByIsFeatured | SortByCreatedAt | SortByUpdatedAt

  /** The property name each sort column is requested by. */
  function SortFieldName(f: SortField): string {
    match f
    case SortById => "id"
    case SortByName => "name"
    case SortByDescription => "description"
    case SortByCategory => "category"
    case SortByWebsite => "website"
    case SortByPhone => "phone"
    case SortByEmail => "email"
    case SortByAddress => "address"
    case SortByCity => "city"
    case SortByState => "state"
    case SortByCountry => "country"
    case SortByZipCode => "zipCode"
    case SortByLatitude => "latitude"
    case SortByLongitude => "longitude"
    case SortByLogo => "logo"
    case SortByRating => "rating"
    case SortByReviewCount => "reviewCount"
    case SortByIsActive => "isActive"
    case SortByIsFeatured => "isFeatured"
    case SortByCreatedAt => "createdAt"
    case SortByUpdatedAt => "updatedAt"
  }

  /** The column a `sortBy` string names; `None` when it names none of them. */
  function ParseSortField(name: string): (r: Option<SortField>)
    ensures r.Some? ==> SortFieldName(r.value) == name
    ensures r.None? ==> forall f: SortField :: SortFieldName(f) != name
  {
    if name == "id" then Some(SortById)
    else if name == "name" then Some(SortByName)
    else if name == "description" then Some(SortByDescription)
    else if name == "category" then Some(SortByCategory)
    else if name == "website" then Some(SortByWebsite)
    else if name == "phone" then Some(SortByPhone)
    else if name == "email" then Some(SortByEmail)
    else if name == "address" then Some(SortByAddress)
    else if name == "city" then Some(SortByCity)
    else if name == "state" then Some(SortByState)
    else if name == "country" then Some(SortByCountry)
    else if name == "zipCode" then Some(SortByZipCode)
    else if name == "latitude" then Some(SortByLatitude)
    else if name == "longitude" then Some(SortByLongitude)
    else if name == "logo" then Some(SortByLogo)
    else if name == "rating" then Some(SortByRating)
    else if name == "reviewCount" then Some(SortByReviewCount)
    else if name == "isActive" then Some(SortByIsActive)
    else if name == "isFeatured" then Some(SortByIsFeatured)
    else if name == "createdAt" then Some(SortByCreatedAt)
    else if name == "updatedAt" then Some(SortByUpdatedAt)
    else None
  }

  datatype SortOrder = Ascending | Descending

  /** The query builder accepts exactly `"ASC"` and `"DESC"`. */
  function ParseSortOrder(s: string): (r: Option<SortOrder>)
    ensures r == Some(Ascending) <==> s == "ASC"
    ensures r == Some(Descending) <==> s == "DESC"
    ensures r.None? <==> s != "ASC" && s != "DESC"
  {
    if s == "ASC" then Some(Ascending) else if s == "DESC" then Some(Descending) else None
  }

  /** A row's value in a sort column: a number (booleans as 0 and 1, the enum by its
      declaration position), a text in code-point order, or NULL. */
  datatype SortKey = NumberKey(x: real) | TextKey(t: string) | NullKey

  function OptionalText(o: Option<string>): SortKey {
    if o.Some? then TextKey(o.value) else NullKey
  }

  function OptionalNumber(o: Option<real>): SortKey {
    if o.Some? then NumberKey(o.value) else NullKey
  }

  function FlagNumber(b: bool): real {
    if b then 1.0 else 0.0
  }

  function KeyOf(b: Business, f: SortField): SortKey {
    match f
    case SortById => TextKey(b.id)
    case SortByName => TextKey(b.name)
    case SortByDescription => TextKey(b.description)
    case SortByCategory => NumberKey(CategoryRank(b.category) as real)
    case SortByWebsite => OptionalText(b.website)
    case SortByPhone => OptionalText(b.phone)
    case SortByEmail => TextKey(b.email)
    case SortByAddress => TextKey(b.address)
    case SortByCity => TextKey(b.city)
    case SortByState => OptionalText(b.state)
    case SortByCountry => TextKey(b.country)
    case SortByZipCode => OptionalText(b.zipCode)
    case SortByLatitude => OptionalNumber(b.latitude)
    case SortByLongitude => OptionalNumber(b.longitude)
    case SortByLogo => OptionalText(b.logo)
    case SortByRating => NumberKey(b.rating)
    case SortByReviewCount => NumberKey(b.reviewCount as real)
    case SortByIsActive => NumberKey(FlagNumber(b.isActive))
    case SortByIsFeatured => NumberKey(FlagNumber(b.isFeatured))
    case SortByCreatedAt => NumberKey(b.createdAt as real)
    case SortByUpdatedAt => NumberKey(b.updatedAt as real)
  }

  /** Ascending key order. NULL sorts after every value, as PostgreSQL's default NULLS LAST
      for ascending order (and NULLS FIRST for descending) has it. */
  predicate KeyLe(x: SortKey, y: SortKey) {
    match (x, y)
    case (_, NullKey) => true
    case (NullKey, _) => false
    case (NumberKey(a), NumberKey(b)) => a <= b
    case (TextKey(a), TextKey(b)) => LexLe(a, b)
    case (NumberKey(_), TextKey(_)) => true
    case (TextKey(_), NumberKey(_)) => false
  }

  /** Whether row `a` may come before row `b`. */
  predicate RowLe(f: SortField, o: SortOrder, a: Business, b: Business) {
    if o == Ascending then KeyLe(KeyOf(a, f), KeyOf(b, f)) else KeyLe(KeyOf(b, f), KeyOf(a, f))
  }

  function Ordering(f: SortField, o: SortOrder): (Business, Business) -> bool {
    (a, b) => RowLe(f, o, a, b)
  }

  lemma KeyLeTotalPreorder()
    ensures forall x, y :: KeyLe(x, y) || KeyLe(y, x)
    ensures forall x, y, z :: KeyLe(x, y) && KeyLe(y, z) ==> KeyLe(x, z)
  {
    forall x, y ensures KeyLe(x, y) || KeyLe(y, x) {
      if x.TextKey? && y.TextKey? {
        LexTotal(x.t, y.t);
      }
    }
    forall x, y, z | KeyLe(x, y) && KeyLe(y, z) ensures KeyLe(x, z) {
      if x.TextKey? && y.TextKey? && z.TextKey? {
        LexTransitive(x.t, y.t, z.t);
      }
    }
  }

  /** Every requested ordering compares all pairs of rows consistently, so sorting by it
      is well defined up to ties. */
  lemma OrderingIsTotalPreorder(f: SortField, o: SortOrder)
    ensures TotalPreorder(Ordering(f, o))
  {
    KeyLeTotalPreorder();
  }

  // ---------------------------------------------------------------------------
  // The page findAll returns
  // ---------------------------------------------------------------------------

  /** The matches in the requested order. */
  function OrderedMatches(rows: seq<Business>, s: Search, f: SortField, o: SortOrder): seq<Business> {
    Sort(MatchingRows(rows, s), Ordering(f, o))
  }

  /** Page `p` of the ordered matches: OFFSET (p - 1) * limit, LIMIT limit. */
  function PageRows(rows: seq<Business>, s: Search, f: SortField, o: SortOrder, p: nat): seq<Business>
    requires p >= 1
  {
    Window(OrderedMatches(rows, s, f, o), Offset(p, s.limit), s.limit)
  }

  /** The response of `findAll`. */
  datatype SearchResult = SearchResult(data: seq<Business>, total: nat, page: nat, limit: nat)

  function SearchPage(rows: seq<Business>, s: Search, f: SortField, o: SortOrder): SearchResult
    requires s.page >= 1
  {
    SearchResult(PageRows(rows, s, f, o, s.page), |MatchingRows(rows, s)|, s.page, s.limit)
  }

  /** The whole of `findAll` on a request: validation, the defaults, the sort column and
      direction, and the page. An unknown column or a direction other than ASC and DESC
      makes the query itself fail. */
  function FindAllResult(rows: seq<Business>, d: SearchBusinessDto): Result<SearchResult> {
    if !ValidSearch(d) then Err(BadRequest(SearchViolations(d)))
    else
      var s := Resolve(d);
      var f := ParseSortField(s.sortBy);
      var o := ParseSortOrder(s.sortOrder);
      if f.None? then Err(QueryFailed("unknown sort column " + s.sortBy))
      else if o.None? then Err(QueryFailed("sort order must be ASC or DESC"))
      else Ok(SearchPage(rows, s, f.value, o.value))
  }

  /** Every returned listing is stored and satisfies all active conditions; at most `limit`
      come back, in the requested order; `total` counts all matches whatever the page; `page`
      and `limit` are echoed. */
  lemma SearchPageSound(rows: seq<Business>, s: Search, f: SortField, o: SortOrder)
    requires s.page >= 1
    ensures var r := SearchPage(rows, s, f, o);
      && (forall b :: b in r.data ==> b in rows && Matches(s, b))
      && |r.data| <= s.limit
      && SortedBy(r.data, Ordering(f, o))
      && r.total == |MatchingRows(rows, s)|
      && r.page == s.page && r.limit == s.limit
  {
    var matching := MatchingRows(rows, s);
    var ordered := Sort(matching, Ordering(f, o));
    OrderingIsTotalPreorder(f, o);
    SortSorted(matching, Ordering(f, o));
    var skip := Offset(s.page, s.limit);
    WindowOfSorted(ordered, skip, s.limit, Ordering(f, o));
    forall b | b in Window(ordered, skip, s.limit) ensures b in rows && Matches(s, b) {
      SortSameElements(matching, Ordering(f, o), b);
    }
  }

  /** Paging loses nothing: every stored match is on some page. */
  lemma SearchPageComplete(rows: seq<Business>, s: Search, f: SortField, o: SortOrder, b: Business)
    requires s.limit >= 1
    requires b in rows && Matches(s, b)
    ensures exists p: nat :: p >= 1 && b in PageRows(rows, s, f, o, p)
  {
    var matching := MatchingRows(rows, s);
    var ordered := Sort(matching, Ordering(f, o));
    SortSameElements(matching, Ordering(f, o), b);
    var k :| 0 <= k < |ordered| && ordered[k] == b;
    var p, slot := PageOfPosition(k, s.limit);
    var w := PageRows(rows, s, f, o, p);
    assert w == Window(ordered, Offset(p, s.limit), s.limit);
    assert w[slot] == b;
  }

  /** A page that starts past the last match is empty. */
  lemma PagePastTheEndIsEmpty(rows: seq<Business>, s: Search, f: SortField, o: SortOrder)
    requires s.page >= 1
    requires Offset(s.page, s.limit) >= |MatchingRows(rows, s)|
    ensures SearchPage(rows, s, f, o).data == []
  {
  }

  // ---------------------------------------------------------------------------
  // getCategories: active listings per category
  // ---------------------------------------------------------------------------

  /** One row of the category report. */
  datatype CategoryCount = CategoryCount(category: Category, count: nat)

  predicate ActiveIn(c: Category, b: Business) {
    b.isActive && b.category == c
  }

  /** COUNT(*) of the active listings in category `c`. */
  function ActiveCount(rows: seq<Business>, c: Category): nat {
    Count(rows, b => ActiveIn(c, b))
  }

  predicate IsActiveRow(b: Business) {
    b.isActive
  }

  predicate IsInactiveRow(b: Business) {
    !b.isActive
  }

  predicate IsFeaturedRow(b: Business) {
    b.isFeatured
  }

  /** GROUP BY category over the active rows: one entry per category that has any. */
  function CategoryGroups(rows: seq<Business>, cs: seq<Category>): (r: seq<CategoryCount>)
    ensures forall e :: e in r ==> e.category in cs && e.count == ActiveCount(rows, e.category) && e.count > 0
    ensures forall c :: c in cs && ActiveCount(rows, c) > 0 ==> CategoryCount(c, ActiveCount(rows, c)) in r
  {
    if |cs| == 0 then []
    else
      var n := ActiveCount(rows, cs[0]);
      (if n > 0 then [CategoryCount(cs[0], n)] else []) + CategoryGroups(rows, cs[1..])
  }

  /** ORDER BY count DESC. */
  predicate MoreFrequentCategory(a: CategoryCount, b: CategoryCount) {
    a.count >= b.count
  }

  /** The report `getCategories` returns. */
  function CategoryHistogram(rows: seq<Business>): seq<CategoryCount> {
    Sort(CategoryGroups(rows, AllCategories), MoreFrequentCategory)
  }

  function SumCounts(s: seq<CategoryCount>): nat {
    if |s| == 0 then 0 else s[0].count + SumCounts(s[1..])
  }

  lemma {:induction false} SumCountsInsert(x: CategoryCount, s: seq<CategoryCount>)
    ensures SumCounts(Insert(x, s, MoreFrequentCategory)) == x.count + SumCounts(s)
  {
    if |s| > 0 && !MoreFrequentCategory(x, s[0]) {
      SumCountsInsert(x, s[1..]);
    }
  }

  lemma {:induction false} SumCountsSort(s: seq<CategoryCount>)
    ensures SumCounts(Sort(s, MoreFrequentCategory)) == SumCounts(s)
  {
    if |s| > 0 {
      SumCountsSort(s[1..]);
      SumCountsInsert(s[0], Sort(s[1..], MoreFrequentCategory));
    }
  }

  /** Σ ActiveCount over a list of categories. */
  function ActiveTotal(rows: seq<Business>, cs: seq<Category>): nat {
    if |cs| == 0 then 0 else ActiveCount(rows, cs[0]) + ActiveTotal(rows, cs[1..])
  }

  lemma {:induction false} GroupsSum(rows: seq<Business>, cs: seq<Category>)
    ensures SumCounts(CategoryGroups(rows, cs)) == ActiveTotal(rows, cs)
  {
    if |cs| > 0 {
      GroupsSum(rows, cs[1..]);
      var n := ActiveCount(rows, cs[0]);
      var head: seq<CategoryCount> := if n > 0 then [CategoryCount(cs[0], n)] else [];
      SumCountsConcat(head, CategoryGroups(rows, cs[1..]));
    }
  }

  lemma {:induction false} SumCountsConcat(a: seq<CategoryCount>, b: seq<CategoryCount>)
    ensures SumCounts(a + b) == SumCounts(a) + SumCounts(b)
  {
    if |a| > 0 {
      assert (a + b)[1..] == a[1..] + b;
      SumCountsConcat(a[1..], b);
    } else {
      assert a + b == b;
    }
  }

  /** How many of the categories in `cs` row `b` is an active member of. */
  function Memberships(b: Business, cs: seq<Category>): nat {
    if |cs| == 0 then 0 else (if ActiveIn(cs[0], b) then 1 else 0) + Memberships(b, cs[1..])
  }

  lemma {:induction false} MembershipsAbsent(b: Business, cs: seq<Category>)
    requires b.category !in cs
    ensures Memberships(b, cs) == 0
  {
    if |cs| > 0 {
      MembershipsAbsent(b, cs[1..]);
    }
  }

  lemma {:induction false} MembershipsOnce(b: Business, cs: seq<Category>)
    requires NoDuplicates(cs) && b.category in cs
    ensures Memberships(b, cs) == (if b.isActive then 1 else 0)
  {
    TailNoDuplicates(cs);
    if cs[0] == b.category {
      assert b.category !in cs[1..];
      MembershipsAbsent(b, cs[1..]);
    } else {
      MembershipsOnce(b, cs[1..]);
    }
  }

  lemma {:induction false} ActiveTotalSplit(rows: seq<Business>, cs: seq<Category>)
    requires |rows| > 0
    ensures ActiveTotal(rows, cs) == Memberships(rows[0], cs) + ActiveTotal(rows[1..], cs)
  {
    if |cs| > 0 {
      ActiveTotalSplit(rows, cs[1..]);
    }
  }

  lemma {:induction false} NothingToCount(rows: seq<Business>, cs: seq<Category>)
    requires |rows| == 0
    ensures ActiveTotal(rows, cs) == 0
  {
    if |cs| > 0 {
      NothingToCount(rows, cs[1..]);
    }
  }

  /** Every active listing is counted in exactly one category. */
  lemma {:induction false} ActiveTotalIsActive(rows: seq<Business>)
    ensures ActiveTotal(rows, AllCategories) == Count(rows, IsActiveRow)
  {
    if |rows| > 0 {
      ActiveTotalSplit(rows, AllCategories);
      AllCategoriesListedOnce();
      MembershipsOnce(rows[0], AllCategories);
      ActiveTotalIsActive(rows[1..]);
      assert Filter(rows, IsActiveRow)
             == (if IsActiveRow(rows[0]) then [rows[0]] else []) + Filter(rows[1..], IsActiveRow);
    } else {
      NothingToCount(rows, AllCategories);
    }
  }

  /** The category report: only active listings are counted, each category with listings
      appears once with its count, none appears with zero, the counts descend and add up to
      the number of active listings. */
  lemma CategoryHistogramSpec(rows: seq<Business>)
    ensures var h := CategoryHistogram(rows);
      && (forall e :: e in h ==> e.count == ActiveCount(rows, e.category) && e.count > 0)
      && (forall c: Category :: ActiveCount(rows, c) > 0 ==> CategoryCount(c, ActiveCount(rows, c)) in h)
      && (forall i, j :: 0 <= i < j < |h| ==> h[i].category != h[j].category)
      && SortedBy(h, MoreFrequentCategory)
      && SumCounts(h) == Count(rows, IsActiveRow)
  {
    var g := CategoryGroups(rows, AllCategories);
    var h := CategoryHistogram(rows);
    forall e | e in h ensures e in g {
      SortSameElements(g, MoreFrequentCategory, e);
    }
    AllCategoriesListedOnce();
    forall c: Category | ActiveCount(rows, c) > 0 ensures CategoryCount(c, ActiveCount(rows, c)) in h {
      SortSameElements(g, MoreFrequentCategory, CategoryCount(c, ActiveCount(rows, c)));
    }
    GroupsNoDuplicates(rows, AllCategories);
    PermutationNoDuplicates(g, h);
    forall i, j | 0 <= i < j < |h| ensures h[i].category != h[j].category {
      assert h[i] in h && h[j] in h;
    }
    SortSorted(g, MoreFrequentCategory);
    CategoryHistogramSum(rows);
  }

  lemma CategoryHistogramSum(rows: seq<Business>)
    ensures SumCounts(CategoryHistogram(rows)) == Count(rows, IsActiveRow)
  {
    SumCountsSort(CategoryGroups(rows, AllCategories));
    GroupsSum(rows, AllCategories);
    ActiveTotalIsActive(rows);
  }

  lemma {:induction false} GroupsNoDuplicates(rows: seq<Business>, cs: seq<Category>)
    requires NoDuplicates(cs)
    ensures NoDuplicates(CategoryGroups(rows, cs))
  {
    if |cs| > 0 {
      TailNoDuplicates(cs);
      GroupsNoDuplicates(rows, cs[1..]);
      var n := ActiveCount(rows, cs[0]);
      var rest := CategoryGroups(rows, cs[1..]);
      var r := CategoryGroups(rows, cs);
      if n > 0 {
        assert r == [CategoryCount(cs[0], n)] + rest;
        assert cs[0] !in cs[1..];
        forall i, j | 0 <= i < j < |r| ensures r[i] != r[j] {
          if i == 0 {
            assert r[j] == rest[j - 1];
            assert r[j] in rest;
          } else {
            assert r[i] == rest[i - 1] && r[j] == rest[j - 1];
          }
        }
      }
    }
  }

  lemma TailNoDuplicates<T>(s: seq<T>)
    requires |s| > 0 && NoDuplicates(s)
    ensures NoDuplicates(s[1..])
  {
    forall i, j | 0 <= i < j < |s[1..]| ensures s[1..][i] != s[1..][j] {
      assert s[1..][i] == s[i + 1] && s[1..][j] == s[j + 1];
    }
  }

  /** The nine categories are listed once each. */
  lemma AllCategoriesListedOnce()
    ensures NoDuplicates(AllCategories)
    ensures forall c: Category :: c in AllCategories
  {
    forall i | 0 <= i < |AllCategories| ensures CategoryRank(AllCategories[i]) == i {
    }
    forall c: Category ensures c in AllCategories {
      assert AllCategories[CategoryRank(c)] == c;
    }
  }

  // ---------------------------------------------------------------------------
  // getLocations: the 50 busiest (city, state, country) groups of active listings
  // ---------------------------------------------------------------------------

  datatype Location = Location(city: string, state: Option<string>, country: string)

  /** One row of the location report. */
  datatype LocationCount = LocationCount(city: string, state: Option<string>, country: string, count: nat)

  function LocationOf(b: Business): Location {
    Location(b.city, b.state, b.country)
  }

  function PlaceOf(e: LocationCount): Location {
    Location(e.city, e.state, e.country)
  }

  predicate ActiveAt(l: Location, b: Business) {
    b.isActive && LocationOf(b) == l
  }

  /** COUNT(*) of the active listings at one location. */
  function LocationRowCount(rows: seq<Business>, l: Location): nat {
    Count(rows, b => ActiveAt(l, b))
  }

  /** The distinct locations of the active rows: GROUP BY city, state, country. */
  function ActiveLocations(rows: seq<Business>): (r: seq<Location>)
    ensures NoDuplicates(r)
    ensures forall l :: l in r <==> LocationRowCount(rows, l) > 0
  {
    if |rows| == 0 then []
    else
      var rest := ActiveLocations(rows[1..]);
      var here := LocationOf(rows[0]);
      assert forall l :: LocationRowCount(rows, l)
                         == (if ActiveAt(l, rows[0]) then 1 else 0) + LocationRowCount(rows[1..], l);
      if !rows[0].isActive || here in rest then rest
      else
        var r := [here] + rest;
        assert forall j :: 0 < j < |r| ==> r[j] == rest[j - 1];
        r
  }

  /** Attaches its count to each location. */
  function CountEach(rows: seq<Business>, ls: seq<Location>): (r: seq<LocationCount>)
    ensures |r| == |ls|
    ensures forall i :: 0 <= i < |r| ==> PlaceOf(r[i]) == ls[i] && r[i].count == LocationRowCount(rows, ls[i])
  {
    if |ls| == 0 then []
    else
      [LocationCount(ls[0].city, ls[0].state, ls[0].country, LocationRowCount(rows, ls[0]))]
      + CountEach(rows, ls[1..])
  }

  /** ORDER BY count DESC. */
  predicate MoreFrequentLocation(a: LocationCount, b: LocationCount) {
    a.count >= b.count
  }

  const LocationReportSize: nat := 50

  /** The report `getLocations` returns: the groups by descending count, LIMIT 50. */
  function LocationHistogram(rows: seq<Business>): seq<LocationCount> {
    var sorted := Sort(CountEach(rows, ActiveLocations(rows)), MoreFrequentLocation);
    sorted[..Min(LocationReportSize, |sorted|)]
  }

  /** The location report: at most 50 rows, each a distinct location of active listings
      with its count, in descending count order. */
  lemma LocationHistogramSpec(rows: seq<Business>)
    ensures var h := LocationHistogram(rows);
      && |h| <= 50
      && (forall e :: e in h ==> e.count == LocationRowCount(rows, PlaceOf(e)) && e.count > 0)
      && (forall i, j :: 0 <= i < j < |h| ==> PlaceOf(h[i]) != PlaceOf(h[j]))
      && SortedBy(h, MoreFrequentLocation)
  {
    var ls := ActiveLocations(rows);
    var g := CountEach(rows, ls);
    var sorted := Sort(g, MoreFrequentLocation);
    var h := LocationHistogram(rows);
    assert h == sorted[..Min(50, |sorted|)];
    SortSorted(g, MoreFrequentLocation);
    CountEachNoDuplicates(rows, ls);
    forall e | e in h ensures e in g {
      SortSameElements(g, MoreFrequentLocation, e);
    }
    forall i, j | 0 <= i < j < |h| ensures PlaceOf(h[i]) != PlaceOf(h[j]) {
      assert h[i] in h && h[j] in h;
      PermutationNoDuplicates(g, sorted);
      assert h[i] == sorted[i] && h[j] == sorted[j];
    }
  }

  /** Only the limit can hide a location: one that is not shown means more than 50 groups,
      and every location shown has at least as many listings as it. */
  lemma LocationLeftOut(rows: seq<Business>, l: Location)
    requires LocationRowCount(rows, l) > 0
    requires forall j :: 0 <= j < |LocationHistogram(rows)| ==> PlaceOf(LocationHistogram(rows)[j]) != l
    ensures |ActiveLocations(rows)| > 50 && |LocationHistogram(rows)| == 50
    ensures forall i :: 0 <= i < |LocationHistogram(rows)| ==>
              LocationHistogram(rows)[i].count >= LocationRowCount(rows, l)
  {
    var g := CountEach(rows, ActiveLocations(rows));
    var sorted := Sort(g, MoreFrequentLocation);
    var h := LocationHistogram(rows);
    assert h == sorted[..Min(50, |sorted|)];
    var k := PositionInSorted(rows, l);
    SortSorted(g, MoreFrequentLocation);
    HiddenBehindPrefix(sorted, h, k, l);
  }

  /** In groups sorted by descending count, a group that is not among the first 50 means
      there are more than 50 groups, each of the first 50 at least as large as it. */
  lemma HiddenBehindPrefix(sorted: seq<LocationCount>, h: seq<LocationCount>, k: nat, l: Location)
    requires SortedBy(sorted, MoreFrequentLocation)
    requires h == sorted[..Min(50, |sorted|)]
    requires k < |sorted| && PlaceOf(sorted[k]) == l
    requires forall j :: 0 <= j < |h| ==> PlaceOf(h[j]) != l
    ensures |sorted| > 50 && |h| == 50
    ensures forall i :: 0 <= i < |h| ==> h[i].count >= sorted[k].count
  {
    AheadInSorted(sorted, 50, k);
  }

  /** Where a location's group ends up in the sorted groups. */
  lemma PositionInSorted(rows: seq<Business>, l: Location) returns (k: nat)
    requires LocationRowCount(rows, l) > 0
    ensures var sorted := Sort(CountEach(rows, ActiveLocations(rows)), MoreFrequentLocation);
      k < |sorted| && PlaceOf(sorted[k]) == l && sorted[k].count == LocationRowCount(rows, l)
  {
    var ls := ActiveLocations(rows);
    var g := CountEach(rows, ls);
    var i :| 0 <= i < |ls| && ls[i] == l;
    SortSameElements(g, MoreFrequentLocation, g[i]);
    var sorted := Sort(g, MoreFrequentLocation);
    k :| 0 <= k < |sorted| && sorted[k] == g[i];
  }

  /** In a sequence sorted by descending count, the first n entries count at least as much
      as any entry at position n or later. */
  lemma AheadInSorted(sorted: seq<LocationCount>, n: nat, k: nat)
    requires SortedBy(sorted, MoreFrequentLocation)
    requires n <= k < |sorted|
    ensures forall j :: 0 <= j < n ==> sorted[j].count >= sorted[k].count
  {
  }

  /** Each location's entry is determined by its location, so distinct locations give
      distinct entries. */
  lemma CountEachNoDuplicates(rows: seq<Business>, ls: seq<Location>)
    requires NoDuplicates(ls)
    ensures NoDuplicates(CountEach(rows, ls))
    ensures forall e1, e2 :: e1 in CountEach(rows, ls) && e2 in CountEach(rows, ls) && PlaceOf(e1) == PlaceOf(e2) ==> e1 == e2
  {
    var g := CountEach(rows, ls);
    forall e1, e2 | e1 in g && e2 in g && PlaceOf(e1) == PlaceOf(e2) ensures e1 == e2 {
      var i :| 0 <= i < |g| && g[i] == e1;
      var j :| 0 <= j < |g| && g[j] == e2;
    }
  }

  // ---------------------------------------------------------------------------
  // getStats
  // ---------------------------------------------------------------------------

  datatype BusinessStats = BusinessStats(
    total: nat,
    active: nat,
    inactive: int,
    featured: nat,
    byCategory: seq<CategoryCount>)

  /** The four separately counted figures; `inactive` is derived by subtraction. */
  function Stats(rows: seq<Business>): BusinessStats {
    var active := Count(rows, IsActiveRow);
    BusinessStats(|rows|, active, |rows| - active, Count(rows, IsFeaturedRow), CategoryHistogram(rows))
  }

  /** The count identities of the stats report: `inactive` is the number of inactive
      listings, active and inactive add up to the total, featured listings are counted whether
      active or not and never exceed the total, and the category counts add up to `active`. */
  lemma StatsIdentities(rows: seq<Business>)
    ensures var st := Stats(rows);
      && st.inactive == Count(rows, IsInactiveRow)
      && 0 <= st.inactive <= st.total
      && st.active + st.inactive == st.total
      && st.featured <= st.total
      && st.featured == Count(rows, IsFeaturedRow)
      && SumCounts(st.byCategory) == st.active
  {
    CountComplement(rows, IsActiveRow, IsInactiveRow);
    CategoryHistogramSum(rows);
  }
}


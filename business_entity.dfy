/** The `businesses` table: one row per rental business, its closed category enumeration and
    the widths and defaults of its columns. */
module BusinessEntity {
  import opened Wrappers
  import opened JsonValues

  /** The nine listing categories, in the order the database enum declares them. */
  datatype Category =
    | Vehicles | Properties | Equipment | Events | Recreation
    | Electronics | Furniture | Tools | Other

  const AllCategories: seq<Category> :=
    [Vehicles, Properties, Equipment, Events, Recreation, Electronics, Furniture, Tools, Other]

  /** The category the column takes when an insert does not name one. */
  const DefaultCategory: Category := Other

  /** The string each category is stored and transmitted as. */
  function CategoryValue(c: Category): string {
    match c
    case Vehicles => "vehicles"
    case Properties => "properties"
    case Equipment => "equipment"
    case Events => "events"
    case Recreation => "recreation"
    case Electronics => "electronics"
    case Furniture => "furniture"
    case Tools => "tools"
    case Other => "other"
  }

  /** Position of a category in the enum declaration; PostgreSQL orders enum values this way. */
  function CategoryRank(c: Category): (r: nat)
    ensures r < |AllCategories| && AllCategories[r] == c
  {
    match c
    case Vehicles => 0
    case Properties => 1
    case Equipment => 2
    case Events => 3
    case Recreation => 4
    case Electronics => 5
    case Furniture => 6
    case Tools => 7
    case Other => 8
  }

  /** `@IsEnum(BusinessCategory)`: accepts exactly the nine stored strings. */
  function ParseCategory(s: string): (r: Option<Category>)
    ensures r.Some? ==> CategoryValue(r.value) == s
    ensures r.None? ==> forall c: Category :: CategoryValue(c) != s
  {
    if s == "vehicles" then Some(Vehicles)
    else if s == "properties" then Some(Properties)
    else if s == "equipment" then Some(Equipment)
    else if s == "events" then Some(Events)
    else if s == "recreation" then Some(Recreation)
    else if s == "electronics" then Some(Electronics)
    else if s == "furniture" then Some(Furniture)
    else if s == "tools" then Some(Tools)
    else if s == "other" then Some(Other)
    else None
  }

  /** Every category is accepted back from its own string, so the enum round-trips. */
  lemma CategoryRoundTrip(c: Category)
    ensures ParseCategory(CategoryValue(c)) == Some(c)
  {
  }

  /** Distinct categories are stored as distinct strings. */
  lemma CategoryValueInjective(c: Category, d: Category)
    requires CategoryValue(c) == CategoryValue(d)
    ensures c == d
  {
    CategoryRoundTrip(c);
    CategoryRoundTrip(d);
  }

  /** The `operatingHours` jsonb: one optional free-text entry per weekday. */
  datatype OperatingHours = OperatingHours(
    monday: Option<string>,
    tuesday: Option<string>,
    wednesday: Option<string>,
    thursday: Option<string>,
    friday: Option<string>,
    saturday: Option<string>,
    sunday: Option<string>)

  /** One stored listing. `None` is SQL NULL; instants are milliseconds. */
  datatype Business = Business(
    id: string,
    name: string,
    description: string,
    category: Category,
    website: Option<string>,
    phone: Option<string>,
    email: string,
    address: string,
    city: string,
    state: Option<string>,
    country: string,
    zipCode: Option<string>,
    latitude: Option<real>,
    longitude: Option<real>,
    rentalItems: Option<seq<string>>,
    amenities: Option<seq<string>>,
    images: Option<seq<string>>,
    logo: Option<string>,
    operatingHours: Option<OperatingHours>,
    rating: real,
    reviewCount: int,
    isActive: bool,
    isFeatured: bool,
    metadata: Option<Json>,
    createdAt: int,
    updatedAt: int)

  /** Column defaults of a new row. */
  const DefaultRating: real := 0.0
  const DefaultReviewCount: int := 0
  const DefaultIsActive: bool := true
  const DefaultIsFeatured: bool := false

  /** Largest and smallest value of a PostgreSQL `int` column. */
  const IntMax: int := 0x7fff_ffff
  const IntMin: int := -0x8000_0000

  predicate OptionalWithin(s: Option<string>, max: nat) {
    s.Some? ==> |s.value| <= max
  }

  /** A `decimal(precision, scale)` column holds values whose magnitude is below
      10^(precision - scale). */
  predicate DecimalFits(x: real, integerDigits: nat) {
    var bound := Pow10(integerDigits) as real;
    -bound < x < bound
  }

  function Pow10(n: nat): (r: nat)
    ensures r >= 1
  {
    if n == 0 then 1 else 10 * Pow10(n - 1)
  }

  /** What the table itself accepts: varchar widths, decimal precisions, int range. A row
      outside these bounds makes the INSERT or UPDATE fail. */
  predicate FitsColumns(b: Business) {
    && |b.name| <= 255
    && OptionalWithin(b.website, 255)
    && OptionalWithin(b.phone, 20)
    && |b.email| <= 255
    && |b.city| <= 100
    && OptionalWithin(b.state, 100)
    && |b.country| <= 100
    && OptionalWithin(b.zipCode, 20)
    && (b.latitude.Some? ==> DecimalFits(b.latitude.value, 3))
    && (b.longitude.Some? ==> DecimalFits(b.longitude.value, 3))
    && DecimalFits(b.rating, 1)
    && IntMin <= b.reviewCount <= IntMax
  }

  /** The identifier is the only unique key: no two rows share one. */
  predicate UniqueIds(rows: seq<Business>) {
    forall i, j :: 0 <= i < |rows| && 0 <= j < |rows| && rows[i].id == rows[j].id ==> i == j
  }
}

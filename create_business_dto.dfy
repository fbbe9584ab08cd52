/** The body of `POST /businesses` and its validation rules, the row `create` builds from it
    (column defaults), and the partial body of `PATCH /businesses/:id` with the merge that
    `update` performs. */
module CreateBusinessDto {
  import opened Wrappers
  import opened BusinessEntity
  import opened JsonValues

  /** Format checks the validation library performs (`@IsEmail`, `@IsUrl`); their exact
      grammars are the library's and enter the model as parameters. */
  datatype FormatChecks = FormatChecks(isEmail: string -> bool, isUrl: string -> bool)

  /** A create request. Required properties are plain values; optional ones are `None` when
      the request leaves them out. `category` is the raw string before `@IsEnum`. */
  datatype CreateBusinessDto = CreateBusinessDto(
    name: string,
    description: string,
    category: string,
    website: Option<string>,
    phone: Option<string>,
    email: string,
    address: string,
    city: string,
    state: Option<string>,
    country: string,
    zipCode: Option<string>,
    latitude: Option<real>,
    longitude: Option<real>,
    rentalItems: Option<seq<string>>,
    amenities: Option<seq<string>>,
    images: Option<seq<string>>,
    logo: Option<string>,
    operatingHours: Option<OperatingHours>,
    rating: Option<real>,
    reviewCount: Option<int>,
    isActive: Option<bool>,
    isFeatured: Option<bool>,
    metadata: Option<Json>)

  // ---------------------------------------------------------------------------
  // Per-property rules (the decorators)
  // ---------------------------------------------------------------------------

  predicate NameOk(s: string) { 2 <= |s| <= 255 }
  predicate DescriptionOk(s: string) { |s| >= 10 }
  predicate CategoryOk(s: string) { ParseCategory(s).Some? }
  predicate WebsiteOk(s: string, f: FormatChecks) { f.isUrl(s) && |s| <= 255 }
  predicate PhoneOk(s: string) { |s| <= 20 }
  predicate EmailOk(s: string, f: FormatChecks) { f.isEmail(s) && |s| <= 255 }
  predicate AddressOk(s: string) { |s| >= 5 }
  predicate CityOk(s: string) { 2 <= |s| <= 100 }
  predicate StateOk(s: string) { |s| <= 100 }
  predicate CountryOk(s: string) { 2 <= |s| <= 100 }
  predicate ZipCodeOk(s: string) { |s| <= 20 }
  predicate LatitudeOk(x: real) { -90.0 <= x <= 90.0 }
  predicate LongitudeOk(x: real) { -180.0 <= x <= 180.0 }
  predicate ImagesOk(xs: seq<string>, f: FormatChecks) { forall i :: 0 <= i < |xs| ==> f.isUrl(xs[i]) }
  predicate LogoOk(s: string, f: FormatChecks) { f.isUrl(s) }
  predicate RatingOk(x: real) { 0.0 <= x <= 5.0 }
  predicate ReviewCountOk(n: int) { n >= 0 }
  predicate MetadataOk(j: Json) { j.JObject? }

  /** Independent statement of every rule of the create body. */
  predicate ValidCreate(d: CreateBusinessDto, f: FormatChecks) {
    && NameOk(d.name)
    && DescriptionOk(d.description)
    && CategoryOk(d.category)
    && (d.website.Some? ==> WebsiteOk(d.website.value, f))
    && (d.phone.Some? ==> PhoneOk(d.phone.value))
    && EmailOk(d.email, f)
    && AddressOk(d.address)
    && CityOk(d.city)
    && (d.state.Some? ==> StateOk(d.state.value))
    && CountryOk(d.country)
    && (d.zipCode.Some? ==> ZipCodeOk(d.zipCode.value))
    && (d.latitude.Some? ==> LatitudeOk(d.latitude.value))
    && (d.longitude.Some? ==> LongitudeOk(d.longitude.value))
    && (d.images.Some? ==> ImagesOk(d.images.value, f))
    && (d.logo.Some? ==> LogoOk(d.logo.value, f))
    && (d.rating.Some? ==> RatingOk(d.rating.value))
    && (d.reviewCount.Some? ==> ReviewCountOk(d.reviewCount.value))
    && (d.metadata.Some? ==> MetadataOk(d.metadata.value))
  }

  /** The create rules in declaration order. */
  function CreateRules(d: CreateBusinessDto, f: FormatChecks): seq<Rule> {
    [ Rule("name", NameOk(d.name)),
      Rule("description", DescriptionOk(d.description)),
      Rule("category", CategoryOk(d.category)),
      Rule("website", (d.website.None? || WebsiteOk(d.website.value, f))),
      Rule("phone", (d.phone.None? || PhoneOk(d.phone.value))),
      Rule("email", EmailOk(d.email, f)),
      Rule("address", AddressOk(d.address)),
      Rule("city", CityOk(d.city)),
      Rule("state", (d.state.None? || StateOk(d.state.value))),
      Rule("country", CountryOk(d.country)),
      Rule("zipCode", (d.zipCode.None? || ZipCodeOk(d.zipCode.value))),
      Rule("latitude", (d.latitude.None? || LatitudeOk(d.latitude.value))),
      Rule("longitude", (d.longitude.None? || LongitudeOk(d.longitude.value))),
      Rule("images", (d.images.None? || ImagesOk(d.images.value, f))),
      Rule("logo", (d.logo.None? || LogoOk(d.logo.value, f))),
      Rule("rating", (d.rating.None? || RatingOk(d.rating.value))),
      Rule("reviewCount", (d.reviewCount.None? || ReviewCountOk(d.reviewCount.value))),
      Rule("metadata", (d.metadata.None? || MetadataOk(d.metadata.value))) ]
  }

  /** The pipe rejects a create body exactly when one of the stated rules fails. */
  lemma CreateRulesMatchValid(d: CreateBusinessDto, f: FormatChecks)
    ensures Violations(CreateRules(d, f)) == [] <==> ValidCreate(d, f)
  {
    if ValidCreate(d, f) {
      ValidCreatePassesRules(d, f);
    }
    if AllOk(CreateRules(d, f)) {
      PassingRulesValidCreate(d, f);
    }
  }

  lemma ValidCreatePassesRules(d: CreateBusinessDto, f: FormatChecks)
    requires ValidCreate(d, f)
    ensures AllOk(CreateRules(d, f))
  {
    var rules := CreateRules(d, f);
    forall i | 0 <= i < |rules| ensures rules[i].ok {
    }
  }

  lemma PassingRulesValidCreate(d: CreateBusinessDto, f: FormatChecks)
    requires AllOk(CreateRules(d, f))
    ensures ValidCreate(d, f)
  {
    var rules := CreateRules(d, f);
    assert rules[0].ok && rules[1].ok && rules[2].ok && rules[3].ok && rules[4].ok && rules[5].ok;
    assert rules[6].ok && rules[7].ok && rules[8].ok && rules[9].ok && rules[10].ok && rules[11].ok;
    assert rules[12].ok && rules[13].ok && rules[14].ok && rules[15].ok && rules[16].ok && rules[17].ok;
  }

  // ---------------------------------------------------------------------------
  // create: the new row with its column defaults
  // ---------------------------------------------------------------------------

  /** `repository.create(dto)` followed by the INSERT: absent optional properties become NULL
      or the column default, the id and both timestamps come from the database. */
  function NewBusiness(d: CreateBusinessDto, id: string, now: int): (b: Business)
    requires CategoryOk(d.category)
    ensures b.id == id && b.createdAt == now && b.updatedAt == now
    ensures CategoryValue(b.category) == d.category
    ensures b.isActive == (d.isActive != Some(false)) && b.isFeatured == (d.isFeatured == Some(true))
    ensures d.rating.None? ==> b.rating == 0.0
    ensures d.reviewCount.None? ==> b.reviewCount == 0
  {
    Business(
      id := id,
      name := d.name,
      description := d.description,
      category := ParseCategory(d.category).value,
      website := d.website,
      phone := d.phone,
      email := d.email,
      address := d.address,
      city := d.city,
      state := d.state,
      country := d.country,
      zipCode := d.zipCode,
      latitude := d.latitude,
      longitude := d.longitude,
      rentalItems := d.rentalItems,
      amenities := d.amenities,
      images := d.images,
      logo := d.logo,
      operatingHours := d.operatingHours,
      rating := d.rating.GetOr(DefaultRating),
      reviewCount := d.reviewCount.GetOr(DefaultReviewCount),
      isActive := d.isActive.GetOr(DefaultIsActive),
      isFeatured := d.isFeatured.GetOr(DefaultIsFeatured),
      metadata := d.metadata,
      createdAt := now,
      updatedAt := now)
  }

  /** A body that passes validation fits every column, except that `reviewCount` has no
      upper bound in the rules and so may exceed the `int` column. */
  lemma ValidCreateFitsColumns(d: CreateBusinessDto, f: FormatChecks, id: string, now: int)
    requires ValidCreate(d, f)
    ensures FitsColumns(NewBusiness(d, id, now)) <==> d.reviewCount.GetOr(0) <= IntMax
  {
    assert Pow10(1) == 10 && Pow10(3) == 1000;
  }

  // ---------------------------------------------------------------------------
  // update: the partial body and the merge
  // ---------------------------------------------------------------------------

  /** A `PATCH` body: every property of the create body, each optional (`None` = left out). */
  datatype UpdateBusinessDto = UpdateBusinessDto(
    name: Option<string>,
    description: Option<string>,
    category: Option<string>,
    website: Option<string>,
    phone: Option<string>,
    email: Option<string>,
    address: Option<string>,
    city: Option<string>,
    state: Option<string>,
    country: Option<string>,
    zipCode: Option<string>,
    latitude: Option<real>,
    longitude: Option<real>,
    rentalItems: Option<seq<string>>,
    amenities: Option<seq<string>>,
    images: Option<seq<string>>,
    logo: Option<string>,
    operatingHours: Option<OperatingHours>,
    rating: Option<real>,
    reviewCount: Option<int>,
    isActive: Option<bool>,
    isFeatured: Option<bool>,
    metadata: Option<Json>)

  /** The create rules, each applied only to the properties the patch carries. */
  predicate ValidUpdate(u: UpdateBusinessDto, f: FormatChecks) {
    && (u.name.Some? ==> NameOk(u.name.value))
    && (u.description.Some? ==> DescriptionOk(u.description.value))
    && (u.category.Some? ==> CategoryOk(u.category.value))
    && (u.website.Some? ==> WebsiteOk(u.website.value, f))
    && (u.phone.Some? ==> PhoneOk(u.phone.value))
    && (u.email.Some? ==> EmailOk(u.email.value, f))
    && (u.address.Some? ==> AddressOk(u.address.value))
    && (u.city.Some? ==> CityOk(u.city.value))
    && (u.state.Some? ==> StateOk(u.state.value))
    && (u.country.Some? ==> CountryOk(u.country.value))
    && (u.zipCode.Some? ==> ZipCodeOk(u.zipCode.value))
    && (u.latitude.Some? ==> LatitudeOk(u.latitude.value))
    && (u.longitude.Some? ==> LongitudeOk(u.longitude.value))
    && (u.images.Some? ==> ImagesOk(u.images.value, f))
    && (u.logo.Some? ==> LogoOk(u.logo.value, f))
    && (u.rating.Some? ==> RatingOk(u.rating.value))
    && (u.reviewCount.Some? ==> ReviewCountOk(u.reviewCount.value))
    && (u.metadata.Some? ==> MetadataOk(u.metadata.value))
  }

  function UpdateRules(u: UpdateBusinessDto, f: FormatChecks): seq<Rule> {
    [ Rule("name", (u.name.None? || NameOk(u.name.value))),
      Rule("description", (u.description.None? || DescriptionOk(u.description.value))),
      Rule("category", (u.category.None? || CategoryOk(u.category.value))),
      Rule("website", (u.website.None? || WebsiteOk(u.website.value, f))),
      Rule("phone", (u.phone.None? || PhoneOk(u.phone.value))),
      Rule("email", (u.email.None? || EmailOk(u.email.value, f))),
      Rule("address", (u.address.None? || AddressOk(u.address.value))),
      Rule("city", (u.city.None? || CityOk(u.city.value))),
      Rule("state", (u.state.None? || StateOk(u.state.value))),
      Rule("country", (u.country.None? || CountryOk(u.country.value))),
      Rule("zipCode", (u.zipCode.None? || ZipCodeOk(u.zipCode.value))),
      Rule("latitude", (u.latitude.None? || LatitudeOk(u.latitude.value))),
      Rule("longitude", (u.longitude.None? || LongitudeOk(u.longitude.value))),
      Rule("images", (u.images.None? || ImagesOk(u.images.value, f))),
      Rule("logo", (u.logo.None? || LogoOk(u.logo.value, f))),
      Rule("rating", (u.rating.None? || RatingOk(u.rating.value))),
      Rule("reviewCount", (u.reviewCount.None? || ReviewCountOk(u.reviewCount.value))),
      Rule("metadata", (u.metadata.None? || MetadataOk(u.metadata.value))) ]
  }

  /** The pipe rejects a patch exactly when a carried property breaks its create rule. */
  lemma UpdateRulesMatchValid(u: UpdateBusinessDto, f: FormatChecks)
    ensures Violations(UpdateRules(u, f)) == [] <==> ValidUpdate(u, f)
  {
    if ValidUpdate(u, f) {
      ValidUpdatePassesRules(u, f);
    }
    if AllOk(UpdateRules(u, f)) {
      PassingRulesValidUpdate(u, f);
    }
  }

  lemma ValidUpdatePassesRules(u: UpdateBusinessDto, f: FormatChecks)
    requires ValidUpdate(u, f)
    ensures AllOk(UpdateRules(u, f))
  {
    var rules := UpdateRules(u, f);
    forall i | 0 <= i < |rules| ensures rules[i].ok {
    }
  }

  lemma PassingRulesValidUpdate(u: UpdateBusinessDto, f: FormatChecks)
    requires AllOk(UpdateRules(u, f))
    ensures ValidUpdate(u, f)
  {
    var rules := UpdateRules(u, f);
    assert rules[0].ok && rules[1].ok && rules[2].ok && rules[3].ok && rules[4].ok && rules[5].ok;
    assert rules[6].ok && rules[7].ok && rules[8].ok && rules[9].ok && rules[10].ok && rules[11].ok;
    assert rules[12].ok && rules[13].ok && rules[14].ok && rules[15].ok && rules[16].ok && rules[17].ok;
  }

  /** The properties of a listing that a request body can carry. */
  datatype Field =
    | FName | FDescription | FCategory | FWebsite | FPhone | FEmail | FAddress | FCity
    | FState | FCountry | FZipCode | FLatitude | FLongitude | FRentalItems | FAmenities
    | FImages | FLogo | FOperatingHours | FRating | FReviewCount | FIsActive | FIsFeatured
    | FMetadata

  /** The value of one property, whatever its type. */
  datatype FieldValue =
    | VText(s: string)
    | VOptText(o: Option<string>)
    | VCategory(c: Category)
    | VOptReal(x: Option<real>)
    | VOptList(l: Option<seq<string>>)
    | VOptHours(h: Option<OperatingHours>)
    | VReal(r: real)
    | VInt(n: int)
    | VBool(b: bool)
    | VOptJson(j: Option<Json>)

  /** Reads one property of a stored listing. */
  function Get(b: Business, k: Field): FieldValue {
    match k
    case FName => VText(b.name)
    case FDescription => VText(b.description)
    case FCategory => VCategory(b.category)
    case FWebsite => VOptText(b.website)
    case FPhone => VOptText(b.phone)
    case FEmail => VText(b.email)
    case FAddress => VText(b.address)
    case FCity => VText(b.city)
    case FState => VOptText(b.state)
    case FCountry => VText(b.country)
    case FZipCode => VOptText(b.zipCode)
    case FLatitude => VOptReal(b.latitude)
    case FLongitude => VOptReal(b.longitude)
    case FRentalItems => VOptList(b.rentalItems)
    case FAmenities => VOptList(b.amenities)
    case FImages => VOptList(b.images)
    case FLogo => VOptText(b.logo)
    case FOperatingHours => VOptHours(b.operatingHours)
    case FRating => VReal(b.rating)
    case FReviewCount => VInt(b.reviewCount)
    case FIsActive => VBool(b.isActive)
    case FIsFeatured => VBool(b.isFeatured)
    case FMetadata => VOptJson(b.metadata)
  }

  /** The value a patch carries for one property, as it would be stored; `None` when the
      patch leaves the property out. */
  function Carried(u: UpdateBusinessDto, k: Field): Option<FieldValue>
    requires u.category.Some? ==> CategoryOk(u.category.value)
  {
    match k
    case FName => if u.name.Some? then Some(VText(u.name.value)) else None
    case FDescription => if u.description.Some? then Some(VText(u.description.value)) else None
    case FCategory =>
      if u.category.Some? then Some(VCategory(ParseCategory(u.category.value).value)) else None
    case FWebsite => if u.website.Some? then Some(VOptText(u.website)) else None
    case FPhone => if u.phone.Some? then Some(VOptText(u.phone)) else None
    case FEmail => if u.email.Some? then Some(VText(u.email.value)) else None
    case FAddress => if u.address.Some? then Some(VText(u.address.value)) else None
    case FCity => if u.city.Some? then Some(VText(u.city.value)) else None
    case FState => if u.state.Some? then Some(VOptText(u.state)) else None
    case FCountry => if u.country.Some? then Some(VText(u.country.value)) else None
    case FZipCode => if u.zipCode.Some? then Some(VOptText(u.zipCode)) else None
    case FLatitude => if u.latitude.Some? then Some(VOptReal(u.latitude)) else None
    case FLongitude => if u.longitude.Some? then Some(VOptReal(u.longitude)) else None
    case FRentalItems => if u.rentalItems.Some? then Some(VOptList(u.rentalItems)) else None
    case FAmenities => if u.amenities.Some? then Some(VOptList(u.amenities)) else None
    case FImages => if u.images.Some? then Some(VOptList(u.images)) else None
    case FLogo => if u.logo.Some? then Some(VOptText(u.logo)) else None
    case FOperatingHours =>
      if u.operatingHours.Some? then Some(VOptHours(u.operatingHours)) else None
    case FRating => if u.rating.Some? then Some(VReal(u.rating.value)) else None
    case FReviewCount => if u.reviewCount.Some? then Some(VInt(u.reviewCount.value)) else None
    case FIsActive => if u.isActive.Some? then Some(VBool(u.isActive.value)) else None
    case FIsFeatured => if u.isFeatured.Some? then Some(VBool(u.isFeatured.value)) else None
    case FMetadata => if u.metadata.Some? then Some(VOptJson(u.metadata)) else None
  }

  function Pick<T>(o: Option<T>, current: T): T {
    if o.Some? then o.value else current
  }

  /** `Object.assign(entity, dto)`: the carried properties overwrite, the rest stay. */
  function Assign(b: Business, u: UpdateBusinessDto): Business
    requires u.category.Some? ==> CategoryOk(u.category.value)
  {
    Business(
      id := b.id,
      name := if u.name.Some? then u.name.value else b.name,
      description := if u.description.Some? then u.description.value else b.description,
      category := if u.category.Some? then ParseCategory(u.category.value).value else b.category,
      website := if u.website.Some? then u.website else b.website,
      phone := if u.phone.Some? then u.phone else b.phone,
      email := if u.email.Some? then u.email.value else b.email,
      address := if u.address.Some? then u.address.value else b.address,
      city := if u.city.Some? then u.city.value else b.city,
      state := if u.state.Some? then u.state else b.state,
      country := if u.country.Some? then u.country.value else b.country,
      zipCode := if u.zipCode.Some? then u.zipCode else b.zipCode,
      latitude := if u.latitude.Some? then u.latitude else b.latitude,
      longitude := if u.longitude.Some? then u.longitude else b.longitude,
      rentalItems := if u.rentalItems.Some? then u.rentalItems else b.rentalItems,
      amenities := if u.amenities.Some? then u.amenities else b.amenities,
      images := if u.images.Some? then u.images else b.images,
      logo := if u.logo.Some? then u.logo else b.logo,
      operatingHours := if u.operatingHours.Some? then u.operatingHours else b.operatingHours,
      rating := if u.rating.Some? then u.rating.value else b.rating,
      reviewCount := if u.reviewCount.Some? then u.reviewCount.value else b.reviewCount,
      isActive := if u.isActive.Some? then u.isActive.value else b.isActive,
      isFeatured := if u.isFeatured.Some? then u.isFeatured.value else b.isFeatured,
      metadata := if u.metadata.Some? then u.metadata else b.metadata,
      createdAt := b.createdAt,
      updatedAt := b.updatedAt)
  }

  /** The properties whose assigned value `save` never finds equal to the loaded one. The
      decimal columns (latitude, longitude, rating) come back from PostgreSQL as strings and
      are compared with `===` against the assigned numbers; the opening hours are assigned as
      an `OperatingHoursDto` instance, which the deep comparison of jsonb values tells apart
      from the loaded plain object by its constructor. */
  predicate AlwaysDiffers(k: Field) {
    k == FLatitude || k == FLongitude || k == FOperatingHours || k == FRating
  }

  /** The patch carries one of the properties `save` always writes. */
  predicate WritesAlways(u: UpdateBusinessDto) {
    u.latitude.Some? || u.longitude.Some? || u.operatingHours.Some? || u.rating.Some?
  }

  /** `save` after the assignment: an UPDATE, which sets the `@UpdateDateColumn` to `now`, is
      written only when some column compares unequal to the loaded row; otherwise the row
      stays as it was, its update time included. */
  function Merge(b: Business, u: UpdateBusinessDto, now: int): Business
    requires u.category.Some? ==> CategoryOk(u.category.value)
  {
    var a := Assign(b, u);
    if a == b && !WritesAlways(u) then b else a.(updatedAt := now)
  }

  /** The patch carries a property that `save` finds changed: one it always writes, or one
      whose value differs from the stored one. */
  predicate ChangesSomething(b: Business, u: UpdateBusinessDto)
    requires u.category.Some? ==> CategoryOk(u.category.value)
  {
    exists k :: Carried(u, k).Some? && (AlwaysDiffers(k) || Carried(u, k).value != Get(b, k))
  }

  /** The identifier and the creation time survive an update; the update time moves to `now`
      exactly when `save` finds some carried property changed. */
  lemma MergeKeepsIdentity(b: Business, u: UpdateBusinessDto, now: int)
    requires u.category.Some? ==> CategoryOk(u.category.value)
    ensures Merge(b, u, now).id == b.id && Merge(b, u, now).createdAt == b.createdAt
    ensures Merge(b, u, now).updatedAt == if ChangesSomething(b, u) then now else b.updatedAt
  {
    if ChangesSomething(b, u) {
      ChangeIsWritten(b, u);
    } else {
      NoChangeIsKept(b, u);
    }
  }

  /** A patch that `save` finds changed either alters a property or carries one it always
      writes. */
  lemma ChangeIsWritten(b: Business, u: UpdateBusinessDto)
    requires u.category.Some? ==> CategoryOk(u.category.value)
    requires ChangesSomething(b, u)
    ensures Assign(b, u) != b || WritesAlways(u)
  {
    var k :| Carried(u, k).Some? && (AlwaysDiffers(k) || Carried(u, k).value != Get(b, k));
    if AlwaysDiffers(k) {
      assert WritesAlways(u);
    } else {
      AssignOverwrites(b, u, k);
      assert Get(Assign(b, u), k) != Get(b, k);
    }
  }

  /** A patch that `save` finds unchanged alters no property and carries none it always
      writes. */
  lemma NoChangeIsKept(b: Business, u: UpdateBusinessDto)
    requires u.category.Some? ==> CategoryOk(u.category.value)
    requires !ChangesSomething(b, u)
    ensures Assign(b, u) == b && !WritesAlways(u)
  {
    assert Carried(u, FLatitude).None? && Carried(u, FLongitude).None?;
    assert Carried(u, FOperatingHours).None? && Carried(u, FRating).None?;
    var a := Assign(b, u);
    forall k ensures Get(a, k) == Get(b, k) {
      AssignOverwrites(b, u, k);
    }
    GetDetermines(a, b);
  }

  /** Two rows with the same id, timestamps and properties are the same row. */
  lemma GetDetermines(x: Business, y: Business)
    requires x.id == y.id && x.createdAt == y.createdAt && x.updatedAt == y.updatedAt
    requires forall k :: Get(x, k) == Get(y, k)
    ensures x == y
  {
    SameProperties1(x, y);
    SameProperties2(x, y);
    SameProperties3(x, y);
    SameProperties4(x, y);
  }

  lemma SameProperties1(x: Business, y: Business)
    requires forall k :: Get(x, k) == Get(y, k)
    ensures x.name == y.name && x.description == y.description && x.category == y.category && x.website == y.website && x.phone == y.phone && x.email == y.email
  {
    assert Get(x, FName) == Get(y, FName);
    assert Get(x, FDescription) == Get(y, FDescription);
    assert Get(x, FCategory) == Get(y, FCategory);
    assert Get(x, FWebsite) == Get(y, FWebsite);
    assert Get(x, FPhone) == Get(y, FPhone);
    assert Get(x, FEmail) == Get(y, FEmail);
  }

  lemma SameProperties2(x: Business, y: Business)
    requires forall k :: Get(x, k) == Get(y, k)
    ensures x.address == y.address && x.city == y.city && x.state == y.state && x.country == y.country && x.zipCode == y.zipCode && x.latitude == y.latitude
  {
    assert Get(x, FAddress) == Get(y, FAddress);
    assert Get(x, FCity) == Get(y, FCity);
    assert Get(x, FState) == Get(y, FState);
    assert Get(x, FCountry) == Get(y, FCountry);
    assert Get(x, FZipCode) == Get(y, FZipCode);
    assert Get(x, FLatitude) == Get(y, FLatitude);
  }

  lemma SameProperties3(x: Business, y: Business)
    requires forall k :: Get(x, k) == Get(y, k)
    ensures x.longitude == y.longitude && x.rentalItems == y.rentalItems && x.amenities == y.amenities && x.images == y.images && x.logo == y.logo && x.operatingHours == y.operatingHours
  {
    assert Get(x, FLongitude) == Get(y, FLongitude);
    assert Get(x, FRentalItems) == Get(y, FRentalItems);
    assert Get(x, FAmenities) == Get(y, FAmenities);
    assert Get(x, FImages) == Get(y, FImages);
    assert Get(x, FLogo) == Get(y, FLogo);
    assert Get(x, FOperatingHours) == Get(y, FOperatingHours);
  }

  lemma SameProperties4(x: Business, y: Business)
    requires forall k :: Get(x, k) == Get(y, k)
    ensures x.rating == y.rating && x.reviewCount == y.reviewCount && x.isActive == y.isActive && x.isFeatured == y.isFeatured && x.metadata == y.metadata
  {
    assert Get(x, FRating) == Get(y, FRating);
    assert Get(x, FReviewCount) == Get(y, FReviewCount);
    assert Get(x, FIsActive) == Get(y, FIsActive);
    assert Get(x, FIsFeatured) == Get(y, FIsFeatured);
    assert Get(x, FMetadata) == Get(y, FMetadata);
  }

  /** The assignment overwrites exactly the carried properties. */
  lemma AssignOverwrites(b: Business, u: UpdateBusinessDto, k: Field)
    requires u.category.Some? ==> CategoryOk(u.category.value)
    ensures Carried(u, k).Some? ==> Get(Assign(b, u), k) == Carried(u, k).value
    ensures Carried(u, k).None? ==> Get(Assign(b, u), k) == Get(b, k)
  {
    match k
    case FName =>
    case FDescription =>
    case FCategory =>
    case FWebsite =>
    case FPhone =>
    case FEmail =>
    case FAddress =>
    case FCity =>
    case FState =>
    case FCountry =>
    case FZipCode =>
    case FLatitude =>
    case FLongitude =>
    case FRentalItems =>
    case FAmenities =>
    case FImages =>
    case FLogo =>
    case FOperatingHours =>
    case FRating =>
    case FReviewCount =>
    case FIsActive =>
    case FIsFeatured =>
    case FMetadata =>
  }

  /** The update overwrites exactly the carried properties and leaves every other one as it
      was. */
  lemma MergeOverwritesExactlyCarried(b: Business, u: UpdateBusinessDto, now: int, k: Field)
    requires u.category.Some? ==> CategoryOk(u.category.value)
    ensures Carried(u, k).Some? ==> Get(Merge(b, u, now), k) == Carried(u, k).value
    ensures Carried(u, k).None? ==> Get(Merge(b, u, now), k) == Get(b, k)
  {
    AssignOverwrites(b, u, k);
    var a := Assign(b, u);
    assert Get(a.(updatedAt := now), k) == Get(a, k);
  }

  /** An empty patch changes nothing, not even the update time. */
  lemma EmptyPatchIsIdentity(b: Business, now: int)
    ensures Merge(b, UpdateBusinessDto(None, None, None, None, None, None, None, None, None,
                                       None, None, None, None, None, None, None, None, None,
                                       None, None, None, None, None), now)
            == b
  {
  }

  /** Sending the same patch again changes no property. The update time stays where the first
      update left it, unless the patch carries a property `save` always writes, which moves it
      to the second save. */
  lemma MergeIdempotent(b: Business, u: UpdateBusinessDto, t1: int, t2: int)
    requires u.category.Some? ==> CategoryOk(u.category.value)
    ensures Merge(Merge(b, u, t1), u, t2) == if WritesAlways(u) then Merge(b, u, t2) else Merge(b, u, t1)
  {
    var m1 := Merge(b, u, t1);
    assert Assign(m1, u) == m1;
  }
}

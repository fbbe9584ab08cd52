/** The "List your rental business" form: the body it starts from, the single-field update
    every text input and the category select perform, and the comma-list parser behind the
    rental-items and amenities inputs. */
module AddBusiness {
  import opened Wrappers
  import opened Text
  import opened BusinessEntity
  import opened CreateBusinessDto

  /** The form state is the create body it will submit. The required strings start empty and
      the category select starts at `other`; every optional property is left out. */
  function InitialForm(): (d: CreateBusinessDto)
    ensures d.name == "" && d.description == "" && d.email == "" && d.address == ""
    ensures d.city == "" && d.country == ""
    ensures ParseCategory(d.category) == Some(DefaultCategory)
    ensures d.website.None? && d.phone.None? && d.state.None? && d.zipCode.None?
    ensures d.rentalItems.None? && d.amenities.None?
  {
    CreateBusinessDto(
      name := "", description := "", category := CategoryValue(Other),
      website := None, phone := None, email := "", address := "", city := "",
      state := None, country := "", zipCode := None, latitude := None, longitude := None,
      rentalItems := None, amenities := None, images := None, logo := None,
      operatingHours := None, rating := None, reviewCount := None, isActive := None,
      isFeatured := None, metadata := None)
  }

  // ---------------------------------------------------------------------------
  // handleChange: `{ ...prev, [name]: value }`
  // ---------------------------------------------------------------------------

  /** The inputs wired to `handleChange`, by their `name` attribute. */
  datatype Input =
    | IName | ICategory | IDescription | IEmail | IPhone | IWebsite
    | IAddress | ICity | IState | ICountry | IZipCode

  /** What an input's property currently holds; `None` when the body leaves it out. */
  function TextOf(d: CreateBusinessDto, i: Input): Option<string> {
    match i
    case IName => Some(d.name)
    case ICategory => Some(d.category)
    case IDescription => Some(d.description)
    case IEmail => Some(d.email)
    case IPhone => d.phone
    case IWebsite => d.website
    case IAddress => Some(d.address)
    case ICity => Some(d.city)
    case IState => d.state
    case ICountry => Some(d.country)
    case IZipCode => d.zipCode
  }

  /** The properties no input of this kind touches. */
  predicate SameOutsideInputs(a: CreateBusinessDto, b: CreateBusinessDto) {
    && a.latitude == b.latitude && a.longitude == b.longitude
    && a.rentalItems == b.rentalItems && a.amenities == b.amenities
    && a.images == b.images && a.logo == b.logo && a.operatingHours == b.operatingHours
    && a.rating == b.rating && a.reviewCount == b.reviewCount
    && a.isActive == b.isActive && a.isFeatured == b.isFeatured && a.metadata == b.metadata
  }

  /** The named property takes the raw value of the input, an empty string included; every
      other property keeps its value. */
  function HandleChange(d: CreateBusinessDto, i: Input, value: string): (r: CreateBusinessDto)
    ensures TextOf(r, i) == Some(value)
    ensures forall j: Input :: j != i ==> TextOf(r, j) == TextOf(d, j)
    ensures SameOutsideInputs(r, d)
  {
    match i
    case IName => d.(name := value)
    case ICategory => d.(category := value)
    case IDescription => d.(description := value)
    case IEmail => d.(email := value)
    case IPhone => d.(phone := Some(value))
    case IWebsite => d.(website := Some(value))
    case IAddress => d.(address := value)
    case ICity => d.(city := value)
    case IState => d.(state := Some(value))
    case ICountry => d.(country := value)
    case IZipCode => d.(zipCode := Some(value))
  }

  /** Typing into the same input twice keeps only the last value. */
  lemma HandleChangeLastWins(d: CreateBusinessDto, i: Input, v1: string, v2: string)
    ensures HandleChange(HandleChange(d, i, v1), i, v2) == HandleChange(d, i, v2)
  {
  }

  // ---------------------------------------------------------------------------
  // handleArrayChange: `value.split(',').map(trim).filter(nonempty)`
  // ---------------------------------------------------------------------------

  /** An item the parser can produce: not empty, no comma, no whitespace at either end. */
  predicate IsItem(s: string) {
    s != "" && ',' !in s && IsTrimmed(s)
  }

  /** The trimmed pieces, the blank ones dropped, in order. */
  function KeepTrimmed(pieces: seq<string>): (r: seq<string>)
    requires forall k :: 0 <= k < |pieces| ==> ',' !in pieces[k]
    ensures |r| <= |pieces|
    ensures forall k :: 0 <= k < |r| ==> IsItem(r[k])
  {
    if |pieces| == 0 then []
    else
      var rest := KeepTrimmed(pieces[1..]);
      KeepOne(pieces[0], rest);
      (if Trim(pieces[0]) != "" then [Trim(pieces[0])] else []) + rest
  }

  /** A kept piece in front of kept items gives kept items. */
  lemma KeepOne(piece: string, rest: seq<string>)
    requires ',' !in piece
    requires forall k :: 0 <= k < |rest| ==> IsItem(rest[k])
    ensures var r := (if Trim(piece) != "" then [Trim(piece)] else []) + rest;
      forall k :: 0 <= k < |r| ==> IsItem(r[k])
  {
    TrimAvoids(piece, ',');
  }

  lemma {:induction false} KeepTrimmedConcat(a: seq<string>, b: seq<string>)
    requires forall k :: 0 <= k < |a| ==> ',' !in a[k]
    requires forall k :: 0 <= k < |b| ==> ',' !in b[k]
    ensures KeepTrimmed(a + b) == KeepTrimmed(a) + KeepTrimmed(b)
  {
    if |a| > 0 {
      assert (a + b)[1..] == a[1..] + b;
      KeepTrimmedConcat(a[1..], b);
    } else {
      assert a + b == b;
    }
  }

  /** The comma-list parser. */
  function ParseList(value: string): (items: seq<string>)
    ensures forall k :: 0 <= k < |items| ==> IsItem(items[k])
  {
    KeepTrimmed(Split(value, ','))
  }

  /** Every piece between commas that is not blank shows up, trimmed, among the items. */
  lemma {:induction false} ParseListComplete(value: string, k: nat)
    requires k < |Split(value, ',')| && Trim(Split(value, ',')[k]) != ""
    ensures Trim(Split(value, ',')[k]) in ParseList(value)
  {
    PiecesKept(Split(value, ','), k);
  }

  lemma {:induction false} PiecesKept(pieces: seq<string>, k: nat)
    requires forall j :: 0 <= j < |pieces| ==> ',' !in pieces[j]
    requires k < |pieces| && Trim(pieces[k]) != ""
    ensures Trim(pieces[k]) in KeepTrimmed(pieces)
  {
    if k > 0 {
      PiecesKept(pieces[1..], k - 1);
    }
  }

  /** Every item is the trimmed form of some piece between commas. */
  lemma {:induction false} ParseListSound(value: string, x: string)
    requires x in ParseList(value)
    ensures exists k :: 0 <= k < |Split(value, ',')| && x == Trim(Split(value, ',')[k])
  {
    var k := PieceOfItem(Split(value, ','), x);
  }

  lemma {:induction false} PieceOfItem(pieces: seq<string>, x: string) returns (k: nat)
    requires forall j :: 0 <= j < |pieces| ==> ',' !in pieces[j]
    requires x in KeepTrimmed(pieces)
    ensures k < |pieces| && x == Trim(pieces[k])
  {
    if Trim(pieces[0]) != "" && x == Trim(pieces[0]) {
      k := 0;
    } else {
      var j := PieceOfItem(pieces[1..], x);
      k := j + 1;
    }
  }

  /** Order is kept: the items of text before a comma come before those of the text after it. */
  lemma ParseListConcat(a: string, b: string)
    ensures ParseList(a + "," + b) == ParseList(a) + ParseList(b)
  {
    SplitConcat(a, ',', b);
    KeepTrimmedConcat(Split(a, ','), Split(b, ','));
  }

  /** Blanks in front of a list do not change it. */
  lemma ParseListLeadingBlank(s: string)
    ensures ParseList(" " + s) == ParseList(s)
  {
    var pieces := Split(s, ',');
    var first := [' '] + pieces[0];
    var moved := [first] + pieces[1..];
    SplitCons(' ', s, ',');
    assert Split(" " + s, ',') == moved;
    TrimLeadingBlank(' ', pieces[0]);
    assert moved[1..] == pieces[1..];
    assert KeepTrimmed(moved) == (if Trim(first) != "" then [Trim(first)] else []) + KeepTrimmed(pieces[1..]);
    assert KeepTrimmed(pieces) == (if Trim(pieces[0]) != "" then [Trim(pieces[0])] else []) + KeepTrimmed(pieces[1..]);
  }

  /** A single item on its own parses to itself. */
  lemma ParseSingle(x: string)
    requires IsItem(x)
    ensures ParseList(x) == [x]
  {
    SplitWithoutSeparator(x, ',');
    TrimIdentity(x);
  }

  /** Items written as the placeholder shows them, separated by `", "`, parse back to the
      same list. */
  lemma {:induction false} ParseListRoundTrip(items: seq<string>)
    requires forall k :: 0 <= k < |items| ==> IsItem(items[k])
    ensures ParseList(Join(items, ", ")) == items
  {
    if |items| == 0 {
      ParseEmpty();
    } else if |items| == 1 {
      ParseSingle(items[0]);
    } else {
      ParseListRoundTrip(items[1..]);
      ParseListStep(items);
    }
  }

  /** One item in front of a list that already reads back. */
  lemma ParseListStep(items: seq<string>)
    requires |items| >= 2 && IsItem(items[0])
    requires ParseList(Join(items[1..], ", ")) == items[1..]
    ensures ParseList(Join(items, ", ")) == items
  {
    var rest := Join(items[1..], ", ");
    JoinCommaBlank(items);
    ParseListConcat(items[0], " " + rest);
    ParseSingle(items[0]);
    ParseListLeadingBlank(rest);
    assert items == [items[0]] + items[1..];
  }

  /** The `", "` separator is a comma followed by a blank in front of the rest of the list. */
  lemma JoinCommaBlank(items: seq<string>)
    requires |items| >= 2
    ensures Join(items, ", ") == items[0] + "," + (" " + Join(items[1..], ", "))
  {
    var rest := Join(items[1..], ", ");
    assert Join(items, ", ") == items[0] + ", " + rest;
    Regroup(items[0], ',', ' ', rest);
  }

  lemma Regroup(a: string, c: char, d: char, b: string)
    ensures a + [c, d] + b == a + [c] + ([d] + b)
  {
    assert [c, d] == [c] + [d];
  }

  /** The two list inputs. */
  datatype ListField = RentalItems | Amenities

  function ListOf(d: CreateBusinessDto, f: ListField): Option<seq<string>> {
    match f
    case RentalItems => d.rentalItems
    case Amenities => d.amenities
  }

  /** The named list takes the parsed items, or is left out of the body (`undefined`, not an
      empty list) when none remain; the other list and every other property are unchanged. */
  function HandleArrayChange(d: CreateBusinessDto, f: ListField, value: string): (r: CreateBusinessDto)
    ensures ListOf(r, f) == (if ParseList(value) == [] then None else Some(ParseList(value)))
    ensures ListOf(r, f).Some? ==> |ListOf(r, f).value| > 0
    ensures forall g: ListField :: g != f ==> ListOf(r, g) == ListOf(d, g)
    ensures forall i: Input :: TextOf(r, i) == TextOf(d, i)
    ensures r.latitude == d.latitude && r.longitude == d.longitude && r.images == d.images
    ensures r.logo == d.logo && r.operatingHours == d.operatingHours && r.rating == d.rating
    ensures r.reviewCount == d.reviewCount && r.isActive == d.isActive
    ensures r.isFeatured == d.isFeatured && r.metadata == d.metadata
  {
    var items := ParseList(value);
    var stored := if |items| > 0 then Some(items) else None;
    match f
    case RentalItems => d.(rentalItems := stored)
    case Amenities => d.(amenities := stored)
  }

  /** A blank or comma-only input leaves the list out of the body. */
  lemma BlankListIsLeftOut(d: CreateBusinessDto, f: ListField, n: nat)
    ensures ListOf(HandleArrayChange(d, f, seq(n, _ => ',')), f).None?
  {
    var s := seq(n, _ => ',');
    BlankPiecesDropped(s);
  }

  lemma {:induction false} BlankPiecesDropped(s: string)
    requires forall k :: 0 <= k < |s| ==> s[k] == ','
    ensures ParseList(s) == []
  {
    if |s| == 0 {
      ParseEmpty();
    } else {
      LeadingCommaDropped(s);
      BlankPiecesDropped(s[1..]);
    }
  }

  /** A comma at the front only adds an empty piece, which is dropped. */
  lemma LeadingCommaDropped(s: string)
    requires |s| > 0 && s[0] == ','
    ensures ParseList(s) == ParseList(s[1..])
  {
    ParseEmpty();
    assert s == "" + "," + s[1..];
    ParseListConcat("", s[1..]);
  }

  /** The empty input has no items. */
  lemma ParseEmpty()
    ensures ParseList("") == []
  {
    assert Split("", ',') == [""];
    assert Trim("") == "";
  }
}

/** The listing store: the `businesses` table as a sequence of rows and the service
    operations over it. Every operation validates its request first, as the global
    validation pipe does before the service is reached. */
module BusinessService {
  import opened Wrappers
  import opened Text
  import opened JsonValues
  import opened Collections
  import opened Sorting
  import opened BusinessEntity
  import opened CreateBusinessDto
  import opened SearchBusinessDto
  import opened BusinessQuery

  // ---------------------------------------------------------------------------
  // Row-level operations of the table
  // ---------------------------------------------------------------------------

  /** `findOne({ where: { id } })`: the row with that identifier, if any. */
  function Lookup(rows: seq<Business>, id: string): (r: Option<Business>)
    ensures r.Some? ==> r.value in rows && r.value.id == id
    ensures r.None? <==> forall b :: b in rows ==> b.id != id
  {
    if |rows| == 0 then None
    else if rows[0].id == id then Some(rows[0])
    else Lookup(rows[1..], id)
  }

  /** With unique identifiers, the row found is the only one with that identifier. */
  lemma LookupUnique(rows: seq<Business>, id: string, b: Business)
    requires UniqueIds(rows)
    requires b in rows && b.id == id
    ensures Lookup(rows, id) == Some(b)
  {
    var i :| 0 <= i < |rows| && rows[i] == b;
    var found := Lookup(rows, id).value;
    var j :| 0 <= j < |rows| && rows[j] == found;
  }

  /** `findOne({ where: { name: ILike('%name%') } })`: the first row, in storage order, whose
      name contains the text, ignoring ASCII case. */
  function FirstNamed(rows: seq<Business>, name: string): (r: Option<Business>)
    ensures r.Some? ==> r.value in rows && ContainsIgnoreCase(r.value.name, name)
    ensures r.None? <==> forall b :: b in rows ==> !ContainsIgnoreCase(b.name, name)
    ensures r.Some? ==> exists i :: 0 <= i < |rows| && rows[i] == r.value &&
                          forall j :: 0 <= j < i ==> !ContainsIgnoreCase(rows[j].name, name)
  {
    if |rows| == 0 then None
    else if ContainsIgnoreCase(rows[0].name, name) then Some(rows[0])
    else
      var r := FirstNamed(rows[1..], name);
      assert r.Some? ==> exists i :: 0 <= i < |rows| && rows[i] == r.value &&
                          forall j :: 0 <= j < i ==> !ContainsIgnoreCase(rows[j].name, name) by {
        if r.Some? {
          var i :| 0 <= i < |rows[1..]| && rows[1..][i] == r.value &&
                   forall j :: 0 <= j < i ==> !ContainsIgnoreCase(rows[1..][j].name, name);
          assert rows[i + 1] == r.value;
          forall j | 0 <= j < i + 1 ensures !ContainsIgnoreCase(rows[j].name, name) {
            if j > 0 {
              assert rows[j] == rows[1..][j - 1];
            }
          }
        }
      }
      r
  }

  /** An empty name is contained in every name, so it finds the first stored row. */
  lemma EmptySlugFindsFirstRow(rows: seq<Business>)
    requires |rows| > 0
    ensures FirstNamed(rows, "") == Some(rows[0])
  {
    EmptyNeedle(rows[0].name);
  }

  /** `save` of a loaded row: the row with that identifier is replaced, the others stay. */
  function ReplaceById(rows: seq<Business>, id: string, b: Business): (r: seq<Business>)
    ensures |r| == |rows|
    ensures forall i :: 0 <= i < |rows| ==> r[i] == (if rows[i].id == id then b else rows[i])
  {
    if |rows| == 0 then []
    else [if rows[0].id == id then b else rows[0]] + ReplaceById(rows[1..], id, b)
  }

  /** `delete(id)`: the rows that remain. */
  function RemoveById(rows: seq<Business>, id: string): (r: seq<Business>)
    ensures forall b :: b in r <==> b in rows && b.id != id
  {
    Filter(rows, (b: Business) => b.id != id)
  }

  /** The `affected` count `delete(id)` reports. */
  function Affected(rows: seq<Business>, id: string): nat {
    Count(rows, (b: Business) => b.id == id)
  }

  /** DELETE affects no row exactly when no row has the identifier, and at most one row
      when identifiers are unique. */
  lemma {:induction false} AffectedIffPresent(rows: seq<Business>, id: string)
    ensures Affected(rows, id) == 0 <==> Lookup(rows, id).None?
    ensures UniqueIds(rows) ==> Affected(rows, id) <= 1
  {
    if |rows| > 0 {
      AffectedIffPresent(rows[1..], id);
      if UniqueIds(rows) {
        assert UniqueIds(rows[1..]) by {
          forall i, j | 0 <= i < |rows[1..]| && 0 <= j < |rows[1..]| && rows[1..][i].id == rows[1..][j].id
            ensures i == j
          {
            assert rows[i + 1].id == rows[j + 1].id;
          }
        }
        if rows[0].id == id {
          forall b | b in rows[1..] ensures b.id != id {
            var k :| 0 <= k < |rows[1..]| && rows[1..][k] == b;
            assert rows[k + 1] == b;
          }
        }
      }
    }
  }

  /** After a delete the identifier is gone, so `findOne` on it fails. */
  lemma RemovedIsGone(rows: seq<Business>, id: string)
    ensures Lookup(RemoveById(rows, id), id).None?
  {
  }

  lemma RemoveKeepsUnique(rows: seq<Business>, id: string)
    requires UniqueIds(rows)
    ensures UniqueIds(RemoveById(rows, id))
  {
    FilterKeepsUnique(rows, (b: Business) => b.id != id);
  }

  lemma {:induction false} FilterKeepsUnique(rows: seq<Business>, p: Business -> bool)
    requires UniqueIds(rows)
    ensures UniqueIds(Filter(rows, p))
  {
    if |rows| > 0 {
      var rest := rows[1..];
      assert UniqueIds(rest) by {
        forall i, j | 0 <= i < |rest| && 0 <= j < |rest| && rest[i].id == rest[j].id ensures i == j {
          assert rows[i + 1].id == rows[j + 1].id;
        }
      }
      FilterKeepsUnique(rest, p);
      var tail := Filter(rest, p);
      if p(rows[0]) {
        var r := [rows[0]] + tail;
        forall b | b in tail ensures b.id != rows[0].id {
          var k :| 0 <= k < |rest| && rest[k] == b;
          assert rows[k + 1] == b;
        }
        forall i, j | 0 <= i < |r| && 0 <= j < |r| && r[i].id == r[j].id ensures i == j {
          if i > 0 { assert r[i] == tail[i - 1] && r[i] in tail; }
          if j > 0 { assert r[j] == tail[j - 1] && r[j] in tail; }
        }
      }
    }
  }

  /** Replacing a row by one with the same identifier keeps identifiers unique, and the
      new row is what `findOne` then returns. */
  lemma ReplaceKeepsUnique(rows: seq<Business>, id: string, b: Business)
    requires UniqueIds(rows) && b.id == id
    ensures UniqueIds(ReplaceById(rows, id, b))
    ensures Lookup(rows, id).Some? ==> Lookup(ReplaceById(rows, id, b), id) == Some(b)
  {
    ReplaceKeepsIds(rows, id, b);
    if Lookup(rows, id).Some? {
      ReplacedRowFound(rows, id, b);
    }
  }

  lemma ReplaceKeepsIds(rows: seq<Business>, id: string, b: Business)
    requires UniqueIds(rows) && b.id == id
    ensures var r := ReplaceById(rows, id, b);
      (forall i :: 0 <= i < |rows| ==> r[i].id == rows[i].id) && UniqueIds(r)
  {
  }

  lemma ReplacedRowFound(rows: seq<Business>, id: string, b: Business)
    requires UniqueIds(rows) && b.id == id && Lookup(rows, id).Some?
    ensures Lookup(ReplaceById(rows, id, b), id) == Some(b)
  {
    var r := ReplaceById(rows, id, b);
    ReplaceKeepsIds(rows, id, b);
    var k :| 0 <= k < |rows| && rows[k] == Lookup(rows, id).value;
    assert r[k] == b;
    LookupUnique(r, id, b);
  }

  /** Replacing one row leaves every other identifier's row as it was. */
  lemma ReplaceKeepsOthers(rows: seq<Business>, id: string, b: Business, other: string)
    requires UniqueIds(rows) && b.id == id && other != id
    ensures Lookup(ReplaceById(rows, id, b), other) == Lookup(rows, other)
  {
    var r := ReplaceById(rows, id, b);
    assert forall i :: 0 <= i < |rows| ==> r[i].id == rows[i].id;
    ReplaceKeepsUnique(rows, id, b);
    if Lookup(rows, other).Some? {
      var x := Lookup(rows, other).value;
      var k :| 0 <= k < |rows| && rows[k] == x;
      assert r[k] == x;
      LookupUnique(r, other, x);
    } else {
      forall y | y in r ensures y.id != other {
        var k :| 0 <= k < |r| && r[k] == y;
        assert rows[k] in rows;
      }
    }
  }

  /** An insert with a fresh identifier keeps identifiers unique. */
  lemma AppendKeepsUnique(rows: seq<Business>, b: Business)
    requires UniqueIds(rows) && Lookup(rows, b.id).None?
    ensures UniqueIds(rows + [b])
  {
    var r := rows + [b];
    forall i, j | 0 <= i < |r| && 0 <= j < |r| && r[i].id == r[j].id ensures i == j {
      if i < |rows| { assert r[i] == rows[i] && rows[i] in rows; }
      if j < |rows| { assert r[j] == rows[j] && rows[j] in rows; }
    }
  }

  // ---------------------------------------------------------------------------
  // The two toggles
  // ---------------------------------------------------------------------------

  /** `business.isActive = !business.isActive` then `save`, which moves the update time. */
  function ToggledActive(b: Business, now: int): Business {
    b.(isActive := !b.isActive, updatedAt := now)
  }

  function ToggledFeatured(b: Business, now: int): Business {
    b.(isFeatured := !b.isFeatured, updatedAt := now)
  }

  /** The active toggle flips exactly `isActive`: every other property, the identifier and
      the creation time are unchanged. */
  lemma ToggleActiveFlipsOnlyIsActive(b: Business, now: int, k: Field)
    ensures ToggledActive(b, now).isActive == !b.isActive
    ensures k != FIsActive ==> Get(ToggledActive(b, now), k) == Get(b, k)
    ensures ToggledActive(b, now).id == b.id && ToggledActive(b, now).createdAt == b.createdAt
  {
  }

  lemma ToggleFeaturedFlipsOnlyIsFeatured(b: Business, now: int, k: Field)
    ensures ToggledFeatured(b, now).isFeatured == !b.isFeatured
    ensures k != FIsFeatured ==> Get(ToggledFeatured(b, now), k) == Get(b, k)
    ensures ToggledFeatured(b, now).id == b.id && ToggledFeatured(b, now).createdAt == b.createdAt
  {
  }

  /** Toggling twice restores the record, up to the update time. */
  lemma ToggleActiveInvolution(b: Business, t1: int)
    ensures ToggledActive(ToggledActive(b, t1), b.updatedAt) == b
  {
  }

  lemma ToggleFeaturedInvolution(b: Business, t1: int)
    ensures ToggledFeatured(ToggledFeatured(b, t1), b.updatedAt) == b
  {
  }

  /** A toggle keeps the row inside its column bounds. */
  lemma TogglesFitColumns(b: Business, now: int)
    requires FitsColumns(b)
    ensures FitsColumns(ToggledActive(b, now)) && FitsColumns(ToggledFeatured(b, now))
  {
  }

  // ---------------------------------------------------------------------------
  // The service
  // ---------------------------------------------------------------------------

  class BusinessStore {
    /** The table, in storage order. */
    var rows: seq<Business>

    ghost predicate Valid()
      reads this
    {
      UniqueIds(rows)
    }

    constructor ()
      ensures rows == [] && Valid()
    {
      rows := [];
    }

    /** `create`: validate the body, build the row with its defaults and insert it. The id
        and the time come from the database and are parameters here; an id already taken
        or a value outside its column makes the INSERT fail. */
    method Create(d: CreateBusinessDto, f: FormatChecks, id: string, now: int) returns (r: Result<Business>)
      requires Valid()
      modifies this
      ensures Valid()
      ensures !ValidCreate(d, f) ==> r == Err(BadRequest(Violations(CreateRules(d, f))))
      ensures ValidCreate(d, f) && Lookup(old(rows), id).Some? ==> r.Err? && r.error.QueryFailed?
      ensures ValidCreate(d, f) && !FitsColumns(NewBusiness(d, id, now)) ==> r.Err? && r.error.QueryFailed?
      ensures ValidCreate(d, f) && Lookup(old(rows), id).None? && FitsColumns(NewBusiness(d, id, now)) ==>
                r == Ok(NewBusiness(d, id, now))
      ensures r.Ok? ==> rows == old(rows) + [r.value]
      ensures r.Err? ==> rows == old(rows)
    {
      var violations := Violations(CreateRules(d, f));
      CreateRulesMatchValid(d, f);
      if violations != [] {
        return Err(BadRequest(violations));
      }
      var b := NewBusiness(d, id, now);
      if Lookup(rows, id).Some? {
        return Err(QueryFailed("duplicate key value violates unique constraint on id"));
      }
      if !FitsColumns(b) {
        return Err(QueryFailed("value out of range for its column"));
      }
      AppendKeepsUnique(rows, b);
      rows := rows + [b];
      return Ok(b);
    }

    /** `findAll`: the composed query over the table, ordered and paged. */
    method FindAll(d: SearchBusinessDto) returns (r: Result<SearchResult>)
      ensures r == FindAllResult(rows, d)
    {
      var violations := SearchViolations(d);
      if violations != [] {
        return Err(BadRequest(violations));
      }
      var s := Resolve(d);
      var skip := Offset(s.page, s.limit);
      var conditions := ComposeQuery(s);
      var field := ParseSortField(s.sortBy);
      var order := ParseSortOrder(s.sortOrder);
      if field.None? {
        return Err(QueryFailed("unknown sort column " + s.sortBy));
      }
      if order.None? {
        return Err(QueryFailed("sort order must be ASC or DESC"));
      }
      var matching := Filter(rows, b => AllHold(conditions, b));
      FilterCongruent(rows, b => AllHold(conditions, b), b => Matches(s, b));
      var ordered := Sort(matching, Ordering(field.value, order.value));
      var data := Window(ordered, skip, s.limit);
      return Ok(SearchResult(data, |matching|, s.page, s.limit));
    }

    /** `findOne`: the row, or NotFound. */
    method FindOne(id: string) returns (r: Result<Business>)
      ensures Lookup(rows, id).None? <==> r == Err(NotFound(id))
      ensures r.Ok? ==> r.value in rows && r.value.id == id
      ensures r.Ok? || r == Err(NotFound(id))
    {
      var found := Lookup(rows, id);
      if found.None? {
        return Err(NotFound(id));
      }
      return Ok(found.value);
    }

    /** `findBySlug`: the first row whose name contains the text, or NotFound. */
    method FindBySlug(name: string) returns (r: Result<Business>)
      ensures (forall b :: b in rows ==> !ContainsIgnoreCase(b.name, name)) <==> r == Err(NotFound(name))
      ensures r.Ok? ==> r == Ok(FirstNamed(rows, name).value)
      ensures r.Ok? || r == Err(NotFound(name))
    {
      var found := FirstNamed(rows, name);
      if found.None? {
        return Err(NotFound(name));
      }
      return Ok(found.value);
    }

    /** `update`: validate the patch, load the row (NotFound when absent), merge the
        carried properties into it and save it. */
    method Update(id: string, u: UpdateBusinessDto, f: FormatChecks, now: int) returns (r: Result<Business>)
      requires Valid()
      modifies this
      ensures Valid()
      ensures !ValidUpdate(u, f) ==> r == Err(BadRequest(Violations(UpdateRules(u, f))))
      ensures ValidUpdate(u, f) && Lookup(old(rows), id).None? ==> r == Err(NotFound(id))
      ensures ValidUpdate(u, f) && Lookup(old(rows), id).Some? ==>
                var merged := Merge(Lookup(old(rows), id).value, u, now);
                if FitsColumns(merged) then r == Ok(merged) else r.Err? && r.error.QueryFailed?
      ensures r.Ok? ==> rows == ReplaceById(old(rows), id, r.value)
      ensures r.Err? ==> rows == old(rows)
    {
      var violations := Violations(UpdateRules(u, f));
      UpdateRulesMatchValid(u, f);
      if violations != [] {
        return Err(BadRequest(violations));
      }
      var found := FindOne(id);
      if found.Err? {
        return found;
      }
      var merged := Merge(found.value, u, now);
      if !FitsColumns(merged) {
        return Err(QueryFailed("value out of range for its column"));
      }
      MergeKeepsIdentity(found.value, u, now);
      ReplaceKeepsUnique(rows, id, merged);
      rows := ReplaceById(rows, id, merged);
      return Ok(merged);
    }

    /** `remove`: DELETE by id; NotFound exactly when no row was affected. */
    method Remove(id: string) returns (r: Result<()>)
      requires Valid()
      modifies this
      ensures Valid()
      ensures r == Err(NotFound(id)) <==> Affected(old(rows), id) == 0
      ensures r.Ok? || r == Err(NotFound(id))
      ensures rows == RemoveById(old(rows), id)
    {
      var affected := Affected(rows, id);
      RemoveKeepsUnique(rows, id);
      rows := RemoveById(rows, id);
      if affected == 0 {
        return Err(NotFound(id));
      }
      return Ok(());
    }

    /** `toggleActive`: load, flip `isActive`, save. */
    method ToggleActive(id: string, now: int) returns (r: Result<Business>)
      requires Valid()
      modifies this
      ensures Valid()
      ensures Lookup(old(rows), id).None? ==> r == Err(NotFound(id)) && rows == old(rows)
      ensures Lookup(old(rows), id).Some? ==>
                r == Ok(ToggledActive(Lookup(old(rows), id).value, now))
                && rows == ReplaceById(old(rows), id, r.value)
    {
      var found := FindOne(id);
      if found.Err? {
        return found;
      }
      var toggled := ToggledActive(found.value, now);
      ReplaceKeepsUnique(rows, id, toggled);
      rows := ReplaceById(rows, id, toggled);
      return Ok(toggled);
    }

    /** `toggleFeatured`: load, flip `isFeatured`, save. */
    method ToggleFeatured(id: string, now: int) returns (r: Result<Business>)
      requires Valid()
      modifies this
      ensures Valid()
      ensures Lookup(old(rows), id).None? ==> r == Err(NotFound(id)) && rows == old(rows)
      ensures Lookup(old(rows), id).Some? ==>
                r == Ok(ToggledFeatured(Lookup(old(rows), id).value, now))
                && rows == ReplaceById(old(rows), id, r.value)
    {
      var found := FindOne(id);
      if found.Err? {
        return found;
      }
      var toggled := ToggledFeatured(found.value, now);
      ReplaceKeepsUnique(rows, id, toggled);
      rows := ReplaceById(rows, id, toggled);
      return Ok(toggled);
    }

    /** `getCategories`: the category report over the current table. */
    method GetCategories() returns (r: seq<CategoryCount>)
      ensures r == CategoryHistogram(rows)
      ensures SumCounts(r) == Count(rows, IsActiveRow)
    {
      r := CategoryHistogram(rows);
      CategoryHistogramSum(rows);
    }

    /** `getLocations`: the location report over the current table. */
    method GetLocations() returns (r: seq<LocationCount>)
      ensures r == LocationHistogram(rows)
      ensures |r| <= 50
    {
      r := LocationHistogram(rows);
      LocationHistogramSpec(rows);
    }

    /** `getStats`: three counts, the subtraction, and the category report. */
    method GetStats() returns (r: BusinessStats)
      ensures r == Stats(rows)
      ensures r.active + r.inactive == r.total && r.featured <= r.total
    {
      var total := |rows|;
      var active := Count(rows, IsActiveRow);
      var featured := Count(rows, IsFeaturedRow);
      var byCategory := GetCategories();
      r := BusinessStats(total, active, total - active, featured, byCategory);
      StatsIdentities(rows);
    }
  }
}

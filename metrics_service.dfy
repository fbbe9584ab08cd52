/** The metrics store: the `metrics` table as a sequence of rows, the filter `findAll` and
    `getStats` share, newest-first paging, and the aggregate figures. Every operation validates
    its request first, as the global validation pipe does before the service is reached. */
module MetricsService {
  import opened Wrappers
  import opened Collections
  import opened Sorting
  import opened MetricEntity
  import opened CreateMetricDto
  import opened QueryMetricDto

  // ---------------------------------------------------------------------------
  // The filter of a metrics request
  // ---------------------------------------------------------------------------

  /** The reference filter: the type and the user must match exactly when the request names a
      non-empty one, and the creation instant must lie within the dates the request gives,
      both ends included. Each date bounds the instant on its own side. */
  predicate MetricMatches(q: QueryMetricDto, cal: Calendar, m: Metric) {
    && (Truthy(q.metricType) ==> m.metricType == q.metricType.value)
    && (Truthy(q.userId) ==> m.userId == Some(q.userId.value))
    && (Truthy(q.startDate) ==> cal.instant(q.startDate.value) <= m.createdAt)
    && (Truthy(q.endDate) ==> m.createdAt <= cal.instant(q.endDate.value))
  }

  /** The rows a request selects, in storage order. */
  function Selected(rows: seq<Metric>, q: QueryMetricDto, cal: Calendar): (r: seq<Metric>)
    ensures forall m :: m in r <==> m in rows && MetricMatches(q, cal, m)
  {
    Filter(rows, m => MetricMatches(q, cal, m))
  }

  // ---------------------------------------------------------------------------
  // findAll: the `where` object
  // ---------------------------------------------------------------------------

  /** TypeORM's find operators on `createdAt`; all three include their bounds. */
  datatype DateOperator =
    | Between(from: int, to: int)
    | MoreThanOrEqual(bound: int)
    | LessThanOrEqual(bound: int)

  predicate OperatorHolds(op: DateOperator, t: int) {
    match op
    case Between(from, to) => from <= t <= to
    case MoreThanOrEqual(bound) => bound <= t
    case LessThanOrEqual(bound) => t <= bound
  }

  /** The `where` object: a key is present once the service has set it. */
  datatype MetricWhere = MetricWhere(
    metricType: Option<string>,
    userId: Option<string>,
    createdAt: Option<DateOperator>)

  /** What `find({ where })` keeps: a row equal on every present key. */
  predicate WhereHolds(w: MetricWhere, m: Metric) {
    && (w.metricType.Some? ==> m.metricType == w.metricType.value)
    && (w.userId.Some? ==> m.userId == w.userId)
    && (w.createdAt.Some? ==> OperatorHolds(w.createdAt.value, m.createdAt))
  }

  /** The head of `findAll`: the keys set one by one, the date operator chosen by which of the
      two dates the request carries. The object selects exactly the rows of the reference
      filter. */
  method BuildWhere(q: QueryMetricDto, cal: Calendar) returns (w: MetricWhere)
    ensures forall m :: WhereHolds(w, m) <==> MetricMatches(q, cal, m)
  {
    w := MetricWhere(None, None, None);
    if Truthy(q.metricType) {
      w := w.(metricType := q.metricType);
    }
    if Truthy(q.userId) {
      w := w.(userId := q.userId);
    }
    if Truthy(q.startDate) && Truthy(q.endDate) {
      w := w.(createdAt := Some(Between(cal.instant(q.startDate.value), cal.instant(q.endDate.value))));
    } else if Truthy(q.startDate) {
      w := w.(createdAt := Some(MoreThanOrEqual(cal.instant(q.startDate.value))));
    } else if Truthy(q.endDate) {
      w := w.(createdAt := Some(LessThanOrEqual(cal.instant(q.endDate.value))));
    }
  }

  // ---------------------------------------------------------------------------
  // getStats: the `andWhere` chain
  // ---------------------------------------------------------------------------

  /** The SQL conditions `getStats` adds to its query builder. */
  datatype SqlCondition =
    | TypeEquals(metricType: string)
    | UserIdEquals(userId: string)
    | CreatedBetween(from: int, to: int)
    | CreatedFrom(from: int)
    | CreatedUntil(to: int)

  predicate ConditionHolds(c: SqlCondition, m: Metric) {
    match c
    case TypeEquals(t) => m.metricType == t
    case UserIdEquals(u) => m.userId == Some(u)
    case CreatedBetween(from, to) => from <= m.createdAt <= to
    case CreatedFrom(from) => from <= m.createdAt
    case CreatedUntil(to) => m.createdAt <= to
  }

  /** `andWhere` conjoins: a row is counted when every condition holds. */
  predicate AllHold(cs: seq<SqlCondition>, m: Metric) {
    forall i :: 0 <= i < |cs| ==> ConditionHolds(cs[i], m)
  }

  lemma AppendCondition(cs: seq<SqlCondition>, c: SqlCondition, m: Metric)
    ensures AllHold(cs + [c], m) <==> AllHold(cs, m) && ConditionHolds(c, m)
  {
    if AllHold(cs + [c], m) {
      assert ConditionHolds((cs + [c])[|cs|], m);
      forall i | 0 <= i < |cs| ensures ConditionHolds(cs[i], m) {
        assert (cs + [c])[i] == cs[i];
      }
    }
  }

  /** The head of `getStats`: one `andWhere` per non-empty request property, the date
      condition chosen as in `findAll`. The chain selects exactly the rows of the reference
      filter, at most three conditions long. */
  method BuildStatsConditions(q: QueryMetricDto, cal: Calendar) returns (cs: seq<SqlCondition>)
    ensures |cs| <= 3
    ensures forall m :: AllHold(cs, m) <==> MetricMatches(q, cal, m)
  {
    cs := [];
    if Truthy(q.metricType) {
      forall m | true ensures AllHold(cs + [TypeEquals(q.metricType.value)], m) <==> AllHold(cs, m) && ConditionHolds(TypeEquals(q.metricType.value), m) {
        AppendCondition(cs, TypeEquals(q.metricType.value), m);
      }
      cs := cs + [TypeEquals(q.metricType.value)];
    }
    assert forall m :: AllHold(cs, m) <==> (Truthy(q.metricType) ==> m.metricType == q.metricType.value);
    ghost var before := cs;
    if Truthy(q.userId) {
      forall m | true ensures AllHold(cs + [UserIdEquals(q.userId.value)], m) <==> AllHold(cs, m) && ConditionHolds(UserIdEquals(q.userId.value), m) {
        AppendCondition(cs, UserIdEquals(q.userId.value), m);
      }
      cs := cs + [UserIdEquals(q.userId.value)];
    }
    assert forall m :: AllHold(cs, m) <==> AllHold(before, m) && (Truthy(q.userId) ==> m.userId == Some(q.userId.value));
    var date: Option<SqlCondition> := None;
    if Truthy(q.startDate) && Truthy(q.endDate) {
      date := Some(CreatedBetween(cal.instant(q.startDate.value), cal.instant(q.endDate.value)));
    } else if Truthy(q.startDate) {
      date := Some(CreatedFrom(cal.instant(q.startDate.value)));
    } else if Truthy(q.endDate) {
      date := Some(CreatedUntil(cal.instant(q.endDate.value)));
    }
    if date.Some? {
      forall m | true ensures AllHold(cs + [date.value], m) <==> AllHold(cs, m) && ConditionHolds(date.value, m) {
        AppendCondition(cs, date.value, m);
      }
      cs := cs + [date.value];
    }
  }

  // ---------------------------------------------------------------------------
  // findAll: newest first, one page
  // ---------------------------------------------------------------------------

  /** ORDER BY `createdAt` DESC. */
  predicate NewerOrSame(a: Metric, b: Metric) {
    a.createdAt >= b.createdAt
  }

  lemma NewerOrSameIsTotalPreorder()
    ensures TotalPreorder(NewerOrSame)
  {
  }

  function NewestFirst(ms: seq<Metric>): seq<Metric> {
    Sort(ms, NewerOrSame)
  }

  /** Page `p` of the selected rows, newest first. */
  function PageRows(rows: seq<Metric>, q: QueryMetricDto, cal: Calendar, p: nat, limit: nat): seq<Metric>
    requires p >= 1
  {
    Window(NewestFirst(Selected(rows, q, cal)), Offset(p, limit), limit)
  }

  /** The response of `findAll`. */
  datatype MetricPage = MetricPage(data: seq<Metric>, total: nat, page: nat, limit: nat)

  /** The whole of `findAll` on a request: validation, the defaults, and the page. */
  function FindAllResult(rows: seq<Metric>, q: QueryMetricDto, cal: Calendar): Result<MetricPage> {
    if !ValidQuery(q, cal) then Err(BadRequest(Violations(QueryRules(q, cal))))
    else
      var page := PageOf(q);
      var limit := LimitOf(q);
      Ok(MetricPage(PageRows(rows, q, cal, page, limit), |Selected(rows, q, cal)|, page, limit))
  }

  /** Every returned metric is stored and passes the filter; at most `limit` come back, newest
      first; `total` counts every match whatever the page; `page` and `limit` are echoed,
      with 1 and 10 when the request leaves them out. */
  lemma FindAllSound(rows: seq<Metric>, q: QueryMetricDto, cal: Calendar)
    requires ValidQuery(q, cal)
    ensures FindAllResult(rows, q, cal).Ok?
    ensures var r := FindAllResult(rows, q, cal).value;
      && (forall m :: m in r.data ==> m in rows && MetricMatches(q, cal, m))
      && |r.data| <= r.limit
      && SortedBy(r.data, NewerOrSame)
      && r.total == Count(rows, m => MetricMatches(q, cal, m))
      && r.page == PageOf(q) && r.limit == LimitOf(q)
  {
    var selected := Selected(rows, q, cal);
    var ordered := NewestFirst(selected);
    NewerOrSameIsTotalPreorder();
    SortSorted(selected, NewerOrSame);
    WindowOfSorted(ordered, Offset(PageOf(q), LimitOf(q)), LimitOf(q), NewerOrSame);
    forall m | m in ordered ensures m in rows && MetricMatches(q, cal, m) {
      SortSameElements(selected, NewerOrSame, m);
    }
    FilterCountsMatches(rows, q, cal);
  }

  /** `Count` and `Filter` agree on the number of selected rows. */
  lemma {:induction false} FilterCountsMatches(rows: seq<Metric>, q: QueryMetricDto, cal: Calendar)
    ensures |Selected(rows, q, cal)| == Count(rows, m => MetricMatches(q, cal, m))
  {
    if |rows| > 0 {
      FilterCountsMatches(rows[1..], q, cal);
    }
  }

  /** Paging loses nothing: every stored match is on some page. */
  lemma FindAllComplete(rows: seq<Metric>, q: QueryMetricDto, cal: Calendar, limit: nat, m: Metric)
    requires limit >= 1
    requires m in rows && MetricMatches(q, cal, m)
    ensures exists p: nat :: p >= 1 && m in PageRows(rows, q, cal, p, limit)
  {
    var selected := Selected(rows, q, cal);
    var ordered := NewestFirst(selected);
    SortSameElements(selected, NewerOrSame, m);
    var k :| 0 <= k < |ordered| && ordered[k] == m;
    var p, slot := PageOfPosition(k, limit);
    var w := PageRows(rows, q, cal, p, limit);
    assert w == Window(ordered, Offset(p, limit), limit);
    assert w[slot] == m;
  }

  /** The page size of an export. */
  const ExportLimit: nat := 10000

  /** The rows an export writes: `findAll` on the validated request with the limit replaced
      by 10000 and the page kept, so page 2 of an export skips the first 10000 matches. */
  function ExportRows(rows: seq<Metric>, q: QueryMetricDto, cal: Calendar): (r: Result<seq<Metric>>)
    ensures r.Ok? <==> ValidQuery(q, cal)
    ensures r.Ok? ==> |r.value| <= ExportLimit
  {
    if !ValidQuery(q, cal) then Err(BadRequest(Violations(QueryRules(q, cal))))
    else Ok(PageRows(rows, q, cal, PageOf(q), ExportLimit))
  }

  /** An export is the `data` of `findAll` on the same request with `limit` set to 10000. */
  lemma ExportIsFindAllAtExportLimit(rows: seq<Metric>, q: QueryMetricDto, cal: Calendar)
    requires ValidQuery(q, cal)
    ensures FindAllResult(rows, q.(limit := Some(ExportLimit)), cal).Ok?
    ensures ExportRows(rows, q, cal).value == FindAllResult(rows, q.(limit := Some(ExportLimit)), cal).value.data
  {
    var q' := q.(limit := Some(ExportLimit));
    FilterCongruent(rows, m => MetricMatches(q, cal, m), m => MetricMatches(q', cal, m));
  }

  // ---------------------------------------------------------------------------
  // getStats: the aggregates
  // ---------------------------------------------------------------------------

  /** The response of `getStats`, amounts in hundredths. */
  datatype MetricStats = MetricStats(count: nat, total: int, average: real, min: int, max: int)

  /** SUM(value). */
  function TotalValue(ms: seq<Metric>): int {
    if |ms| == 0 then 0 else ms[0].value + TotalValue(ms[1..])
  }

  /** MIN(value). */
  function LowestValue(ms: seq<Metric>): (r: int)
    requires |ms| > 0
    ensures forall m :: m in ms ==> r <= m.value
    ensures exists m :: m in ms && m.value == r
  {
    if |ms| == 1 then ms[0].value
    else
      var rest := LowestValue(ms[1..]);
      assert forall m :: m in ms[1..] ==> m in ms;
      if ms[0].value <= rest then ms[0].value else rest
  }

  /** MAX(value). */
  function HighestValue(ms: seq<Metric>): (r: int)
    requires |ms| > 0
    ensures forall m :: m in ms ==> m.value <= r
    ensures exists m :: m in ms && m.value == r
  {
    if |ms| == 1 then ms[0].value
    else
      var rest := HighestValue(ms[1..]);
      assert forall m :: m in ms[1..] ==> m in ms;
      if ms[0].value >= rest then ms[0].value else rest
  }

  /** The raw row of the aggregate query, with SQL's NULLs read as `|| 0` reads them: on an
      empty selection every figure is 0. */
  function StatsOf(ms: seq<Metric>): MetricStats {
    if |ms| == 0 then MetricStats(0, 0, 0.0, 0, 0)
    else
      var total := TotalValue(ms);
      MetricStats(|ms|, total, total as real / |ms| as real, LowestValue(ms), HighestValue(ms))
  }

  /** n rows whose values lie in [lo, hi] sum to between n * lo and n * hi. */
  lemma {:induction false} TotalBounds(ms: seq<Metric>, lo: int, hi: int)
    requires forall i :: 0 <= i < |ms| ==> lo <= ms[i].value <= hi
    ensures |ms| * lo <= TotalValue(ms) <= |ms| * hi
  {
    if |ms| > 0 {
      var rest := ms[1..];
      assert forall i :: 0 <= i < |rest| ==> rest[i] == ms[i + 1];
      TotalBounds(rest, lo, hi);
      var k := |rest|;
      assert TotalValue(ms) == ms[0].value + TotalValue(rest);
      MultiplySuccessor(k, lo);
      MultiplySuccessor(k, hi);
    }
  }

  lemma MultiplySuccessor(k: nat, x: int)
    ensures (k + 1) * x == k * x + x
  {
  }

  /** A quotient of a total by a positive count lies between the bounds the total does. */
  lemma AverageBetween(total: int, n: nat, lo: int, hi: int)
    requires n > 0 && n * lo <= total <= n * hi
    ensures lo as real <= total as real / n as real <= hi as real
  {
    var a := total as real / n as real;
    assert a * n as real == total as real;
    assert (n * lo) as real == n as real * lo as real;
    assert (n * hi) as real == n as real * hi as real;
  }

  /** The figures of a non-empty selection: `count` rows summing to `total`, their mean, a smallest and a largest value that some row holds and
      that bound every row, and min <= average <= max. An empty selection gives all zeros. */
  lemma StatsSummarise(ms: seq<Metric>)
    ensures StatsOf(ms).count == |ms| && StatsOf(ms).total == TotalValue(ms)
    ensures |ms| == 0 ==> StatsOf(ms) == MetricStats(0, 0, 0.0, 0, 0)
    ensures |ms| > 0 ==>
              var s := StatsOf(ms);
              && s.average == s.total as real / s.count as real
              && (forall m :: m in ms ==> s.min <= m.value <= s.max)
              && (exists m :: m in ms && m.value == s.min)
              && (exists m :: m in ms && m.value == s.max)
              && s.min as real <= s.average <= s.max as real
  {
    if |ms| > 0 {
      var n := |ms|;
      var total := TotalValue(ms);
      var lo := LowestValue(ms);
      var hi := HighestValue(ms);
      forall i | 0 <= i < n ensures lo <= ms[i].value <= hi {
        assert ms[i] in ms;
      }
      TotalBounds(ms, lo, hi);
      AverageBetween(total, n, lo, hi);
      assert StatsOf(ms) == MetricStats(n, total, total as real / n as real, lo, hi);
    }
  }

  /** The whole of `getStats` on a request. */
  function StatsResult(rows: seq<Metric>, q: QueryMetricDto, cal: Calendar): Result<MetricStats> {
    if !ValidQuery(q, cal) then Err(BadRequest(Violations(QueryRules(q, cal))))
    else Ok(StatsOf(Selected(rows, q, cal)))
  }

  /** `getStats` applies the filter of `findAll`: its count is `findAll`'s total, and its
      total is the sum over exactly the rows `findAll` pages through. */
  lemma StatsAgreeWithFindAll(rows: seq<Metric>, q: QueryMetricDto, cal: Calendar)
    requires ValidQuery(q, cal)
    ensures StatsResult(rows, q, cal).Ok? && FindAllResult(rows, q, cal).Ok?
    ensures StatsResult(rows, q, cal).value.count == FindAllResult(rows, q, cal).value.total
    ensures StatsResult(rows, q, cal).value.total == TotalValue(Selected(rows, q, cal))
  {
    StatsSummarise(Selected(rows, q, cal));
  }

  /** Nothing checks that the start precedes the end: a reversed range is accepted and
      selects nothing, so every figure is 0. */
  lemma ReversedRangeSelectsNothing(rows: seq<Metric>, cal: Calendar, start: string, end: string)
    requires cal.isIsoDate(start) && cal.isIsoDate(end) && start != "" && end != ""
    requires cal.instant(end) < cal.instant(start)
    ensures var q := QueryMetricDto(None, None, Some(start), Some(end), None, None);
      && Selected(rows, q, cal) == []
      && StatsResult(rows, q, cal) == Ok(MetricStats(0, 0, 0.0, 0, 0))
  {
    var q := QueryMetricDto(None, None, Some(start), Some(end), None, None);
    ReversedRangeAccepted(cal, start, end);
    FilterNone(rows, m => MetricMatches(q, cal, m));
  }

  // ---------------------------------------------------------------------------
  // Row-level operations of the table
  // ---------------------------------------------------------------------------

  /** `findOne({ where: { id } })`: the row with that identifier, if any. */
  function Lookup(rows: seq<Metric>, id: string): (r: Option<Metric>)
    ensures r.Some? ==> r.value in rows && r.value.id == id
    ensures r.None? <==> forall m :: m in rows ==> m.id != id
  {
    if |rows| == 0 then None
    else if rows[0].id == id then Some(rows[0])
    else Lookup(rows[1..], id)
  }

  /** `save` of a loaded row: the row with that identifier is replaced, the others stay. */
  function ReplaceById(rows: seq<Metric>, id: string, m: Metric): (r: seq<Metric>)
    ensures |r| == |rows|
    ensures forall i :: 0 <= i < |rows| ==> r[i] == (if rows[i].id == id then m else rows[i])
  {
    if |rows| == 0 then []
    else [if rows[0].id == id then m else rows[0]] + ReplaceById(rows[1..], id, m)
  }

  /** `delete(id)`: the rows that remain. */
  function RemoveById(rows: seq<Metric>, id: string): (r: seq<Metric>)
    ensures forall m :: m in r <==> m in rows && m.id != id
  {
    Filter(rows, (m: Metric) => m.id != id)
  }

  /** The `affected` count `delete(id)` reports. */
  function Affected(rows: seq<Metric>, id: string): nat {
    Count(rows, (m: Metric) => m.id == id)
  }

  /** DELETE affects no row exactly when no row has the identifier. */
  lemma {:induction false} AffectedIffPresent(rows: seq<Metric>, id: string)
    ensures Affected(rows, id) == 0 <==> Lookup(rows, id).None?
  {
    if |rows| > 0 {
      AffectedIffPresent(rows[1..], id);
    }
  }

  lemma {:induction false} FilterKeepsUnique(rows: seq<Metric>, p: Metric -> bool)
    requires UniqueIds(rows)
    ensures UniqueIds(Filter(rows, p))
  {
    if |rows| > 0 {
      var rest := rows[1..];
      assert UniqueIds(rest) by {
        forall i, j | 0 <= i < j < |rest| ensures rest[i].id != rest[j].id {
          assert rows[i + 1].id != rows[j + 1].id;
        }
      }
      FilterKeepsUnique(rest, p);
      var tail := Filter(rest, p);
      if p(rows[0]) {
        var r := [rows[0]] + tail;
        forall m | m in tail ensures m.id != rows[0].id {
          var k :| 0 <= k < |rest| && rest[k] == m;
          assert rows[k + 1] == m;
        }
        forall i, j | 0 <= i < j < |r| ensures r[i].id != r[j].id {
          assert r[j] == tail[j - 1] && r[j] in tail;
          if i > 0 { assert r[i] == tail[i - 1]; }
        }
      }
    }
  }

  /** Replacing a row by one with the same identifier keeps identifiers unique, and the new
      row is what `findOne` then returns. */
  lemma ReplaceKeepsUnique(rows: seq<Metric>, id: string, m: Metric)
    requires UniqueIds(rows) && m.id == id
    ensures UniqueIds(ReplaceById(rows, id, m))
    ensures Lookup(rows, id).Some? ==> Lookup(ReplaceById(rows, id, m), id) == Some(m)
  {
    var r := ReplaceById(rows, id, m);
    assert forall i :: 0 <= i < |rows| ==> r[i].id == rows[i].id;
    if Lookup(rows, id).Some? {
      var k :| 0 <= k < |rows| && rows[k] == Lookup(rows, id).value;
      assert r[k] == m;
      LookupFirst(r, id, k);
    }
  }

  /** With unique identifiers, the row at position k is the one `findOne` finds for its id. */
  lemma {:induction false} LookupFirst(rows: seq<Metric>, id: string, k: nat)
    requires UniqueIds(rows) && k < |rows| && rows[k].id == id
    ensures Lookup(rows, id) == Some(rows[k])
  {
    if k > 0 {
      assert rows[0].id != id;
      assert UniqueIds(rows[1..]) by {
        forall i, j | 0 <= i < j < |rows[1..]| ensures rows[1..][i].id != rows[1..][j].id {
          assert rows[i + 1].id != rows[j + 1].id;
        }
      }
      LookupFirst(rows[1..], id, k - 1);
    }
  }

  /** An insert with a fresh identifier keeps identifiers unique. */
  lemma AppendKeepsUnique(rows: seq<Metric>, m: Metric)
    requires UniqueIds(rows) && Lookup(rows, m.id).None?
    ensures UniqueIds(rows + [m])
  {
    var r := rows + [m];
    forall i, j | 0 <= i < j < |r| ensures r[i].id != r[j].id {
      assert r[i] == rows[i] && rows[i] in rows;
    }
  }

  // ---------------------------------------------------------------------------
  // The service
  // ---------------------------------------------------------------------------

  class MetricsStore {
    /** The table, in storage order. */
    var rows: seq<Metric>

    ghost predicate Valid()
      reads this
    {
      UniqueIds(rows)
    }

    constructor ()
      ensures rows == [] && Valid()
    {
      rows := [];
    }

    /** `create`: validate the body, build the row and insert it. The id and the time come
        from the database and are parameters here; an id already taken or an amount beyond
        decimal(10,2) makes the INSERT fail. The row stores the amount rounded to hundredths;
        the reply shows it as sent. */
    method Create(d: CreateMetricDto, id: string, now: int) returns (r: Result<MetricReply>)
      requires Valid()
      modifies this
      ensures Valid()
      ensures !ValidCreate(d) ==> r == Err(BadRequest(Violations(CreateRules(d))))
      ensures ValidCreate(d) && Lookup(old(rows), id).Some? ==> r.Err? && r.error.QueryFailed?
      ensures ValidCreate(d) && !FitsColumns(NewMetric(d, id, now)) ==> r.Err? && r.error.QueryFailed?
      ensures ValidCreate(d) && Lookup(old(rows), id).None? && FitsColumns(NewMetric(d, id, now)) ==>
                r == Ok(MetricReply(NewMetric(d, id, now), Sent(d.value)))
      ensures r.Ok? ==> ReplyAgrees(r.value)
      ensures r.Ok? ==> rows == old(rows) + [r.value.row]
      ensures r.Err? ==> rows == old(rows)
    {
      var violations := Violations(CreateRules(d));
      CreateRulesMatchValid(d);
      if violations != [] {
        return Err(BadRequest(violations));
      }
      var m := NewMetric(d, id, now);
      if Lookup(rows, id).Some? {
        return Err(QueryFailed("duplicate key value violates unique constraint on id"));
      }
      if !FitsColumns(m) {
        return Err(QueryFailed("value out of range for its column"));
      }
      AppendKeepsUnique(rows, m);
      rows := rows + [m];
      return Ok(MetricReply(m, Sent(d.value)));
    }

    /** `findAll`: the `where` object over the table, newest first, one page. */
    method FindAll(q: QueryMetricDto, cal: Calendar) returns (r: Result<MetricPage>)
      ensures r == FindAllResult(rows, q, cal)
    {
      var violations := Violations(QueryRules(q, cal));
      QueryRulesMatchValid(q, cal);
      if violations != [] {
        return Err(BadRequest(violations));
      }
      var page := PageOf(q);
      var limit := LimitOf(q);
      var skip := Offset(page, limit);
      var where := BuildWhere(q, cal);
      var matching := Filter(rows, m => WhereHolds(where, m));
      FilterCongruent(rows, m => WhereHolds(where, m), m => MetricMatches(q, cal, m));
      var data := Window(Sort(matching, NewerOrSame), skip, limit);
      return Ok(MetricPage(data, |matching|, page, limit));
    }

    /** `findOne`: the row, or NotFound. */
    method FindOne(id: string) returns (r: Result<Metric>)
      ensures Lookup(rows, id).None? <==> r == Err(NotFound(id))
      ensures r.Ok? ==> r.value in rows && r.value.id == id
      ensures r.Ok? || r == Err(NotFound(id))
    {
      var found := Lookup(rows, id);
      if found.None? {
        return Err(NotFound(id));
      }
      return Ok(found.value);
    }

    /** `update`: validate the patch, load the row (NotFound when absent), assign the supplied
        properties onto it and save it. The reply shows a sent amount as sent, and the stored
        one otherwise. */
    method Update(id: string, u: UpdateMetricDto, now: int) returns (r: Result<MetricReply>)
      requires Valid()
      modifies this
      ensures Valid()
      ensures !ValidUpdate(u) ==> r == Err(BadRequest(Violations(UpdateRules(u))))
      ensures ValidUpdate(u) && Lookup(old(rows), id).None? ==> r == Err(NotFound(id))
      ensures ValidUpdate(u) && Lookup(old(rows), id).Some? ==>
                var merged := Merge(Lookup(old(rows), id).value, u, now);
                if FitsColumns(merged) then r == Ok(MetricReply(merged, UpdateAmount(u, merged)))
                else r.Err? && r.error.QueryFailed?
      ensures r.Ok? ==> ReplyAgrees(r.value)
      ensures r.Ok? ==> rows == ReplaceById(old(rows), id, r.value.row)
      ensures r.Err? ==> rows == old(rows)
    {
      var violations := Violations(UpdateRules(u));
      UpdateRulesMatchValid(u);
      if violations != [] {
        return Err(BadRequest(violations));
      }
      var found := FindOne(id);
      if found.Err? {
        return Err(found.error);
      }
      var merged := Merge(found.value, u, now);
      if !FitsColumns(merged) {
        return Err(QueryFailed("value out of range for its column"));
      }
      ReplaceKeepsUnique(rows, id, merged);
      rows := ReplaceById(rows, id, merged);
      UpdateReplyAgrees(found.value, u, now);
      return Ok(MetricReply(merged, UpdateAmount(u, merged)));
    }

    /** `remove`: DELETE by id; NotFound exactly when no row was affected. */
    method Remove(id: string) returns (r: Result<()>)
      requires Valid()
      modifies this
      ensures Valid()
      ensures r == Err(NotFound(id)) <==> Affected(old(rows), id) == 0
      ensures r.Ok? || r == Err(NotFound(id))
      ensures rows == RemoveById(old(rows), id)
    {
      var affected := Affected(rows, id);
      FilterKeepsUnique(rows, (m: Metric) => m.id != id);
      rows := RemoveById(rows, id);
      if affected == 0 {
        return Err(NotFound(id));
      }
      return Ok(());
    }

    /** `getStats`: the `andWhere` chain over the table and the five aggregates. */
    method GetStats(q: QueryMetricDto, cal: Calendar) returns (r: Result<MetricStats>)
      ensures r == StatsResult(rows, q, cal)
    {
      var violations := Violations(QueryRules(q, cal));
      QueryRulesMatchValid(q, cal);
      if violations != [] {
        return Err(BadRequest(violations));
      }
      var conditions := BuildStatsConditions(q, cal);
      var counted := Filter(rows, m => AllHold(conditions, m));
      FilterCongruent(rows, m => AllHold(conditions, m), m => MetricMatches(q, cal, m));
      return Ok(StatsOf(counted));
    }
  }
}

/** The query string of `GET /metrics` and `GET /metrics/stats`: its validation rules and its
    defaults. */
module QueryMetricDto {
  import opened Wrappers

  /** The two date services the request relies on, which belong to libraries: whether a string
      is an ISO 8601 date (`@IsDateString()`), and the instant `new Date(s)` denotes. */
  datatype Calendar = Calendar(isIsoDate: string -> bool, instant: string -> int)

  /** A metrics request after class-transformer; `metricType` is the `type` property and a
      property the query string leaves out is `None`. */
  datatype QueryMetricDto = QueryMetricDto(
    metricType: Option<string>,
    userId: Option<string>,
    startDate: Option<string>,
    endDate: Option<string>,
    page: Option<int>,
    limit: Option<int>)

  const DefaultPage: int := 1
  const DefaultLimit: int := 10

  predicate StartDateOk(q: QueryMetricDto, cal: Calendar) {
    q.startDate.Some? ==> cal.isIsoDate(q.startDate.value)
  }

  predicate EndDateOk(q: QueryMetricDto, cal: Calendar) {
    q.endDate.Some? ==> cal.isIsoDate(q.endDate.value)
  }

  /** `@Min(1)` with no upper bound. */
  predicate PageOk(q: QueryMetricDto) {
    q.page.Some? ==> q.page.value >= 1
  }

  predicate LimitOk(q: QueryMetricDto) {
    q.limit.Some? ==> q.limit.value >= 1
  }

  /** Each date is checked on its own: nothing relates the start to the end. */
  predicate ValidQuery(q: QueryMetricDto, cal: Calendar) {
    StartDateOk(q, cal) && EndDateOk(q, cal) && PageOk(q) && LimitOk(q)
  }

  function QueryRules(q: QueryMetricDto, cal: Calendar): seq<Rule> {
    [ Rule("startDate", StartDateOk(q, cal)),
      Rule("endDate", EndDateOk(q, cal)),
      Rule("page", PageOk(q)),
      Rule("limit", LimitOk(q)) ]
  }

  lemma QueryRulesMatchValid(q: QueryMetricDto, cal: Calendar)
    ensures Violations(QueryRules(q, cal)) == [] <==> ValidQuery(q, cal)
  {
    var rules := QueryRules(q, cal);
    assert AllOk(rules) ==> rules[0].ok && rules[1].ok && rules[2].ok && rules[3].ok;
  }

  /** The page asked for, 1 when the request has none. */
  function PageOf(q: QueryMetricDto): (p: nat)
    requires PageOk(q)
    ensures p >= 1
    ensures q.page.None? ==> p == 1
    ensures q.page.Some? ==> p == q.page.value
  {
    q.page.GetOr(DefaultPage)
  }

  /** The page size asked for, 10 when the request has none. */
  function LimitOf(q: QueryMetricDto): (l: nat)
    requires LimitOk(q)
    ensures l >= 1
    ensures q.limit.None? ==> l == 10
    ensures q.limit.Some? ==> l == q.limit.value
  {
    q.limit.GetOr(DefaultLimit)
  }

  /** Any two ISO dates make a valid range, the later one first included. */
  lemma ReversedRangeAccepted(cal: Calendar, start: string, end: string)
    requires cal.isIsoDate(start) && cal.isIsoDate(end)
    requires cal.instant(end) < cal.instant(start)
    ensures ValidQuery(QueryMetricDto(None, None, Some(start), Some(end), None, None), cal)
  {
  }
}

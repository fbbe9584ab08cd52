/** The bodies of `POST /metrics` and `PATCH /metrics/:id`: what the validation pipe demands of
    them, and the row `create` and `update` write. */
module CreateMetricDto {
  import opened Wrappers
  import opened JsonValues
  import opened MetricEntity

  /** A create request after class-transformer; `metricType` is the `type` property. */
  datatype CreateMetricDto = CreateMetricDto(
    name: string,
    metricType: string,
    value: real,
    unit: Option<string>,
    metadata: Option<Json>,
    userId: Option<string>)

  /** `@MaxLength(255)` and nothing else: the empty name is accepted. */
  predicate NameOk(name: string) {
    |name| <= 255
  }

  predicate TypeOk(t: string) {
    |t| <= 100
  }

  /** `@IsNumber() @Min(0)`; NaN and the infinities, which `@IsNumber` refuses, have no real
      counterpart. */
  predicate ValueOk(v: real) {
    v >= 0.0
  }

  predicate UnitOk(u: string) {
    |u| <= 50
  }

  /** `@IsObject()`: an object, not an array, a string or null. */
  predicate MetadataOk(j: Json) {
    j.JObject?
  }

  predicate UserIdOk(u: string) {
    |u| <= 255
  }

  predicate ValidCreate(d: CreateMetricDto) {
    && NameOk(d.name)
    && TypeOk(d.metricType)
    && ValueOk(d.value)
    && (d.unit.Some? ==> UnitOk(d.unit.value))
    && (d.metadata.Some? ==> MetadataOk(d.metadata.value))
    && (d.userId.Some? ==> UserIdOk(d.userId.value))
  }

  /** The create rules in declaration order. */
  function CreateRules(d: CreateMetricDto): seq<Rule> {
    [ Rule("name", NameOk(d.name)),
      Rule("type", TypeOk(d.metricType)),
      Rule("value", ValueOk(d.value)),
      Rule("unit", d.unit.None? || UnitOk(d.unit.value)),
      Rule("metadata", d.metadata.None? || MetadataOk(d.metadata.value)),
      Rule("userId", d.userId.None? || UserIdOk(d.userId.value)) ]
  }

  /** The pipe reports nothing exactly when the request is valid. */
  lemma CreateRulesMatchValid(d: CreateMetricDto)
    ensures Violations(CreateRules(d)) == [] <==> ValidCreate(d)
  {
    var rules := CreateRules(d);
    assert AllOk(rules) ==> rules[0].ok && rules[1].ok && rules[2].ok && rules[3].ok && rules[4].ok && rules[5].ok;
  }

  // ---------------------------------------------------------------------------
  // The stored amount
  // ---------------------------------------------------------------------------

  /** What decimal(10,2) keeps of a non-negative JavaScript number: the nearest hundredth,
      halves rounded up, counted in hundredths. */
  function ToHundredths(v: real): (c: int)
    requires v >= 0.0
    ensures c >= 0
    ensures c as real - 0.5 <= v * 100.0 < c as real + 0.5
  {
    (v * 100.0 + 0.5).Floor
  }

  /** An amount already given to the hundredth is stored as it is. */
  lemma ToHundredthsExact(c: nat)
    ensures ToHundredths(c as real / 100.0) == c
  {
    assert (c as real / 100.0) * 100.0 == c as real;
  }

  /** Rounding keeps order: a larger amount is never stored as a smaller one. */
  lemma ToHundredthsMonotone(v: real, w: real)
    requires 0.0 <= v <= w
    ensures ToHundredths(v) <= ToHundredths(w)
  {
  }

  // ---------------------------------------------------------------------------
  // create
  // ---------------------------------------------------------------------------

  /** `repository.create(dto)` and the INSERT: the properties become columns, absent optional
      ones NULL; the id and both timestamps come from the database. */
  function NewMetric(d: CreateMetricDto, id: string, now: int): (m: Metric)
    requires ValueOk(d.value)
    ensures m.id == id && m.createdAt == now && m.updatedAt == now
    ensures m.name == d.name && m.metricType == d.metricType
    ensures m.unit == d.unit && m.metadata == d.metadata && m.userId == d.userId
    ensures m.value as real - 0.5 <= d.value * 100.0 < m.value as real + 0.5
  {
    Metric(
      id := id,
      name := d.name,
      metricType := d.metricType,
      value := ToHundredths(d.value),
      unit := d.unit,
      metadata := d.metadata,
      userId := d.userId,
      createdAt := now,
      updatedAt := now)
  }

  /** A valid request fits every column but the amount, which fits exactly when it is below
      10^8. */
  lemma ValidCreateFitsColumns(d: CreateMetricDto, id: string, now: int)
    requires ValidCreate(d)
    ensures FitsColumns(NewMetric(d, id, now)) <==> ToHundredths(d.value) < ValueBound
  {
  }

  // ---------------------------------------------------------------------------
  // update: a partial body merged into the stored row
  // ---------------------------------------------------------------------------

  /** An update request: every property of the create request, each optional. */
  datatype UpdateMetricDto = UpdateMetricDto(
    name: Option<string>,
    metricType: Option<string>,
    value: Option<real>,
    unit: Option<string>,
    metadata: Option<Json>,
    userId: Option<string>)

  predicate ValidUpdate(u: UpdateMetricDto) {
    && (u.name.Some? ==> NameOk(u.name.value))
    && (u.metricType.Some? ==> TypeOk(u.metricType.value))
    && (u.value.Some? ==> ValueOk(u.value.value))
    && (u.unit.Some? ==> UnitOk(u.unit.value))
    && (u.metadata.Some? ==> MetadataOk(u.metadata.value))
    && (u.userId.Some? ==> UserIdOk(u.userId.value))
  }

  function UpdateRules(u: UpdateMetricDto): seq<Rule> {
    [ Rule("name", u.name.None? || NameOk(u.name.value)),
      Rule("type", u.metricType.None? || TypeOk(u.metricType.value)),
      Rule("value", u.value.None? || ValueOk(u.value.value)),
      Rule("unit", u.unit.None? || UnitOk(u.unit.value)),
      Rule("metadata", u.metadata.None? || MetadataOk(u.metadata.value)),
      Rule("userId", u.userId.None? || UserIdOk(u.userId.value)) ]
  }

  lemma UpdateRulesMatchValid(u: UpdateMetricDto)
    ensures Violations(UpdateRules(u)) == [] <==> ValidUpdate(u)
  {
    var rules := UpdateRules(u);
    assert AllOk(rules) ==> rules[0].ok && rules[1].ok && rules[2].ok && rules[3].ok && rules[4].ok && rules[5].ok;
  }

  /** The properties of a metric a request can name. */
  datatype Field = FName | FType | FValue | FUnit | FMetadata | FUserId

  datatype FieldValue =
    | VText(s: string)
    | VOptText(o: Option<string>)
    | VCents(c: int)
    | VOptJson(j: Option<Json>)

  /** Reads one property of a stored metric. */
  function Get(m: Metric, k: Field): FieldValue {
    match k
    case FName => VText(m.name)
    case FType => VText(m.metricType)
    case FValue => VCents(m.value)
    case FUnit => VOptText(m.unit)
    case FMetadata => VOptJson(m.metadata)
    case FUserId => VOptText(m.userId)
  }

  /** The value a patch carries for one property, as it would be stored; `None` when the patch
      leaves the property out. */
  function Carried(u: UpdateMetricDto, k: Field): Option<FieldValue>
    requires ValidUpdate(u)
  {
    match k
    case FName => if u.name.Some? then Some(VText(u.name.value)) else None
    case FType => if u.metricType.Some? then Some(VText(u.metricType.value)) else None
    case FValue => if u.value.Some? then Some(VCents(ToHundredths(u.value.value))) else None
    case FUnit => if u.unit.Some? then Some(VOptText(u.unit)) else None
    case FMetadata => if u.metadata.Some? then Some(VOptJson(u.metadata)) else None
    case FUserId => if u.userId.Some? then Some(VOptText(u.userId)) else None
  }

  /** `Object.assign(metric, dto)`: the supplied properties overwrite, the rest stay. */
  function Assign(m: Metric, u: UpdateMetricDto): Metric
    requires ValidUpdate(u)
  {
    Metric(
      id := m.id,
      name := if u.name.Some? then u.name.value else m.name,
      metricType := if u.metricType.Some? then u.metricType.value else m.metricType,
      value := if u.value.Some? then ToHundredths(u.value.value) else m.value,
      unit := if u.unit.Some? then u.unit else m.unit,
      metadata := if u.metadata.Some? then u.metadata else m.metadata,
      userId := if u.userId.Some? then u.userId else m.userId,
      createdAt := m.createdAt,
      updatedAt := m.updatedAt)
  }

  /** The properties whose assigned value `save` never finds equal to the loaded one: the
      amount is a decimal column, which comes back from PostgreSQL as a string and is compared
      with `===` against the assigned number. */
  predicate AlwaysDiffers(k: Field) {
    k == FValue
  }

  /** `save` after the assignment: an UPDATE, which sets the `@UpdateDateColumn` to `now`, is
      written only when some column compares unequal to the loaded row; otherwise the row
      stays as it was, its update time included. */
  function Merge(m: Metric, u: UpdateMetricDto, now: int): Metric
    requires ValidUpdate(u)
  {
    var a := Assign(m, u);
    if a == m && u.value.None? then m else a.(updatedAt := now)
  }

  /** The patch carries a property that `save` finds changed: the amount, which it always
      writes, or one whose value differs from the stored one. */
  predicate ChangesSomething(m: Metric, u: UpdateMetricDto)
    requires ValidUpdate(u)
  {
    exists k :: Carried(u, k).Some? && (AlwaysDiffers(k) || Carried(u, k).value != Get(m, k))
  }

  /** The assignment overwrites exactly the supplied properties. */
  lemma AssignOverwrites(m: Metric, u: UpdateMetricDto, k: Field)
    requires ValidUpdate(u)
    ensures Carried(u, k).Some? ==> Get(Assign(m, u), k) == Carried(u, k).value
    ensures Carried(u, k).None? ==> Get(Assign(m, u), k) == Get(m, k)
  {
  }

  /** Two metrics with the same id, timestamps and properties are the same metric. */
  lemma GetDetermines(x: Metric, y: Metric)
    requires x.id == y.id && x.createdAt == y.createdAt && x.updatedAt == y.updatedAt
    requires forall k :: Get(x, k) == Get(y, k)
    ensures x == y
  {
    assert Get(x, FName) == Get(y, FName) && Get(x, FType) == Get(y, FType);
    assert Get(x, FValue) == Get(y, FValue) && Get(x, FUnit) == Get(y, FUnit);
    assert Get(x, FMetadata) == Get(y, FMetadata) && Get(x, FUserId) == Get(y, FUserId);
  }

  /** The update overwrites exactly the supplied properties and leaves every other one, the id
      and the creation time as they were; the update time moves to `now` exactly when `save`
      finds some supplied property changed. */
  lemma MergeOverwritesExactlyCarried(m: Metric, u: UpdateMetricDto, now: int, k: Field)
    requires ValidUpdate(u)
    ensures Carried(u, k).Some? ==> Get(Merge(m, u, now), k) == Carried(u, k).value
    ensures Carried(u, k).None? ==> Get(Merge(m, u, now), k) == Get(m, k)
    ensures Merge(m, u, now).id == m.id && Merge(m, u, now).createdAt == m.createdAt
    ensures Merge(m, u, now).updatedAt == if ChangesSomething(m, u) then now else m.updatedAt
  {
    AssignOverwrites(m, u, k);
    var a := Assign(m, u);
    assert Get(a.(updatedAt := now), k) == Get(a, k);
    if ChangesSomething(m, u) {
      var j :| Carried(u, j).Some? && (AlwaysDiffers(j) || Carried(u, j).value != Get(m, j));
      if !AlwaysDiffers(j) {
        AssignOverwrites(m, u, j);
        assert Get(a, j) != Get(m, j);
      }
    } else {
      assert Carried(u, FValue).None?;
      forall j ensures Get(a, j) == Get(m, j) {
        AssignOverwrites(m, u, j);
      }
      GetDetermines(a, m);
    }
  }

  /** An empty patch changes nothing, not even the update time. */
  lemma EmptyPatchIsIdentity(m: Metric, now: int)
    ensures Merge(m, UpdateMetricDto(None, None, None, None, None, None), now) == m
  {
  }

  /** Sending the same patch again changes no property. The update time stays where the first
      update left it, unless the patch carries an amount, which `save` always writes and which
      moves it to the second save. */
  lemma MergeIdempotent(m: Metric, u: UpdateMetricDto, t1: int, t2: int)
    requires ValidUpdate(u)
    ensures Merge(Merge(m, u, t1), u, t2) == if u.value.Some? then Merge(m, u, t2) else Merge(m, u, t1)
  {
    var m1 := Merge(m, u, t1);
    assert Assign(m1, u) == m1;
  }

  // ---------------------------------------------------------------------------
  // the response of create and update
  // ---------------------------------------------------------------------------

  /** The amount a create or update response carries. `save` answers with the object it was
      given, and the ORM reads back only generated and defaulted columns, so an amount the
      request sent comes back as sent, unrounded; an amount the request left out is the
      column's value as loaded. */
  datatype ReplyAmount = Sent(x: real) | AsStored(cents: int)

  /** A create or update response: the row as stored, and the amount as the response shows it. */
  datatype MetricReply = MetricReply(row: Metric, amount: ReplyAmount)

  /** The amount an update answers with. */
  function UpdateAmount(u: UpdateMetricDto, stored: Metric): (a: ReplyAmount)
    requires ValidUpdate(u)
    ensures a.Sent? <==> u.value.Some?
    ensures a.Sent? ==> a.x == u.value.value
    ensures a.AsStored? ==> a.cents == stored.value
  {
    if u.value.Some? then Sent(u.value.value) else AsStored(stored.value)
  }

  /** What a reply shows agrees with what is stored: a sent amount rounds to the stored
      hundredths, and an amount read back is the stored one. */
  predicate ReplyAgrees(r: MetricReply) {
    match r.amount
    case Sent(x) => x >= 0.0 && r.row.value == ToHundredths(x)
    case AsStored(c) => c == r.row.value
  }

  /** The reply to an update agrees with the row it stores. */
  lemma UpdateReplyAgrees(m: Metric, u: UpdateMetricDto, now: int)
    requires ValidUpdate(u)
    ensures ReplyAgrees(MetricReply(Merge(m, u, now), UpdateAmount(u, Merge(m, u, now))))
  {
    var a := Assign(m, u);
    if u.value.Some? {
      assert a.value == ToHundredths(u.value.value);
      assert Merge(m, u, now).value == a.value;
    }
  }
}

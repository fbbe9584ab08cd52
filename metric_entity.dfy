/** The `metrics` table: one measurement per row. */
module MetricEntity {
  import opened Wrappers
  import opened JsonValues

  /** A stored metric. `metricType` is the `type` column (a keyword in Dafny). `value` is the
      decimal(10,2) column as a whole number of hundredths; `createdAt` and `updatedAt` are
      instants maintained by the ORM. */
  datatype Metric = Metric(
    id: string,
    name: string,
    metricType: string,
    value: int,
    unit: Option<string>,
    metadata: Option<Json>,
    userId: Option<string>,
    createdAt: int,
    updatedAt: int)

  const NameColumnLength: nat := 255
  const TypeColumnLength: nat := 100
  const UnitColumnLength: nat := 50
  const UserIdColumnLength: nat := 255

  /** decimal(10,2) holds ten digits, two of them after the point: fewer than 10^10
      hundredths either way. */
  const ValueBound: int := 10_000_000_000

  predicate ValueFits(cents: int) {
    -ValueBound < cents < ValueBound
  }

  /** What Postgres accepts for the row: the varchar lengths and the decimal precision;
      `unit` and `userId` may be NULL. */
  predicate FitsColumns(m: Metric) {
    && |m.name| <= NameColumnLength
    && |m.metricType| <= TypeColumnLength
    && ValueFits(m.value)
    && (m.unit.Some? ==> |m.unit.value| <= UnitColumnLength)
    && (m.userId.Some? ==> |m.userId.value| <= UserIdColumnLength)
  }

  /** The primary key: no two rows share an id. */
  predicate UniqueIds(rows: seq<Metric>) {
    forall i, j :: 0 <= i < j < |rows| ==> rows[i].id != rows[j].id
  }
}

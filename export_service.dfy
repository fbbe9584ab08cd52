/** The three exporters of the metrics dashboard: a CSV text, a JSON document, and the cells of
    the PDF table. */
module ExportService {
  import opened Wrappers
  import opened Text
  import opened JsonValues
  import opened MetricEntity

  /** How instants are written, which belongs to the JavaScript runtime: `toISOString()` and
      `toLocaleDateString()`. */
  datatype DateFormat = DateFormat(iso: int -> string, localeDate: int -> string)

  // ---------------------------------------------------------------------------
  // CSV
  // ---------------------------------------------------------------------------

  const CsvHeaders: seq<string> := ["ID", "Name", "Type", "Value", "Unit", "User ID", "Created At"]

  /** The first line: the headers joined by commas, unquoted. It splits at its commas into
      the seven headers and holds no quote and no line break. */
  function HeaderLine(): (r: string)
    ensures Split(r, ',') == CsvHeaders
    ensures '"' !in r && '\n' !in r
  {
    var h := CsvHeaders;
    HeadersPlain();
    SplitJoin(h, ',');
    JoinAvoids(h, ",", '"');
    JoinAvoids(h, ",", '\n');
    Join(h, ",")
  }

  /** Every header is made of letters and spaces, so it holds no comma, quote or line break. */
  lemma HeadersPlain()
    ensures forall k :: 0 <= k < |CsvHeaders| ==>
      ',' !in CsvHeaders[k] && '"' !in CsvHeaders[k] && '\n' !in CsvHeaders[k]
  {
    forall k | 0 <= k < |CsvHeaders| ensures LettersAndSpaces(CsvHeaders[k]) {
    }
  }

  predicate LettersAndSpaces(s: string) {
    forall i :: 0 <= i < |s| ==> s[i] == ' ' || 'A' <= s[i] <= 'Z' || 'a' <= s[i] <= 'z'
  }

  /** The seven cells of one metric, before quoting. The amount is the decimal column's text;
      a missing or empty unit or user becomes an empty cell. */
  function CsvFields(m: Metric, fmt: DateFormat): (r: seq<string>)
    ensures |r| == |CsvHeaders|
    ensures r[0] == m.id && r[1] == m.name && r[2] == m.metricType
    ensures ParseCents(r[3]) == m.value
    ensures !Truthy(m.unit) ==> r[4] == ""
    ensures Truthy(m.unit) ==> r[4] == m.unit.value
    ensures !Truthy(m.userId) ==> r[5] == ""
    ensures Truthy(m.userId) ==> r[5] == m.userId.value
    ensures r[6] == fmt.iso(m.createdAt)
  {
    CentsRoundTrip(m.value);
    [ m.id,
      m.name,
      m.metricType,
      CentsToString(m.value),
      if Truthy(m.unit) then m.unit.value else "",
      if Truthy(m.userId) then m.userId.value else "",
      fmt.iso(m.createdAt) ]
  }

  /** How a cell is put between double quotes: as the exporter does it, the content as it is;
      as section 2, rule 7 of RFC 4180 requires, every inner double quote written twice. */
  datatype Quoting = AsWritten | Rfc4180

  /** RFC 4180, section 2, rule 7: inside a quoted cell every double quote is written twice. */
  function DoubleQuotes(s: string): (r: string)
    ensures '\n' !in s ==> '\n' !in r
  {
    if |s| == 0 then ""
    else (if s[0] == '"' then "\"\"" else [s[0]]) + DoubleQuotes(s[1..])
  }

  function Quote(q: Quoting, cell: string): (r: string)
    ensures '\n' !in cell ==> '\n' !in r
  {
    match q
    case AsWritten => "\"" + cell + "\""
    case Rfc4180 => "\"" + DoubleQuotes(cell) + "\""
  }

  /** The cells with a quoting applied to each. */
  function QuoteEach(cells: seq<string>, q: Quoting): (r: seq<string>)
    ensures |r| == |cells|
    ensures forall i :: 0 <= i < |cells| ==> r[i] == Quote(q, cells[i])
  {
    if |cells| == 0 then [] else [Quote(q, cells[0])] + QuoteEach(cells[1..], q)
  }

  /** One data line: the quoted cells joined by commas. */
  function CsvLine(m: Metric, fmt: DateFormat, q: Quoting): string {
    Join(QuoteEach(CsvFields(m, fmt), q), ",")
  }

  function CsvLines(ms: seq<Metric>, fmt: DateFormat, q: Quoting): (r: seq<string>)
    ensures |r| == |ms|
    ensures forall i :: 0 <= i < |ms| ==> r[i] == CsvLine(ms[i], fmt, q)
  {
    if |ms| == 0 then [] else [CsvLine(ms[0], fmt, q)] + CsvLines(ms[1..], fmt, q)
  }

  /** The header line and one line per metric, in input order, joined by `\n` with no
      newline at the end. */
  function CsvDocument(ms: seq<Metric>, fmt: DateFormat, q: Quoting): string {
    Join([HeaderLine()] + CsvLines(ms, fmt, q), "\n")
  }

  /** `exportToCsv` as written: cells wrapped in quotes and nothing more. */
  function ExportToCsvAsWritten(ms: seq<Metric>, fmt: DateFormat): string {
    CsvDocument(ms, fmt, AsWritten)
  }

  /** `exportToCsv` with the quotes inside cells doubled, as RFC 4180 requires. */
  function ExportToCsv(ms: seq<Metric>, fmt: DateFormat): string {
    CsvDocument(ms, fmt, Rfc4180)
  }

  /** No cell of the metric contains a line break. */
  predicate FieldsWithoutNewline(m: Metric, fmt: DateFormat) {
    forall k :: 0 <= k < |CsvHeaders| ==> '\n' !in CsvFields(m, fmt)[k]
  }

  /** A metric whose cells hold no line break is written on one line. */
  lemma CsvLineWithoutNewline(m: Metric, fmt: DateFormat, q: Quoting)
    requires FieldsWithoutNewline(m, fmt)
    ensures '\n' !in CsvLine(m, fmt, q)
  {
    var cells := CsvFields(m, fmt);
    var quoted := QuoteEach(cells, q);
    forall k | 0 <= k < |quoted| ensures '\n' !in quoted[k] {
      assert '\n' !in cells[k];
    }
    JoinAvoids(quoted, ",", '\n');
  }

  /** When no cell holds a line break, splitting the document at `\n` gives the header line
      followed by one line per metric, in input order, whichever the quoting. */
  lemma CsvDocumentLines(ms: seq<Metric>, fmt: DateFormat, q: Quoting)
    requires forall i :: 0 <= i < |ms| ==> FieldsWithoutNewline(ms[i], fmt)
    ensures var lines := Split(CsvDocument(ms, fmt, q), '\n');
      && |lines| == |ms| + 1
      && lines[0] == HeaderLine()
      && forall i :: 0 <= i < |ms| ==> lines[i + 1] == CsvLine(ms[i], fmt, q)
  {
    var body := CsvLines(ms, fmt, q);
    var lines := [HeaderLine()] + body;
    forall i | 0 <= i < |lines| ensures '\n' !in lines[i] {
      if i > 0 {
        CsvLineWithoutNewline(ms[i - 1], fmt, q);
        assert lines[i] == body[i - 1];
      }
    }
    SplitJoin(lines, '\n');
    assert Split(CsvDocument(ms, fmt, q), '\n') == lines;
  }

  /** The exported CSV has 1 + n lines: the unquoted header, then each metric's line in
      input order. */
  lemma ExportToCsvLines(ms: seq<Metric>, fmt: DateFormat)
    requires forall i :: 0 <= i < |ms| ==> FieldsWithoutNewline(ms[i], fmt)
    ensures var lines := Split(ExportToCsv(ms, fmt), '\n');
      && |lines| == |ms| + 1
      && lines[0] == HeaderLine()
      && forall i :: 0 <= i < |ms| ==> lines[i + 1] == CsvLine(ms[i], fmt, Rfc4180)
  {
    CsvDocumentLines(ms, fmt, Rfc4180);
  }

  /** The same line structure holds for the exporter as written. */
  lemma ExportToCsvAsWrittenLines(ms: seq<Metric>, fmt: DateFormat)
    requires forall i :: 0 <= i < |ms| ==> FieldsWithoutNewline(ms[i], fmt)
    ensures var lines := Split(ExportToCsvAsWritten(ms, fmt), '\n');
      && |lines| == |ms| + 1
      && lines[0] == HeaderLine()
      && forall i :: 0 <= i < |ms| ==> lines[i + 1] == CsvLine(ms[i], fmt, AsWritten)
  {
    CsvDocumentLines(ms, fmt, AsWritten);
  }

  // A reader for quoted CSV lines, the inverse the RFC 4180 quoting is meant to have.

  /** Reads a quoted cell's content up to its closing quote, `""` standing for one quote;
      returns the content and what follows the closing quote. */
  function ReadQuoted(s: string): (r: Option<(string, string)>)
    ensures r.Some? ==> |r.value.1| < |s|
  {
    if |s| == 0 then None
    else if s[0] == '"' then
      if |s| >= 2 && s[1] == '"' then
        match ReadQuoted(s[2..])
        case None => None
        case Some((c, rest)) => Some(("\"" + c, rest))
      else Some(("", s[1..]))
    else
      match ReadQuoted(s[1..])
      case None => None
      case Some((c, rest)) => Some(([s[0]] + c, rest))
  }

  /** Reads a line of quoted cells separated by commas. */
  function ReadLine(s: string): Option<seq<string>>
    decreases |s|
  {
    if |s| == 0 || s[0] != '"' then None
    else
      match ReadQuoted(s[1..])
      case None => None
      case Some((c, rest)) =>
        if |rest| == 0 then Some([c])
        else if rest[0] != ',' then None
        else
          match ReadLine(rest[1..])
          case None => None
          case Some(cs) => Some([c] + cs)
  }

  lemma {:induction false} ReadQuotedEscaped(c: string, t: string)
    requires t == [] || t[0] == ','
    ensures ReadQuoted(DoubleQuotes(c) + "\"" + t) == Some((c, t))
  {
    var s := DoubleQuotes(c) + "\"" + t;
    if |c| == 0 {
      assert s == ['"'] + t;
      assert s[1..] == t;
    } else if c[0] == '"' {
      assert s == "\"\"" + (DoubleQuotes(c[1..]) + "\"" + t);
      assert s[2..] == DoubleQuotes(c[1..]) + "\"" + t;
      ReadQuotedEscaped(c[1..], t);
      assert "\"" + c[1..] == c;
    } else {
      assert s == [c[0]] + (DoubleQuotes(c[1..]) + "\"" + t);
      assert s[1..] == DoubleQuotes(c[1..]) + "\"" + t;
      ReadQuotedEscaped(c[1..], t);
      assert [c[0]] + c[1..] == c;
    }
  }

  /** Reading a quoted cell followed by `t` gives the cell and `t`. */
  lemma ReadCell(c: string, t: string)
    requires t == [] || t[0] == ','
    ensures var s := Quote(Rfc4180, c) + t;
      |s| > 0 && s[0] == '"' && ReadQuoted(s[1..]) == Some((c, t))
  {
    var s := Quote(Rfc4180, c) + t;
    assert s == "\"" + (DoubleQuotes(c) + "\"" + t);
    assert s[1..] == DoubleQuotes(c) + "\"" + t;
    ReadQuotedEscaped(c, t);
  }

  /** With quotes doubled, every line reads back as the cells it was written from. */
  lemma {:induction false} ReadLineRoundTrip(cells: seq<string>)
    requires |cells| >= 1
    ensures ReadLine(Join(QuoteEach(cells, Rfc4180), ",")) == Some(cells)
  {
    var quoted := QuoteEach(cells, Rfc4180);
    var s := Join(quoted, ",");
    if |cells| == 1 {
      assert s == Quote(Rfc4180, cells[0]) + "";
      ReadCell(cells[0], "");
      assert cells == [cells[0]];
    } else {
      var tail := Join(quoted[1..], ",");
      var t := "," + tail;
      assert s == Quote(Rfc4180, cells[0]) + t;
      ReadCell(cells[0], t);
      assert t[1..] == tail;
      assert quoted[1..] == QuoteEach(cells[1..], Rfc4180);
      ReadLineRoundTrip(cells[1..]);
      assert [cells[0]] + cells[1..] == cells;
    }
  }

  /** Every line of the corrected export reads back as the metric's seven cells. */
  lemma CsvLineReadsBack(m: Metric, fmt: DateFormat)
    ensures ReadLine(CsvLine(m, fmt, Rfc4180)) == Some(CsvFields(m, fmt))
  {
    ReadLineRoundTrip(CsvFields(m, fmt));
  }

  /** The first three cells of a line, then the rest. */
  lemma LineHead(m: Metric, fmt: DateFormat)
    ensures var q := QuoteEach(CsvFields(m, fmt), AsWritten);
      CsvLine(m, fmt, AsWritten) == q[0] + "," + (q[1] + "," + q[2]) + "," + Join(q[3..], ",")
  {
    var q := QuoteEach(CsvFields(m, fmt), AsWritten);
    var rest := Join(q[3..], ",");
    assert Join(q[2..], ",") == q[2] + "," + rest by { assert q[2..][1..] == q[3..]; }
    assert Join(q[1..], ",") == q[1] + "," + (q[2] + "," + rest) by { assert q[1..][1..] == q[2..]; }
    assert Join(q, ",") == q[0] + "," + (q[1] + "," + (q[2] + "," + rest));
  }

  /** A quote-comma-quote inside a cell, wrapped as written, reads the same as a cell boundary. */
  lemma BareQuotesShift(x: string, y: string, z: string)
    ensures Quote(AsWritten, x + "\",\"" + y) + "," + Quote(AsWritten, z)
         == Quote(AsWritten, x) + "," + Quote(AsWritten, y + "\",\"" + z)
  {
    var q := "\"";
    assert "\",\"" == q + "," + q;
    calc {
      Quote(AsWritten, x + "\",\"" + y) + "," + Quote(AsWritten, z);
      q + (x + (q + "," + q) + y) + q + "," + (q + z + q);
      (q + x + q) + "," + (q + (y + (q + "," + q) + z) + q);
      Quote(AsWritten, x) + "," + Quote(AsWritten, y + "\",\"" + z);
    }
  }

  /** As written, the quoting loses cell boundaries: a metric named `a","b` of type `c` and
      one named `a` of type `b","c` export the same line. */
  lemma BareQuoteLinesCollide(m: Metric, fmt: DateFormat)
    ensures var m1 := m.(name := "a\",\"b", metricType := "c");
            var m2 := m.(name := "a", metricType := "b\",\"c");
            m1 != m2 && CsvLine(m1, fmt, AsWritten) == CsvLine(m2, fmt, AsWritten)
  {
    var m1 := m.(name := "a\",\"b", metricType := "c");
    var m2 := m.(name := "a", metricType := "b\",\"c");
    assert |m1.name| != |m2.name|;
    OtherCellsAgree(m, m1.name, m1.metricType, m2.name, m2.metricType, fmt);
    MiddleCellsCollide(m1, m2, fmt);
    LineHead(m1, fmt);
    LineHead(m2, fmt);
  }

  /** Two metrics that differ at most in name and type quote to the same other cells. */
  lemma OtherCellsAgree(m: Metric, n1: string, t1: string, n2: string, t2: string, fmt: DateFormat)
    ensures var q1 := QuoteEach(CsvFields(m.(name := n1, metricType := t1), fmt), AsWritten);
            var q2 := QuoteEach(CsvFields(m.(name := n2, metricType := t2), fmt), AsWritten);
            q1[0] == q2[0] && q1[3..] == q2[3..]
  {
    var f1 := CsvFields(m.(name := n1, metricType := t1), fmt);
    var f2 := CsvFields(m.(name := n2, metricType := t2), fmt);
    assert f1[3..] == f2[3..];
    var q1, q2 := QuoteEach(f1, AsWritten), QuoteEach(f2, AsWritten);
    forall i | 3 <= i < |q1| ensures q1[i] == q2[i] {
      assert f1[i] == f1[3..][i - 3];
    }
  }

  /** The name and type cells of the two colliding metrics read the same once joined. */
  lemma MiddleCellsCollide(m1: Metric, m2: Metric, fmt: DateFormat)
    requires m1.name == "a\",\"b" && m1.metricType == "c"
    requires m2.name == "a" && m2.metricType == "b\",\"c"
    ensures var q1 := QuoteEach(CsvFields(m1, fmt), AsWritten);
            var q2 := QuoteEach(CsvFields(m2, fmt), AsWritten);
            q1[1] + "," + q1[2] == q2[1] + "," + q2[2]
  {
    BareQuotesShift("a", "b", "c");
    assert "a" + "\",\"" + "b" == m1.name;
    assert "b" + "\",\"" + "c" == m2.metricType;
  }

  // ---------------------------------------------------------------------------
  // JSON
  // ---------------------------------------------------------------------------

  /** A nullable text column: a string, or null. */
  function NullableText(o: Option<string>): Json {
    if o.Some? then JString(o.value) else JNull
  }

  /** The nine members of one exported metric, in the order the exporter lists them. The
      amount is the decimal column's text and the two instants are ISO strings, as
      `JSON.stringify` writes a Date. */
  function MetricMembers(m: Metric, fmt: DateFormat): seq<(string, Json)> {
    [ ("id", JString(m.id)),
      ("name", JString(m.name)),
      ("type", JString(m.metricType)),
      ("value", JString(CentsToString(m.value))),
      ("unit", NullableText(m.unit)),
      ("metadata", if m.metadata.Some? then m.metadata.value else JNull),
      ("userId", NullableText(m.userId)),
      ("createdAt", JString(fmt.iso(m.createdAt))),
      ("updatedAt", JString(fmt.iso(m.updatedAt))) ]
  }

  function MetricJson(m: Metric, fmt: DateFormat): Json {
    JObject(MetricMembers(m, fmt))
  }

  /** The items of the `metrics` array, in input order. */
  function MetricItems(ms: seq<Metric>, fmt: DateFormat): (r: seq<Json>)
    ensures |r| == |ms|
    ensures forall i :: 0 <= i < |ms| ==> r[i] == MetricJson(ms[i], fmt)
  {
    if |ms| == 0 then [] else [MetricJson(ms[0], fmt)] + MetricItems(ms[1..], fmt)
  }

  /** `exportToJson` before the text rendering: the export time, the record count and the
      metrics. */
  function ExportToJson(ms: seq<Metric>, exportDate: string, fmt: DateFormat): Json {
    JObject([
      ("exportDate", JString(exportDate)),
      ("totalRecords", JNumber(|ms| as real)),
      ("metrics", JArray(MetricItems(ms, fmt)))])
  }

  /** What a reader of one exported item learns about the metric. */
  datatype ExportedMetric = ExportedMetric(
    id: string,
    name: string,
    metricType: string,
    value: int,
    unit: Option<string>,
    metadata: Option<Json>,
    userId: Option<string>,
    createdAt: string,
    updatedAt: string)

  function TextMember(j: Json, key: string): Option<string> {
    match Member(j, key)
    case Some(JString(s)) => Some(s)
    case _ => None
  }

  /** A nullable member: `Some(None)` for null, `None` when missing or of another kind. */
  function NullableTextMember(j: Json, key: string): Option<Option<string>> {
    match Member(j, key)
    case Some(JString(s)) => Some(Some(s))
    case Some(JNull) => Some(None)
    case _ => None
  }

  /** Reads one exported item back. */
  function ReadMetric(j: Json): Option<ExportedMetric> {
    var id := TextMember(j, "id");
    var name := TextMember(j, "name");
    var t := TextMember(j, "type");
    var value := TextMember(j, "value");
    var unit := NullableTextMember(j, "unit");
    var metadata := Member(j, "metadata");
    var userId := NullableTextMember(j, "userId");
    var createdAt := TextMember(j, "createdAt");
    var updatedAt := TextMember(j, "updatedAt");
    if id.None? || name.None? || t.None? || value.None? || unit.None? || metadata.None?
       || userId.None? || createdAt.None? || updatedAt.None?
    then None
    else
      Some(ExportedMetric(id.value, name.value, t.value, ParseCents(value.value), unit.value,
                          if metadata.value == JNull then None else Some(metadata.value),
                          userId.value, createdAt.value, updatedAt.value))
  }

  /** Reads the `metrics` array of an export back, in order. */
  function ReadMetrics(items: seq<Json>): Option<seq<ExportedMetric>> {
    if |items| == 0 then Some([])
    else
      match (ReadMetric(items[0]), ReadMetrics(items[1..]))
      case (Some(x), Some(xs)) => Some([x] + xs)
      case _ => None
  }

  /** What the export promises about a metric: every column, the amount as cents, the
      instants as ISO text. */
  function Exported(m: Metric, fmt: DateFormat): ExportedMetric {
    ExportedMetric(m.id, m.name, m.metricType, m.value, m.unit, m.metadata, m.userId,
                   fmt.iso(m.createdAt), fmt.iso(m.updatedAt))
  }

  function ExportedAll(ms: seq<Metric>, fmt: DateFormat): (r: seq<ExportedMetric>)
    ensures |r| == |ms|
    ensures forall i :: 0 <= i < |ms| ==> r[i] == Exported(ms[i], fmt)
  {
    if |ms| == 0 then [] else [Exported(ms[0], fmt)] + ExportedAll(ms[1..], fmt)
  }

  /** A jsonb `null` in `metadata` and a NULL column both export as null, so a reader can only
      recover metadata that is not a JSON null. */
  predicate MetadataReadable(m: Metric) {
    m.metadata != Some(JNull)
  }

  /** Each item carries exactly the nine members, in this order, so every name is found at
      its own position. */
  lemma MetricJsonKeys(m: Metric, fmt: DateFormat)
    ensures Keys(MetricMembers(m, fmt))
            == ["id", "name", "type", "value", "unit", "metadata", "userId", "createdAt", "updatedAt"]
  {
  }

  /** Every name of an exported item finds its own member. */
  lemma MetricMembersFound(m: Metric, fmt: DateFormat)
    ensures var j := MetricJson(m, fmt);
      && Member(j, "id") == Some(JString(m.id))
      && Member(j, "name") == Some(JString(m.name))
      && Member(j, "type") == Some(JString(m.metricType))
      && Member(j, "value") == Some(JString(CentsToString(m.value)))
      && Member(j, "unit") == Some(NullableText(m.unit))
      && Member(j, "metadata") == Some(if m.metadata.Some? then m.metadata.value else JNull)
      && Member(j, "userId") == Some(NullableText(m.userId))
      && Member(j, "createdAt") == Some(JString(fmt.iso(m.createdAt)))
      && Member(j, "updatedAt") == Some(JString(fmt.iso(m.updatedAt)))
  {
    var ms := MetricMembers(m, fmt);
    MetricKeysDistinct(m, fmt);
    DistinctKeyFound(ms, 0);
    DistinctKeyFound(ms, 1);
    DistinctKeyFound(ms, 2);
    DistinctKeyFound(ms, 3);
    DistinctKeyFound(ms, 4);
    DistinctKeyFound(ms, 5);
    DistinctKeyFound(ms, 6);
    DistinctKeyFound(ms, 7);
    DistinctKeyFound(ms, 8);
  }

  /** No two members of an exported item share a name. */
  lemma MetricKeysDistinct(m: Metric, fmt: DateFormat)
    ensures var ms := MetricMembers(m, fmt);
      forall a, b :: 0 <= a < b < |ms| ==> ms[a].0 != ms[b].0
  {
    var ms := MetricMembers(m, fmt);
    var keys := Keys(ms);
    MetricJsonKeys(m, fmt);
    assert |keys[0]| == 2 && |keys[1]| == 4 && |keys[2]| == 4 && |keys[3]| == 5 && |keys[4]| == 4;
    assert |keys[5]| == 8 && |keys[6]| == 6 && |keys[7]| == 9 && |keys[8]| == 9;
    assert keys[1][0] == 'n' && keys[2][0] == 't' && keys[4][0] == 'u';
    assert keys[7][0] == 'c' && keys[8][0] == 'u';
  }

  /** One item reads back as the metric it was written from. */
  lemma ReadMetricRoundTrip(m: Metric, fmt: DateFormat)
    requires MetadataReadable(m)
    ensures ReadMetric(MetricJson(m, fmt)) == Some(Exported(m, fmt))
  {
    MetricMembersFound(m, fmt);
    CentsRoundTrip(m.value);
  }

  lemma {:induction false} ReadItemsRoundTrip(ms: seq<Metric>, fmt: DateFormat)
    requires forall i :: 0 <= i < |ms| ==> MetadataReadable(ms[i])
    ensures ReadMetrics(MetricItems(ms, fmt)) == Some(ExportedAll(ms, fmt))
  {
    if |ms| > 0 {
      ReadMetricRoundTrip(ms[0], fmt);
      ReadItemsRoundTrip(ms[1..], fmt);
      var items := MetricItems(ms, fmt);
      assert items[1..] == MetricItems(ms[1..], fmt);
    }
  }

  /** The envelope: `totalRecords` is the number of metrics, and the `metrics` array reads
      back as the metrics in input order. */
  lemma ExportToJsonRoundTrip(ms: seq<Metric>, exportDate: string, fmt: DateFormat)
    requires forall i :: 0 <= i < |ms| ==> MetadataReadable(ms[i])
    ensures var j := ExportToJson(ms, exportDate, fmt);
      && Member(j, "totalRecords") == Some(JNumber(|ms| as real))
      && Member(j, "exportDate") == Some(JString(exportDate))
      && Member(j, "metrics") == Some(JArray(MetricItems(ms, fmt)))
      && ReadMetrics(MetricItems(ms, fmt)) == Some(ExportedAll(ms, fmt))
  {
    var j := ExportToJson(ms, exportDate, fmt);
    MemberFirst(j.members, "exportDate", 0);
    MemberFirst(j.members, "totalRecords", 1);
    MemberFirst(j.members, "metrics", 2);
    ReadItemsRoundTrip(ms, fmt);
  }

  // ---------------------------------------------------------------------------
  // PDF table cells
  // ---------------------------------------------------------------------------

  const PdfHeaders: seq<string> := ["Name", "Type", "Value", "Unit", "User ID", "Date"]

  /** The six cells of one table row. */
  function PdfRow(m: Metric, fmt: DateFormat): seq<string> {
    var user := if m.userId.Some? then Take(m.userId.value, 10) else "";
    [ Take(m.name, 15),
      Take(m.metricType, 15),
      CentsToString(m.value),
      if Truthy(m.unit) then m.unit.value else "-",
      if user != "" then user else "-",
      fmt.localeDate(m.createdAt) ]
  }

  /** A row has one cell per header. The name and the type are cut to their first 15
      characters and the user to its first 10; a missing or empty unit or user shows `-`. */
  lemma PdfRowCells(m: Metric, fmt: DateFormat)
    ensures var r := PdfRow(m, fmt);
      && |r| == |PdfHeaders|
      && |r[0]| <= 15 && r[0] == m.name[..|r[0]|] && (r[0] == m.name <==> |m.name| <= 15)
      && |r[1]| <= 15 && r[1] == m.metricType[..|r[1]|] && (r[1] == m.metricType <==> |m.metricType| <= 15)
      && ParseCents(r[2]) == m.value
      && (r[3] == "-" <==> !Truthy(m.unit) || m.unit.value == "-")
      && (Truthy(m.unit) ==> r[3] == m.unit.value)
      && (!Truthy(m.userId) ==> r[4] == "-")
      && (Truthy(m.userId) ==> |r[4]| <= 10 && r[4] == m.userId.value[..|r[4]|] && |r[4]| >= 1)
      && r[5] == fmt.localeDate(m.createdAt)
  {
    CentsRoundTrip(m.value);
  }

  /** The rows loop of `exportToPdf`, without the layout: one row of cells per metric, in
      input order. */
  method PdfTable(ms: seq<Metric>, fmt: DateFormat) returns (table: seq<seq<string>>)
    ensures |table| == |ms|
    ensures forall i :: 0 <= i < |ms| ==> table[i] == PdfRow(ms[i], fmt)
  {
    table := [];
    var index := 0;
    while index < |ms|
      invariant 0 <= index <= |ms|
      invariant |table| == index
      invariant forall i :: 0 <= i < index ==> table[i] == PdfRow(ms[i], fmt)
    {
      table := table + [PdfRow(ms[index], fmt)];
      index := index + 1;
    }
  }
}

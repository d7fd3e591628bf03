/** The staff report export and a decoder after section 2 of RFC 4180, with LF
    as the record separator. */
module CsvExport {
  import opened Sequences
  import opened Text

  datatype Cell = Missing | Words(text: string) | Number(n: int)

  datatype Dimensions = Dimensions(
    jurisdiction: Option<string>, practiceArea: Option<string>, clinicProgramId: Option<string>, restrictedFundReviewStatus: Option<string>)

  datatype ReportRow = ReportRow(
    id: string, rowLabel: string, groupLabel: string, status: string, tone: string,
    matterId: Option<string>, matterNumber: Option<string>, userId: Option<string>, dueAt: Option<string>, occurredAt: Option<string>,
    metricCents: Option<int>, metricMinutes: Option<int>, metricCount: Option<int>, dimensions: Option<Dimensions>)

  const PLAIN_HEADERS: seq<string> := ["id", "label", "group", "status", "tone"]
  const OPTIONAL_HEADERS: seq<string> := ["matterId", "matterNumber", "userId", "dueAt", "occurredAt"]
  const METRIC_HEADERS: seq<string> := ["metricCents", "metricMinutes", "metricCount"]
  const DIMENSION_HEADERS: seq<string> := ["jurisdiction", "practiceArea", "clinicProgramId", "restrictedFundReviewStatus"]
  const HEADERS: seq<string> := PLAIN_HEADERS + OPTIONAL_HEADERS + METRIC_HEADERS + DIMENSION_HEADERS

  function CellText(cell: Cell): string {
    match cell
    case Missing => ""
    case Words(text) => text
    case Number(n) => DecimalInt(n)
  }

  predicate IsSpecial(c: char) {
    c == '"' || c == ',' || c == '\n' || c == '\r'
  }

  predicate NeedsQuotes(s: string) {
    exists i :: 0 <= i < |s| && IsSpecial(s[i])
  }

  /** `text.replace(/"/g, '""')`. */
  function DoubleQuotes(s: string): string {
    if s == [] then [] else (if s[0] == '"' then "\"\"" else [s[0]]) + DoubleQuotes(s[1..])
  }

  function Encode(text: string): string {
    if NeedsQuotes(text) then "\"" + DoubleQuotes(text) + "\"" else text
  }

  /** `csvCell`. */
  function CsvCell(cell: Cell): string {
    if cell.Missing? then "" else Encode(CellText(cell))
  }

  function TextCell(value: Option<string>): Cell {
    if value.Some? then Words(value.value) else Missing
  }

  function NumberCell(value: Option<int>): Cell {
    if value.Some? then Number(value.value) else Missing
  }

  /** Optional chaining: without dimensions every one of them is missing. */
  function DimensionsOf(row: ReportRow): Dimensions {
    if row.dimensions.Some? then row.dimensions.value else Dimensions(None, None, None, None)
  }

  function PlainCells(row: ReportRow): seq<Cell> {
    [Words(row.id), Words(row.rowLabel), Words(row.groupLabel), Words(row.status), Words(row.tone)]
  }

  function OptionalCells(row: ReportRow): seq<Cell> {
    [TextCell(row.matterId), TextCell(row.matterNumber), TextCell(row.userId), TextCell(row.dueAt), TextCell(row.occurredAt)]
  }

  function MetricCells(row: ReportRow): seq<Cell> {
    [NumberCell(row.metricCents), NumberCell(row.metricMinutes), NumberCell(row.metricCount)]
  }

  function DimensionCells(d: Dimensions): seq<Cell> {
    [TextCell(d.jurisdiction), TextCell(d.practiceArea), TextCell(d.clinicProgramId), TextCell(d.restrictedFundReviewStatus)]
  }

  function RowCells(row: ReportRow): seq<Cell> {
    PlainCells(row) + OptionalCells(row) + MetricCells(row) + DimensionCells(DimensionsOf(row))
  }

  function RowLine(row: ReportRow): string {
    Join(",", Map(CsvCell, RowCells(row)))
  }

  /** `staffReportProjectionCsv`. */
  function Export(rows: seq<ReportRow>): string {
    Join("\n", [Join(",", HEADERS)] + Map(RowLine, rows))
  }

  // ----- The decoder -----

  /** An unquoted field: up to the next comma or line end, no quote, no CR. */
  function BareField(s: string): (r: Option<(string, string)>)
    ensures r.Some? ==> |r.value.1| <= |s|
  {
    if s == [] || s[0] == ',' || s[0] == '\n' then Some(([], s))
    else if IsSpecial(s[0]) then None
    else
      var rest := BareField(s[1..]);
      if rest.None? then None else Some(([s[0]] + rest.value.0, rest.value.1))
  }

  /** After an opening quote: a doubled quote stands for one, a single one closes. */
  function QuotedField(s: string): (r: Option<(string, string)>)
    ensures r.Some? ==> |r.value.1| <= |s|
  {
    if s == [] then None
    else if s[0] == '"' && (|s| == 1 || s[1] != '"') then Some(([], s[1..]))
    else
      var rest := QuotedField(if s[0] == '"' then s[2..] else s[1..]);
      if rest.None? then None else Some(([s[0]] + rest.value.0, rest.value.1))
  }

  predicate AtFieldEnd(s: string) {
    s == [] || s[0] == ',' || s[0] == '\n'
  }

  function Field(s: string): (r: Option<(string, string)>)
    ensures r.Some? ==> |r.value.1| <= |s| && AtFieldEnd(r.value.1)
  {
    var r := if s != [] && s[0] == '"' then QuotedField(s[1..]) else BareField(s);
    if r.Some? && AtFieldEnd(r.value.1) then r else None
  }

  /** Records of a text; `row` holds the fields of the current record so far. */
  function Decode(s: string, row: seq<string>): Option<seq<seq<string>>>
    decreases |s|
  {
    var f := Field(s);
    if f.None? then None
    else
      var fields, rest := row + [f.value.0], f.value.1;
      if rest == [] then Some([fields])
      else if rest[0] == ',' then Decode(rest[1..], fields)
      else
        var later := Decode(rest[1..], []);
        if later.None? then None else Some([fields] + later.value)
  }

  // ----- Decoding undoes encoding -----

  lemma {:induction false} BareReads(text: string, rest: string)
    requires !NeedsQuotes(text) && AtFieldEnd(rest)
    ensures BareField(text + rest) == Some((text, rest))
  {
    if text == [] {
      assert text + rest == rest;
    } else {
      assert !IsSpecial(text[0]);
      assert (text + rest)[1..] == text[1..] + rest;
      assert forall i :: 0 <= i < |text| - 1 ==> text[1..][i] == text[i + 1];
      BareReads(text[1..], rest);
      assert [text[0]] + text[1..] == text;
    }
  }

  lemma {:induction false} QuotedReads(text: string, rest: string)
    requires AtFieldEnd(rest)
    ensures QuotedField(DoubleQuotes(text) + "\"" + rest) == Some((text, rest))
  {
    var s := DoubleQuotes(text) + "\"" + rest;
    if text == [] {
      assert s == "\"" + rest;
      assert s[1..] == rest;
    } else {
      var inner := DoubleQuotes(text[1..]) + "\"" + rest;
      QuotedReads(text[1..], rest);
      assert [text[0]] + text[1..] == text;
      if text[0] == '"' {
        assert s == "\"\"" + inner;
        assert s[2..] == inner;
      } else {
        assert s == [text[0]] + inner;
        assert s[1..] == inner;
      }
    }
  }

  lemma FieldReads(text: string, rest: string)
    requires AtFieldEnd(rest)
    ensures Field(Encode(text) + rest) == Some((text, rest))
  {
    var s := Encode(text) + rest;
    if NeedsQuotes(text) {
      QuotedReads(text, rest);
      assert s[0] == '"' && s[1..] == DoubleQuotes(text) + "\"" + rest;
    } else {
      BareReads(text, rest);
      assert s != [] ==> s[0] != '"' by {
        if text != [] { assert s[0] == text[0] && !IsSpecial(text[0]); }
      }
    }
  }

  function EncodeRecord(fields: seq<string>): string {
    Join(",", Map(Encode, fields))
  }

  lemma {:induction false} RecordReads(fields: seq<string>, rest: string, row: seq<string>)
    requires fields != [] && (rest == [] || rest[0] == '\n')
    ensures Decode(EncodeRecord(fields) + rest, row) ==
            if rest == [] then Some([row + fields])
            else var later := Decode(rest[1..], []); if later.None? then None else Some([row + fields] + later.value)
    decreases |fields|
  {
    var cells := Map(Encode, fields);
    if |fields| == 1 {
      FieldReads(fields[0], rest);
      assert fields == [fields[0]];
    } else {
      var tail := EncodeRecord(fields[1..]);
      assert cells[1..] == Map(Encode, fields[1..]);
      JoinPeel(",", cells);
      assert EncodeRecord(fields) + rest == Encode(fields[0]) + ("," + tail + rest);
      FieldReads(fields[0], "," + tail + rest);
      assert ("," + tail + rest)[1..] == tail + rest;
      RecordReads(fields[1..], rest, row + [fields[0]]);
      assert row + [fields[0]] + fields[1..] == row + fields;
    }
  }

  /** For every table whose records have at least one field. */
  lemma {:induction false} TableReads(table: seq<seq<string>>)
    requires table != [] && forall i :: 0 <= i < |table| ==> table[i] != []
    ensures Decode(Join("\n", Map(EncodeRecord, table)), []) == Some(table)
    decreases |table|
  {
    var lines := Map(EncodeRecord, table);
    assert [] + table[0] == table[0];
    if |table| == 1 {
      RecordReads(table[0], [], []);
      assert lines[0] + [] == lines[0];
      assert table == [table[0]];
    } else {
      var tail := Join("\n", lines[1..]);
      assert lines[1..] == Map(EncodeRecord, table[1..]);
      TableReads(table[1..]);
      RecordReads(table[0], "\n" + tail, []);
      assert ("\n" + tail)[1..] == tail;
      JoinPeel("\n", lines);
      assert [table[0]] + table[1..] == table;
    }
  }

  function RowTexts(row: ReportRow): seq<string> {
    Map(CellText, RowCells(row))
  }

  lemma {:induction false} CellIsEncoded(cell: Cell)
    ensures CsvCell(cell) == Encode(CellText(cell))
  {
  }

  lemma RowIsEncoded(row: ReportRow)
    ensures RowLine(row) == EncodeRecord(RowTexts(row))
  {
    var cells := RowCells(row);
    forall i | 0 <= i < |cells| ensures Map(CsvCell, cells)[i] == Map(Encode, RowTexts(row))[i] {
      CellIsEncoded(cells[i]);
    }
    assert Map(CsvCell, cells) == Map(Encode, RowTexts(row));
  }

  /** Text made of letters is exported as it is. */
  lemma {:induction false} LettersStayBare(s: string)
    requires forall i :: 0 <= i < |s| ==> s[i] >= 'A'
    ensures Encode(s) == s
  {
  }

  ghost predicate Letters(texts: seq<string>) {
    forall i, k :: 0 <= i < |texts| && 0 <= k < |texts[i]| ==> texts[i][k] >= 'A'
  }

  lemma {:induction false} LettersEncode(texts: seq<string>)
    requires Letters(texts)
    ensures Map(Encode, texts) == texts
  {
    forall i | 0 <= i < |texts| ensures Encode(texts[i]) == texts[i] { LettersStayBare(texts[i]); }
  }

  lemma {:induction false} PlainLetters()
    ensures Letters(PLAIN_HEADERS)
  {
  }

  lemma {:induction false} OptionalLetters()
    ensures Letters(OPTIONAL_HEADERS)
  {
  }

  lemma {:induction false} MetricLetters()
    ensures Letters(METRIC_HEADERS)
  {
  }

  lemma {:induction false} DimensionLetters()
    ensures Letters(DIMENSION_HEADERS)
  {
  }

  lemma {:induction false} HeadersAreEncoded()
    ensures Map(Encode, HEADERS) == HEADERS
  {
    PlainLetters();
    OptionalLetters();
    MetricLetters();
    DimensionLetters();
    LettersEncode(PLAIN_HEADERS);
    LettersEncode(OPTIONAL_HEADERS);
    LettersEncode(METRIC_HEADERS);
    LettersEncode(DIMENSION_HEADERS);
    MapConcat4(Encode, PLAIN_HEADERS, OPTIONAL_HEADERS, METRIC_HEADERS, DIMENSION_HEADERS);
  }

  lemma LinesDecode(headers: seq<string>, rows: seq<ReportRow>)
    requires headers != [] && Map(Encode, headers) == headers
    ensures Decode(Join("\n", [Join(",", headers)] + Map(RowLine, rows)), []) == Some([headers] + Map(RowTexts, rows))
  {
    var table := [headers] + Map(RowTexts, rows);
    var lines := [Join(",", headers)] + Map(RowLine, rows);
    forall i | 0 <= i < |table| ensures lines[i] == EncodeRecord(table[i]) && table[i] != [] {
      if i > 0 { RowIsEncoded(rows[i - 1]); }
    }
    assert lines == Map(EncodeRecord, table);
    TableReads(table);
  }

  /** Reading the export gives back the header and every cell's text, missing
      cells as empty, whatever quotes, commas, CR or LF the cells contain. */
  lemma {:induction false} ExportDecodes(rows: seq<ReportRow>)
    ensures Decode(Export(rows), []) == Some([HEADERS] + Map(RowTexts, rows))
  {
    HeadersAreEncoded();
    LinesDecode(HEADERS, rows);
  }

  // ----- What stands under each header -----

  datatype Column =
    | Id | Label | Group | Status | Tone | MatterId | MatterNumber | UserId | DueAt | OccurredAt
    | MetricCents | MetricMinutes | MetricCount | Jurisdiction | PracticeArea | ClinicProgramId | RestrictedFundReviewStatus

  const PLAIN: seq<Column> := [Id, Label, Group, Status, Tone]
  const OPTIONAL: seq<Column> := [MatterId, MatterNumber, UserId, DueAt, OccurredAt]
  const METRICS: seq<Column> := [MetricCents, MetricMinutes, MetricCount]
  const DIMENSIONS: seq<Column> := [Jurisdiction, PracticeArea, ClinicProgramId, RestrictedFundReviewStatus]
  const COLUMNS: seq<Column> := PLAIN + OPTIONAL + METRICS + DIMENSIONS

  function HeaderName(c: Column): string {
    match c
    case Id => "id" case Label => "label" case Group => "group" case Status => "status" case Tone => "tone"
    case MatterId => "matterId" case MatterNumber => "matterNumber" case UserId => "userId"
    case DueAt => "dueAt" case OccurredAt => "occurredAt"
    case MetricCents => "metricCents" case MetricMinutes => "metricMinutes" case MetricCount => "metricCount"
    case Jurisdiction => "jurisdiction" case PracticeArea => "practiceArea" case ClinicProgramId => "clinicProgramId"
    case RestrictedFundReviewStatus => "restrictedFundReviewStatus"
  }

  function TextOr(value: Option<string>): string {
    if value.Some? then value.value else ""
  }

  function NumberOr(value: Option<int>): string {
    if value.Some? then DecimalInt(value.value) else ""
  }

  function FieldText(row: ReportRow): Column -> string {
    (c: Column) =>
      var d := match row.dimensions case None => Dimensions(None, None, None, None) case Some(given) => given;
      match c
      case Id => row.id case Label => row.rowLabel case Group => row.groupLabel case Status => row.status case Tone => row.tone
      case MatterId => TextOr(row.matterId) case MatterNumber => TextOr(row.matterNumber) case UserId => TextOr(row.userId)
      case DueAt => TextOr(row.dueAt) case OccurredAt => TextOr(row.occurredAt)
      case MetricCents => NumberOr(row.metricCents) case MetricMinutes => NumberOr(row.metricMinutes) case MetricCount => NumberOr(row.metricCount)
      case Jurisdiction => TextOr(d.jurisdiction) case PracticeArea => TextOr(d.practiceArea) case ClinicProgramId => TextOr(d.clinicProgramId)
      case RestrictedFundReviewStatus => TextOr(d.restrictedFundReviewStatus)
  }

  lemma {:induction false} PlainHeaders()
    ensures Map(HeaderName, PLAIN) == PLAIN_HEADERS
  {
  }

  lemma {:induction false} OptionalHeaders()
    ensures Map(HeaderName, OPTIONAL) == OPTIONAL_HEADERS
  {
  }

  lemma {:induction false} MetricHeaders()
    ensures Map(HeaderName, METRICS) == METRIC_HEADERS
  {
  }

  lemma {:induction false} DimensionHeaders()
    ensures Map(HeaderName, DIMENSIONS) == DIMENSION_HEADERS
  {
  }

  lemma {:induction false} HeadersAreColumns()
    ensures HEADERS == Map(HeaderName, COLUMNS)
  {
    PlainHeaders();
    OptionalHeaders();
    MetricHeaders();
    DimensionHeaders();
    MapConcat4(HeaderName, PLAIN, OPTIONAL, METRICS, DIMENSIONS);
  }

  lemma {:induction false} PlainTexts(row: ReportRow)
    ensures Map(CellText, PlainCells(row)) == Map(FieldText(row), PLAIN)
  {
  }

  lemma {:induction false} OptionalTexts(row: ReportRow)
    ensures Map(CellText, OptionalCells(row)) == Map(FieldText(row), OPTIONAL)
  {
  }

  lemma {:induction false} MetricTexts(row: ReportRow)
    ensures Map(CellText, MetricCells(row)) == Map(FieldText(row), METRICS)
  {
  }

  lemma {:induction false} DimensionTexts(row: ReportRow)
    ensures Map(CellText, DimensionCells(DimensionsOf(row))) == Map(FieldText(row), DIMENSIONS)
  {
  }

  lemma {:induction false} RowTextsAreFields(row: ReportRow)
    ensures RowTexts(row) == Map(FieldText(row), COLUMNS)
  {
    PlainTexts(row);
    OptionalTexts(row);
    MetricTexts(row);
    DimensionTexts(row);
    MapConcat4(CellText, PlainCells(row), OptionalCells(row), MetricCells(row), DimensionCells(DimensionsOf(row)));
    MapConcat4(FieldText(row), PLAIN, OPTIONAL, METRICS, DIMENSIONS);
  }

  lemma {:induction false} MapConcat4<A(!new)>(f: A -> string, a: seq<A>, b: seq<A>, c: seq<A>, d: seq<A>)
    ensures Map(f, a + b + c + d) == Map(f, a) + Map(f, b) + Map(f, c) + Map(f, d)
  {
    MapConcat(f, a, b);
    MapConcat(f, a + b, c);
    MapConcat(f, a + b + c, d);
  }

  /** In the decoded export, record i stands for row i, and under every header
      stands the text of the field that the header names. */
  lemma {:induction false} ExportedColumns(rows: seq<ReportRow>, i: nat, k: nat)
    requires i < |rows| && k < |COLUMNS|
    ensures var table := Decode(Export(rows), []);
            && table.Some? && |table.value| == |rows| + 1
            && |table.value[0]| == |table.value[i + 1]| == |COLUMNS|
            && table.value[0][k] == HeaderName(COLUMNS[k]) && table.value[i + 1][k] == FieldText(rows[i])(COLUMNS[k])
  {
    ExportDecodes(rows);
    HeadersAreColumns();
    RowTextsAreFields(rows[i]);
    TableAt(HEADERS, Map(RowTexts, rows), i);
    ColumnAt(COLUMNS, HeaderName, FieldText(rows[i]), k);
  }

  lemma {:induction false} TableAt(header: seq<string>, records: seq<seq<string>>, i: nat)
    requires i < |records|
    ensures ([header] + records)[0] == header && ([header] + records)[i + 1] == records[i]
  {
  }

  lemma {:induction false} ColumnAt(columns: seq<Column>, f: Column -> string, g: Column -> string, k: nat)
    requires k < |columns|
    ensures Map(f, columns)[k] == f(columns[k]) && Map(g, columns)[k] == g(columns[k])
  {
  }

  /** Hence two reports have the same export exactly when they show the same texts. */
  lemma {:induction false} ExportEqualIff(rows: seq<ReportRow>, other: seq<ReportRow>)
    ensures Export(rows) == Export(other) <==> Map(RowTexts, rows) == Map(RowTexts, other)
  {
    ExportDecodes(rows);
    ExportDecodes(other);
    var a, b := Map(RowTexts, rows), Map(RowTexts, other);
    assert ([HEADERS] + a)[1..] == a && ([HEADERS] + b)[1..] == b;
    if a == b { SameTextsSameLines(rows, other); }
  }

  lemma {:induction false} SameTextsSameLines(rows: seq<ReportRow>, other: seq<ReportRow>)
    requires Map(RowTexts, rows) == Map(RowTexts, other)
    ensures Map(RowLine, rows) == Map(RowLine, other)
  {
    var a, b := Map(RowTexts, rows), Map(RowTexts, other);
    assert |rows| == |a| == |b| == |other|;
    forall i | 0 <= i < |rows| ensures RowLine(rows[i]) == RowLine(other[i]) {
      RowIsEncoded(rows[i]);
      RowIsEncoded(other[i]);
      assert a[i] == b[i];
    }
  }
}

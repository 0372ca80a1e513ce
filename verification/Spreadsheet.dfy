/** Reading the first worksheet of a construction spreadsheet into fields, and what the table keeps of them. */
module Spreadsheet {
  import opened Options
  import opened Decimals
  import F = FactStore

  const MAX_ROWS := 5000
  const MAX_COLUMNS := 64

  const ITEM := "item_identifier"
  const DESCRIPTION := "item_description"
  const UNIT := "unit"
  const CONTRACTED := "contracted_quantity"
  const MEASURED := "measured_quantity"
  const PREVIOUS := "previous_certified_quantity"
  const CURRENT := "current_claim_quantity"
  const CUMULATIVE := "cumulative_claim_quantity"
  const CONTRACT_RATE := "contract_rate"
  const CLAIMED_RATE := "claimed_rate"

  /** A cell's text, and the exact number it can be read as. */
  datatype Cell = Missing | Value(text: string, number: Option<Decimal>)

  /** The normal form of a header cell, and which texts are item numbers. */
  datatype Reading = Reading(header: string -> string, isItem: string -> bool)

  /** A recognised column: its position, counted from one, and the kind of fact it states. */
  datatype Column = Column(index: nat, kind: string)

  datatype Content = Content(literal: string, value: Option<Decimal>, unit: Option<string>, money: bool, column: nat)

  type Field = F.Field<Content>

  const ALIASES := map[
    "item no" := ITEM, "item number" := ITEM, "item" := ITEM, "sl no" := ITEM,
    "description" := DESCRIPTION, "particulars" := DESCRIPTION,
    "quantity" := CONTRACTED, "qty" := CONTRACTED, "contracted quantity" := CONTRACTED,
    "measured quantity" := MEASURED, "measured qty" := MEASURED,
    "previous certified quantity" := PREVIOUS, "previous certified qty" := PREVIOUS, "previous quantity" := PREVIOUS,
    "current claim quantity" := CURRENT, "current quantity" := CURRENT,
    "cumulative claim quantity" := CUMULATIVE, "cumulative quantity" := CUMULATIVE, "cumulative claimed quantity" := CUMULATIVE]

  function RateFieldFor(documentType: string): string {
    if documentType == "running_bill" then CLAIMED_RATE else CONTRACT_RATE
  }

  function KindOf(header: string, rate: string): Option<string> {
    if header in {"unit", "units", "uom"} then Some(UNIT)
    else if header in {"rate", "rate (rs)", "unit rate"} then Some(rate)
    else if header in ALIASES then Some(ALIASES[header])
    else None
  }

  predicate IsMoney(kind: string) {
    kind in {CONTRACT_RATE, CLAIMED_RATE}
  }

  predicate IsValue(kind: string) {
    IsMoney(kind) || kind in {CONTRACTED, MEASURED, PREVIOUS, CURRENT, CUMULATIVE}
  }

  /** What each heading means; the rate is the claimed one on a running bill and the contracted one anywhere else. */
  lemma HeadingsMean(header: string, documentType: string)
    ensures var kind := KindOf(header, RateFieldFor(documentType));
            && (kind == Some("item_identifier") <==> header in {"item no", "item number", "item", "sl no"})
            && (kind == Some("item_description") <==> header in {"description", "particulars"})
            && (kind == Some("unit") <==> header in {"unit", "units", "uom"})
            && (kind == Some("contracted_quantity") <==> header in {"quantity", "qty", "contracted quantity"})
            && (kind == Some("measured_quantity") <==> header in {"measured quantity", "measured qty"})
            && (kind == Some("previous_certified_quantity")
                <==> header in {"previous certified quantity", "previous certified qty", "previous quantity"})
            && (kind == Some("current_claim_quantity") <==> header in {"current claim quantity", "current quantity"})
            && (kind == Some("cumulative_claim_quantity")
                <==> header in {"cumulative claim quantity", "cumulative quantity", "cumulative claimed quantity"})
            && (kind == Some("claimed_rate") <==> documentType == "running_bill" && header in {"rate", "rate (rs)", "unit rate"})
            && (kind == Some("contract_rate") <==> documentType != "running_bill" && header in {"rate", "rate (rs)", "unit rate"})
  {
  }

  /** Which columns make a header worth reading, and which of them are money. */
  lemma KindsMean(kind: string)
    ensures IsMoney(kind) <==> kind in {"contract_rate", "claimed_rate"}
    ensures IsValue(kind) <==> kind in {"contracted_quantity", "measured_quantity", "previous_certified_quantity", "current_claim_quantity",
                                        "cumulative_claim_quantity", "contract_rate", "claimed_rate"}
  {
  }

  // ---- The header ----

  function KindIn(g: Reading, rate: string, cell: Cell): Option<string> {
    if cell.Missing? then None else KindOf(g.header(cell.text), rate)
  }

  function Columns(g: Reading, rate: string, row: seq<Cell>): seq<Column> {
    if row == [] then []
    else
      var kind := KindIn(g, rate, row[|row| - 1]);
      Columns(g, rate, row[..|row| - 1]) + if kind.Some? then [Column(|row|, kind.value)] else []
  }

  predicate IsHeader(columns: seq<Column>) {
    (exists c :: c in columns && c.kind == ITEM) && (exists c :: c in columns && IsValue(c.kind))
  }

  /** The first row that names an item column and a value column. */
  function HeaderRow(g: Reading, rate: string, grid: seq<seq<Cell>>): Option<nat> {
    if grid == [] then None
    else
      var n := |grid| - 1;
      var earlier := HeaderRow(g, rate, grid[..n]);
      if earlier.Some? then earlier else if IsHeader(Columns(g, rate, grid[n])) then Some(n) else None
  }

  lemma {:induction false} HeaderRowInGrid(g: Reading, rate: string, grid: seq<seq<Cell>>)
    ensures HeaderRow(g, rate, grid).Some? ==>
              HeaderRow(g, rate, grid).value < |grid| && IsHeader(Columns(g, rate, grid[HeaderRow(g, rate, grid).value]))
  {
    if grid != [] { HeaderRowInGrid(g, rate, grid[..|grid| - 1]); }
  }

  /** The first column of a kind. */
  function ColumnOf(columns: seq<Column>, kind: string): Option<nat> {
    if columns == [] then None
    else
      var earlier := ColumnOf(columns[..|columns| - 1], kind);
      if earlier.Some? then earlier
      else if columns[|columns| - 1].kind == kind then Some(columns[|columns| - 1].index) else None
  }

  // ---- One row ----

  function CellAt(raw: seq<Cell>, index: nat): Cell {
    if 0 < index <= |raw| then raw[index - 1] else Missing
  }

  predicate IsRead(kind: string) {
    kind != ITEM && kind != UNIT
  }

  /** The cell is there, and a number where the column wants one. */
  predicate Fills(column: Column, raw: seq<Cell>) {
    var cell := CellAt(raw, column.index);
    IsRead(column.kind) && cell.Value? && (column.kind == DESCRIPTION || cell.number.Some?)
  }

  function FieldAt(column: Column, raw: seq<Cell>, unit: Option<string>, number: nat): Field
    requires Fills(column, raw)
  {
    var cell := CellAt(raw, column.index);
    F.Field(column.kind, Some(number),
            if column.kind == DESCRIPTION then Content(cell.text, None, None, false, column.index)
            else Content(cell.text, cell.number, if IsMoney(column.kind) then None else unit, IsMoney(column.kind), column.index))
  }

  function Values(columns: seq<Column>, raw: seq<Cell>, unit: Option<string>, number: nat): seq<Field> {
    if columns == [] then []
    else
      var column := columns[|columns| - 1];
      Values(columns[..|columns| - 1], raw, unit, number) + if Fills(column, raw) then [FieldAt(column, raw, unit, number)] else []
  }

  function UnitIn(columns: seq<Column>, raw: seq<Cell>): Option<string> {
    var at := ColumnOf(columns, UNIT);
    if at.Some? && CellAt(raw, at.value).Value? then Some(CellAt(raw, at.value).text) else None
  }

  predicate IsItemRow(g: Reading, columns: seq<Column>, raw: seq<Cell>) {
    var at := ColumnOf(columns, ITEM);
    at.Some? && CellAt(raw, at.value).Value? && g.isItem(CellAt(raw, at.value).text)
  }

  function ItemField(columns: seq<Column>, raw: seq<Cell>, number: nat): Field
    requires ColumnOf(columns, ITEM).Some? && CellAt(raw, ColumnOf(columns, ITEM).value).Value?
  {
    var at := ColumnOf(columns, ITEM).value;
    F.Field(ITEM, Some(number), Content(CellAt(raw, at).text, None, None, false, at))
  }

  /** A row states its item number and the values beside it; without a value it states nothing. */
  function RowFields(g: Reading, columns: seq<Column>, raw: seq<Cell>, number: nat): seq<Field> {
    if !IsItemRow(g, columns, raw) then []
    else
      var values := Values(columns, raw, UnitIn(columns, raw), number);
      if values == [] then [] else [ItemField(columns, raw, number)] + values
  }

  /** The rows of the body, numbered from `first`. */
  function BodyFields(g: Reading, columns: seq<Column>, body: seq<seq<Cell>>, first: nat): seq<Field> {
    if body == [] then []
    else
      var n := |body| - 1;
      BodyFields(g, columns, body[..n], first) + RowFields(g, columns, body[n], first + n)
  }

  function Clip<T>(s: seq<T>, limit: nat): seq<T> {
    if |s| > limit then s[..limit] else s
  }

  function Grid(sheet: seq<seq<Cell>>): seq<seq<Cell>> {
    var rows := Clip(sheet, MAX_ROWS);
    seq(|rows|, i requires 0 <= i < |rows| => Clip(rows[i], MAX_COLUMNS))
  }

  function SheetFields(g: Reading, documentType: string, sheet: seq<seq<Cell>>): seq<Field> {
    var grid, rate := Grid(sheet), RateFieldFor(documentType);
    HeaderRowInGrid(g, rate, grid);
    match HeaderRow(g, rate, grid)
    case None => []
    case Some(h) => BodyFields(g, Columns(g, rate, grid[h]), grid[h + 1..], h + 2)
  }

  // ---- The reader ----

  method FindHeader(g: Reading, rate: string, grid: seq<seq<Cell>>) returns (header: Option<nat>, columns: seq<Column>)
    ensures header == HeaderRow(g, rate, grid)
    ensures header.Some? ==> header.value < |grid| && columns == Columns(g, rate, grid[header.value])
  {
    hide IsHeader, KindIn;
    for r := 0 to |grid|
      invariant HeaderRow(g, rate, grid[..r]).None?
    {
      assert grid[..r + 1][..r] == grid[..r];
      var row := grid[r];
      columns := [];
      for c := 0 to |row|
        invariant columns == Columns(g, rate, row[..c])
      {
        assert row[..c + 1][..c] == row[..c];
        var kind := KindIn(g, rate, row[c]);
        if kind.Some? { columns := columns + [Column(c + 1, kind.value)]; }
      }
      assert row[..|row|] == row;
      if IsHeader(columns) {
        HeaderStays(g, rate, grid, r);
        return Some(r), columns;
      }
    }
    assert grid[..|grid|] == grid;
    return None, [];
  }

  lemma {:induction false} HeaderStays(g: Reading, rate: string, grid: seq<seq<Cell>>, r: nat)
    requires r < |grid| && HeaderRow(g, rate, grid[..r]).None? && IsHeader(Columns(g, rate, grid[r]))
    ensures HeaderRow(g, rate, grid) == Some(r)
  {
    var n := |grid| - 1;
    if r < n {
      assert grid[..n][..r] == grid[..r];
      HeaderStays(g, rate, grid[..n], r);
    }
  }

  method ReadRow(g: Reading, columns: seq<Column>, raw: seq<Cell>, number: nat) returns (fields: seq<Field>)
    ensures fields == RowFields(g, columns, raw, number)
  {
    hide FieldAt, Fills, UnitIn;
    if !IsItemRow(g, columns, raw) { return []; }
    var unit, item := UnitIn(columns, raw), ItemField(columns, raw, number);
    fields := [item];
    for c := 0 to |columns|
      invariant fields == [item] + Values(columns[..c], raw, unit, number)
    {
      assert columns[..c + 1][..c] == columns[..c];
      if Fills(columns[c], raw) { fields := fields + [FieldAt(columns[c], raw, unit, number)]; }
    }
    assert columns[..|columns|] == columns;
    if |fields| <= 1 { return []; }
  }

  method ReadSheet(g: Reading, documentType: string, sheet: seq<seq<Cell>>) returns (fields: seq<Field>)
    ensures fields == SheetFields(g, documentType, sheet)
  {
    hide Grid, HeaderRow, IsHeader, Columns, RowFields, RateFieldFor;
    var grid := Grid(sheet);
    var header, columns := FindHeader(g, RateFieldFor(documentType), grid);
    if header.None? { return []; }
    var body, first := grid[header.value + 1..], header.value + 2;
    fields := [];
    for r := 0 to |body|
      invariant fields == BodyFields(g, columns, body[..r], first)
    {
      assert body[..r + 1][..r] == body[..r];
      var row := ReadRow(g, columns, body[r], first + r);
      fields := fields + row;
    }
    assert body[..|body|] == body;
  }

  // ---- Which fields there are ----

  ghost predicate Ascending(columns: seq<Column>) {
    forall i, j :: 0 <= i < j < |columns| ==> columns[i].index < columns[j].index
  }

  lemma {:induction false} ColumnsAscend(g: Reading, rate: string, row: seq<Cell>)
    ensures Ascending(Columns(g, rate, row))
    ensures forall c :: c in Columns(g, rate, row) ==> 0 < c.index <= |row|
  {
    if row != [] { ColumnsAscend(g, rate, row[..|row| - 1]); }
  }

  lemma {:induction false} ColumnOfIsThere(columns: seq<Column>, kind: string)
    ensures ColumnOf(columns, kind).Some? <==> exists c :: c in columns && c.kind == kind
    ensures ColumnOf(columns, kind).Some? ==> Column(ColumnOf(columns, kind).value, kind) in columns
  {
    if columns != [] {
      ColumnOfIsThere(columns[..|columns| - 1], kind);
      assert columns == columns[..|columns| - 1] + [columns[|columns| - 1]];
    }
  }

  lemma {:induction false} ValuesExact(columns: seq<Column>, raw: seq<Cell>, unit: Option<string>, number: nat, field: Field)
    ensures field in Values(columns, raw, unit, number)
            <==> exists c :: c in columns && Fills(c, raw) && field == FieldAt(c, raw, unit, number)
  {
    hide Fills, FieldAt;
    if columns != [] {
      ValuesExact(columns[..|columns| - 1], raw, unit, number, field);
      assert columns == columns[..|columns| - 1] + [columns[|columns| - 1]];
    }
  }

  /** Two filled cells of one row are read as the same kind of fact. */
  ghost predicate Clash(columns: seq<Column>, raw: seq<Cell>) {
    exists a, b :: a in columns && b in columns && a != b && a.kind == b.kind && Fills(a, raw) && Fills(b, raw)
  }

  lemma {:induction false} BodyFieldsExact(g: Reading, columns: seq<Column>, body: seq<seq<Cell>>, first: nat, field: Field)
    ensures field in BodyFields(g, columns, body, first)
            <==> exists r: nat :: r < |body| && field in RowFields(g, columns, body[r], first + r)
  {
    hide RowFields;
    if body != [] {
      var n := |body| - 1;
      BodyFieldsExact(g, columns, body[..n], first, field);
      if r: nat :| r < n && field in RowFields(g, columns, body[..n][r], first + r) {
        assert field in RowFields(g, columns, body[r], first + r);
      }
      if r: nat :| r < |body| && field in RowFields(g, columns, body[r], first + r) && r < n {
        assert field in RowFields(g, columns, body[..n][r], first + r);
      }
    }
  }

  /** Two fields compete for one row of the table. */
  ghost predicate Compete(fields: seq<Field>, f: Field, h: Field) {
    f in fields && h in fields && f.name == h.name && f.sheetRow == h.sheetRow && f.content != h.content
  }

  ghost predicate SomeCompete(fields: seq<Field>) {
    exists f, h :: Compete(fields, f, h)
  }

  /** Fields of a row carry its number, and those of a kind other than the item's come from a filled cell. */
  lemma RowFieldsExact(g: Reading, columns: seq<Column>, raw: seq<Cell>, number: nat, field: Field)
    ensures field in RowFields(g, columns, raw, number)
            <==> && IsItemRow(g, columns, raw)
                 && Values(columns, raw, UnitIn(columns, raw), number) != []
                 && (field == ItemField(columns, raw, number)
                     || exists c :: c in columns && Fills(c, raw) && field == FieldAt(c, raw, UnitIn(columns, raw), number))
  {
    hide Fills, FieldAt, UnitIn, Values, ItemField;
    if IsItemRow(g, columns, raw) { ValuesExact(columns, raw, UnitIn(columns, raw), number, field); }
  }

  lemma RowCompetesIff(g: Reading, columns: seq<Column>, raw: seq<Cell>, number: nat)
    requires Ascending(columns)
    ensures SomeCompete(RowFields(g, columns, raw, number)) <==> IsItemRow(g, columns, raw) && Clash(columns, raw)
  {
    var fields, unit := RowFields(g, columns, raw, number), UnitIn(columns, raw);
    if f, h :| Compete(fields, f, h) {
      RowFieldsExact(g, columns, raw, number, f);
      RowFieldsExact(g, columns, raw, number, h);
      var a :| a in columns && Fills(a, raw) && f == FieldAt(a, raw, unit, number);
      var b :| b in columns && Fills(b, raw) && h == FieldAt(b, raw, unit, number);
      assert a != b && a.kind == b.kind;
    }
    if IsItemRow(g, columns, raw) && Clash(columns, raw) {
      var a, b :| a in columns && b in columns && a != b && a.kind == b.kind && Fills(a, raw) && Fills(b, raw);
      var f, h := FieldAt(a, raw, unit, number), FieldAt(b, raw, unit, number);
      DifferentColumns(columns, a, b);
      ValuesExact(columns, raw, unit, number, f);
      RowFieldsExact(g, columns, raw, number, f);
      RowFieldsExact(g, columns, raw, number, h);
      assert Compete(fields, f, h);
    }
  }

  lemma DifferentColumns(columns: seq<Column>, a: Column, b: Column)
    requires Ascending(columns) && a in columns && b in columns && a != b
    ensures a.index != b.index
  {
    var i :| 0 <= i < |columns| && columns[i] == a;
    var j :| 0 <= j < |columns| && columns[j] == b;
  }

  lemma RowFieldsAreNumbered(g: Reading, columns: seq<Column>, raw: seq<Cell>, number: nat, field: Field)
    requires field in RowFields(g, columns, raw, number)
    ensures field.sheetRow == Some(number)
  {
    RowFieldsExact(g, columns, raw, number, field);
  }

  lemma BodyCompetesIff(g: Reading, columns: seq<Column>, body: seq<seq<Cell>>, first: nat)
    requires Ascending(columns)
    ensures SomeCompete(BodyFields(g, columns, body, first))
            <==> exists r :: 0 <= r < |body| && IsItemRow(g, columns, body[r]) && Clash(columns, body[r])
  {
    hide RowFields, IsItemRow, Clash, Ascending;
    var fields := BodyFields(g, columns, body, first);
    if f, h :| Compete(fields, f, h) {
      BodyFieldsExact(g, columns, body, first, f);
      BodyFieldsExact(g, columns, body, first, h);
      var r: nat :| r < |body| && f in RowFields(g, columns, body[r], first + r);
      var q: nat :| q < |body| && h in RowFields(g, columns, body[q], first + q);
      RowFieldsAreNumbered(g, columns, body[r], first + r, f);
      RowFieldsAreNumbered(g, columns, body[q], first + q, h);
      assert Compete(RowFields(g, columns, body[r], first + r), f, h);
      RowCompetesIff(g, columns, body[r], first + r);
    }
    if r :| 0 <= r < |body| && IsItemRow(g, columns, body[r]) && Clash(columns, body[r]) {
      RowCompetesIff(g, columns, body[r], first + r);
      var f, h :| Compete(RowFields(g, columns, body[r], first + r), f, h);
      BodyFieldsExact(g, columns, body, first, f);
      BodyFieldsExact(g, columns, body, first, h);
      assert Compete(fields, f, h);
    }
  }

  // ---- What a sheet states, in the columns of its fields ----

  /** A row names an item column, and a column of a quantity or a rate. */
  ghost predicate NamesColumns(g: Reading, rate: string, row: seq<Cell>) {
    && (exists i: nat :: i < |row| && KindIn(g, rate, row[i]) == Some("item_identifier"))
    && (exists i: nat :: i < |row| && KindIn(g, rate, row[i]).Some?
                         && KindIn(g, rate, row[i]).value in {"contracted_quantity", "measured_quantity", "previous_certified_quantity",
                                                              "current_claim_quantity", "cumulative_claim_quantity", "contract_rate", "claimed_rate"})
  }

  lemma {:induction false} ColumnsExact(g: Reading, rate: string, row: seq<Cell>, c: Column)
    ensures c in Columns(g, rate, row) <==> 0 < c.index <= |row| && KindIn(g, rate, row[c.index - 1]) == Some(c.kind)
  {
    hide KindIn;
    if row != [] {
      var n := |row| - 1;
      ColumnsExact(g, rate, row[..n], c);
      assert 0 < c.index <= n ==> row[..n][c.index - 1] == row[c.index - 1];
    }
  }

  lemma IsHeaderIff(g: Reading, rate: string, row: seq<Cell>)
    ensures IsHeader(Columns(g, rate, row)) <==> NamesColumns(g, rate, row)
  {
    hide KindIn, Columns;
    var columns := Columns(g, rate, row);
    forall c { ColumnsExact(g, rate, row, c); }
    forall kind { KindsMean(kind); }
    hide IsValue;
    forall i: nat | i < |row| && KindIn(g, rate, row[i]).Some? ensures Column(i + 1, KindIn(g, rate, row[i]).value) in columns {
      ColumnsExact(g, rate, row, Column(i + 1, KindIn(g, rate, row[i]).value));
    }
    if NamesColumns(g, rate, row) {
      var i: nat :| i < |row| && KindIn(g, rate, row[i]) == Some("item_identifier");
      assert Column(i + 1, ITEM) in columns;
    }
    if IsHeader(columns) {
      var c :| c in columns && c.kind == ITEM;
      assert KindIn(g, rate, row[c.index - 1]) == Some("item_identifier");
      var v :| v in columns && IsValue(v.kind);
      assert KindIn(g, rate, row[v.index - 1]) == Some(v.kind);
    }
  }

  /** The header is the first row that names columns so. */
  lemma {:induction false} HeaderIsFirst(g: Reading, rate: string, grid: seq<seq<Cell>>)
    ensures match HeaderRow(g, rate, grid)
            case None => forall r :: 0 <= r < |grid| ==> !NamesColumns(g, rate, grid[r])
            case Some(h) => h < |grid| && NamesColumns(g, rate, grid[h]) && forall r :: 0 <= r < h ==> !NamesColumns(g, rate, grid[r])
  {
    hide NamesColumns, IsHeader, Columns;
    if grid != [] {
      var n := |grid| - 1;
      HeaderIsFirst(g, rate, grid[..n]);
      IsHeaderIff(g, rate, grid[n]);
      assert forall r :: 0 <= r < n ==> grid[..n][r] == grid[r];
    }
  }

  /** The first column of the kind. */
  ghost predicate IsFirstColumn(columns: seq<Column>, kind: string, index: nat) {
    exists i :: 0 <= i < |columns| && columns[i] == Column(index, kind) && forall j :: 0 <= j < i ==> columns[j].kind != kind
  }

  lemma {:induction false} ColumnOfIsFirst(columns: seq<Column>, kind: string)
    ensures match ColumnOf(columns, kind)
            case None => forall c :: c in columns ==> c.kind != kind
            case Some(index) => IsFirstColumn(columns, kind, index)
  {
    if columns != [] {
      var n := |columns| - 1;
      ColumnOfIsFirst(columns[..n], kind);
      assert columns == columns[..n] + [columns[n]];
      if ColumnOf(columns[..n], kind).Some? {
        var index := ColumnOf(columns, kind).value;
        var i :| 0 <= i < n && columns[..n][i] == Column(index, kind) && forall j :: 0 <= j < i ==> columns[..n][j].kind != kind;
        assert columns[i] == Column(index, kind) && forall j :: 0 <= j < i ==> columns[j].kind != kind;
      }
    }
  }

  ghost predicate Prints(raw: seq<Cell>, index: nat, text: string) {
    0 < index <= |raw| && raw[index - 1].Value? && raw[index - 1].text == text
  }

  /** A cell beside the item number states this: a description in words, anything else as a number, in the row's unit
      unless it is money. */
  ghost predicate IsCellOf(columns: seq<Column>, raw: seq<Cell>, number: nat, field: Field) {
    var content := field.content;
    && Column(content.column, field.name) in columns && field.name !in {"item_identifier", "unit"}
    && field.sheetRow == Some(number) && Prints(raw, content.column, content.literal)
    && (if field.name == "item_description" then content.value == None && content.unit == None && !content.money
        else
          && content.value.Some? && raw[content.column - 1].number == content.value
          && (content.money <==> field.name in {"contract_rate", "claimed_rate"})
          && content.unit == if content.money then None else UnitIn(columns, raw))
  }

  /** The unit of a row is what stands in its first unit column, if anything does. */
  lemma UnitMeans(columns: seq<Column>, raw: seq<Cell>)
    ensures match UnitIn(columns, raw)
            case Some(unit) => exists index :: IsFirstColumn(columns, "unit", index) && Prints(raw, index, unit)
            case None => forall index, unit :: IsFirstColumn(columns, "unit", index) ==> !Prints(raw, index, unit)
  {
    ColumnOfIsFirst(columns, UNIT);
    forall a, b | IsFirstColumn(columns, "unit", a) && IsFirstColumn(columns, "unit", b) ensures a == b { OneFirstColumn(columns, "unit", a, b); }
    if ColumnOf(columns, UNIT).Some? { assert IsFirstColumn(columns, "unit", ColumnOf(columns, UNIT).value); }
  }

  lemma OneFirstColumn(columns: seq<Column>, kind: string, a: nat, b: nat)
    requires IsFirstColumn(columns, kind, a) && IsFirstColumn(columns, kind, b)
    ensures a == b
  {
    var i :| 0 <= i < |columns| && columns[i] == Column(a, kind) && forall j :: 0 <= j < i ==> columns[j].kind != kind;
    var j :| 0 <= j < |columns| && columns[j] == Column(b, kind) && forall k :: 0 <= k < j ==> columns[k].kind != kind;
    assert i == j;
  }

  lemma CellOfIff(columns: seq<Column>, raw: seq<Cell>, number: nat, field: Field)
    ensures IsCellOf(columns, raw, number, field)
            <==> exists c :: c in columns && Fills(c, raw) && field == FieldAt(c, raw, UnitIn(columns, raw), number)
  {
    hide UnitIn;
    var c := Column(field.content.column, field.name);
    if IsCellOf(columns, raw, number, field) {
      assert c in columns && Fills(c, raw);
      assert field == FieldAt(c, raw, UnitIn(columns, raw), number);
    }
  }

  ghost predicate IsNumberedBy(g: Reading, columns: seq<Column>, raw: seq<Cell>, at: nat, item: string) {
    IsFirstColumn(columns, "item_identifier", at) && Prints(raw, at, item) && g.isItem(item)
  }

  lemma ItemRowIff(g: Reading, columns: seq<Column>, raw: seq<Cell>, number: nat)
    ensures IsItemRow(g, columns, raw) <==> exists at, item :: IsNumberedBy(g, columns, raw, at, item)
    ensures IsItemRow(g, columns, raw) ==>
              forall at, item :: IsNumberedBy(g, columns, raw, at, item) ==>
                ItemField(columns, raw, number) == F.Field("item_identifier", Some(number), Content(item, None, None, false, at))
  {
    hide IsFirstColumn;
    ColumnOfIsFirst(columns, ITEM);
    NoFirstColumn(columns, ITEM);
    forall a, b | IsFirstColumn(columns, ITEM, a) && IsFirstColumn(columns, ITEM, b) ensures a == b { OneFirstColumn(columns, ITEM, a, b); }
    if IsItemRow(g, columns, raw) {
      var at := ColumnOf(columns, ITEM).value;
      assert IsNumberedBy(g, columns, raw, at, CellAt(raw, at).text);
    }
  }

  /** A row states its item number, which has to look like one, and what the cells beside it state; alone it states
      nothing. */
  lemma RowMeans(g: Reading, columns: seq<Column>, raw: seq<Cell>, number: nat, field: Field)
    ensures field in RowFields(g, columns, raw, number)
            <==> exists at, item :: IsNumberedBy(g, columns, raw, at, item)
                   && (exists cell :: IsCellOf(columns, raw, number, cell))
                   && (IsCellOf(columns, raw, number, field)
                       || field == F.Field("item_identifier", Some(number), Content(item, None, None, false, at)))
  {
    hide UnitIn, Fills, FieldAt, Values, IsCellOf, IsNumberedBy, IsItemRow, ItemField, RowFields;
    RowFieldsExact(g, columns, raw, number, field);
    forall f { CellOfIff(columns, raw, number, f); }
    ItemRowIff(g, columns, raw, number);
    var values := Values(columns, raw, UnitIn(columns, raw), number);
    forall f { ValuesExact(columns, raw, UnitIn(columns, raw), number, f); }
    assert values != [] <==> exists cell :: IsCellOf(columns, raw, number, cell) by {
      if values != [] { assert values[0] in values && IsCellOf(columns, raw, number, values[0]); }
      if cell :| IsCellOf(columns, raw, number, cell) { assert cell in values; }
    }
  }

  lemma NoFirstColumn(columns: seq<Column>, kind: string)
    ensures (forall c :: c in columns ==> c.kind != kind) ==> forall index :: !IsFirstColumn(columns, kind, index)
  {
  }

  /** A sheet states what the rows below its header do, each numbered as the sheet numbers it, counting from one; the
      sheet and its rows are read to their limits. */
  lemma SheetMeans(g: Reading, documentType: string, sheet: seq<seq<Cell>>, field: Field)
    ensures var grid, rate := Grid(sheet), RateFieldFor(documentType);
            && |grid| == (if |sheet| > 5000 then 5000 else |sheet|)
            && (forall r :: 0 <= r < |grid| ==> grid[r] == if |sheet[r]| > 64 then sheet[r][..64] else sheet[r])
            && (field in SheetFields(g, documentType, sheet)
                <==> HeaderRow(g, rate, grid).Some?
                     && exists r :: HeaderRow(g, rate, grid).value < r < |grid|
                          && field in RowFields(g, Columns(g, rate, grid[HeaderRow(g, rate, grid).value]), grid[r], r + 1))
  {
    hide RowFields, Columns, HeaderRow, IsHeader, Grid, BodyFields;
    var grid, rate := Grid(sheet), RateFieldFor(documentType);
    GridMeans(sheet);
    HeaderRowInGrid(g, rate, grid);
    if HeaderRow(g, rate, grid).Some? {
      var h := HeaderRow(g, rate, grid).value;
      BodyMeans(g, Columns(g, rate, grid[h]), grid, h, field);
    }
  }

  lemma GridMeans(sheet: seq<seq<Cell>>)
    ensures var grid := Grid(sheet);
            && |grid| == (if |sheet| > 5000 then 5000 else |sheet|)
            && forall r :: 0 <= r < |grid| ==> grid[r] == if |sheet[r]| > 64 then sheet[r][..64] else sheet[r]
  {
  }

  lemma BodyMeans(g: Reading, columns: seq<Column>, grid: seq<seq<Cell>>, h: nat, field: Field)
    requires h < |grid|
    ensures field in BodyFields(g, columns, grid[h + 1..], h + 2)
            <==> exists r :: h < r < |grid| && field in RowFields(g, columns, grid[r], r + 1)
  {
    hide RowFields;
    var body := grid[h + 1..];
    BodyFieldsExact(g, columns, body, h + 2, field);
    if r: nat :| r < |body| && field in RowFields(g, columns, body[r], h + 2 + r) {
      assert field in RowFields(g, columns, grid[h + 1 + r], h + 1 + r + 1);
    }
    if r :| h < r < |grid| && field in RowFields(g, columns, grid[r], r + 1) {
      assert field in RowFields(g, columns, body[r - h - 1], h + 2 + (r - h - 1));
    }
  }

  // ---- What the table keeps ----

  ghost predicate AllStored(facts: F.Facts<Content>, document: F.Id, fields: seq<Field>, extractor: string, version: string) {
    forall i :: 0 <= i < |fields| ==> F.IsStored(F.WriteAll(facts, document, fields, extractor, version), document, version, fields[i])
  }

  lemma AllStoredIffNoneCompete(facts: F.Facts<Content>, document: F.Id, fields: seq<Field>, extractor: string, version: string)
    ensures AllStored(facts, document, fields, extractor, version) <==> !SomeCompete(fields)
  {
    F.NoFieldLostIff(facts, document, fields, extractor, version);
    if f, h :| Compete(fields, f, h) {
      var i :| 0 <= i < |fields| && fields[i] == f;
      var j :| 0 <= j < |fields| && fields[j] == h;
    }
    forall i, j | 0 <= i < j < |fields| && fields[i].name == fields[j].name && fields[i].sheetRow == fields[j].sheetRow
      ensures fields[i].content == fields[j].content || Compete(fields, fields[i], fields[j])
    {
    }
  }

  /** Everything read from a sheet is in the table afterwards exactly when no item row fills two columns of one
      kind: the key of a fact has no column, and the later one overwrites the earlier. */
  lemma NoCellLostIff(g: Reading, columns: seq<Column>, body: seq<seq<Cell>>, first: nat,
                      facts: F.Facts<Content>, document: F.Id, extractor: string, version: string)
    requires Ascending(columns)
    ensures AllStored(facts, document, BodyFields(g, columns, body, first), extractor, version)
            <==> forall r :: 0 <= r < |body| && IsItemRow(g, columns, body[r]) ==> !Clash(columns, body[r])
  {
    AllStoredIffNoneCompete(facts, document, BodyFields(g, columns, body, first), extractor, version);
    BodyCompetesIff(g, columns, body, first);
  }

  ghost predicate KindsRepeat(columns: seq<Column>) {
    exists a, b :: a in columns && b in columns && a != b && a.kind == b.kind && IsRead(a.kind)
  }

  /** Whatever stands below it, a header loses nothing exactly when no two of its columns that are read mean
      the same kind of fact. */
  lemma HeaderLosesNothingIff(g: Reading, rate: string, header: seq<Cell>, first: nat,
                              facts: F.Facts<Content>, document: F.Id, extractor: string, version: string, item: string)
    requires IsHeader(Columns(g, rate, header)) && g.isItem(item)
    ensures (forall body :: AllStored(facts, document, BodyFields(g, Columns(g, rate, header), body, first), extractor, version))
            <==> !KindsRepeat(Columns(g, rate, header))
  {
    hide AllStored, IsItemRow, Columns, IsHeader, Clash, KindsRepeat, BodyFields;
    var columns := Columns(g, rate, header);
    ColumnsAscend(g, rate, header);
    if KindsRepeat(columns) {
      var full := seq(|header|, i => Value(item, Some(Decimal(1, 0))));
      FullRow(g, columns, |header|, item);
      NoCellLostIff(g, columns, [full], first, facts, document, extractor, version);
      assert IsItemRow(g, columns, [full][0]) && Clash(columns, [full][0]);
    } else {
      forall body ensures AllStored(facts, document, BodyFields(g, columns, body, first), extractor, version) {
        NoCellLostIff(g, columns, body, first, facts, document, extractor, version);
        forall raw ensures !Clash(columns, raw) { ClashNeedsRepeat(columns, raw); }
      }
    }
  }

  lemma ClashNeedsRepeat(columns: seq<Column>, raw: seq<Cell>)
    ensures Clash(columns, raw) ==> KindsRepeat(columns)
  {
  }

  lemma FullRow(g: Reading, columns: seq<Column>, width: nat, item: string)
    requires g.isItem(item) && IsHeader(columns) && forall c :: c in columns ==> 0 < c.index <= width
    ensures var full := seq(width, i => Value(item, Some(Decimal(1, 0))));
            IsItemRow(g, columns, full) && (KindsRepeat(columns) ==> Clash(columns, full))
  {
    var full := seq(width, i => Value(item, Some(Decimal(1, 0))));
    ColumnOfIsThere(columns, ITEM);
    forall c | c in columns ensures CellAt(full, c.index) == Value(item, Some(Decimal(1, 0))) { }
    if a, b :| a in columns && b in columns && a != b && a.kind == b.kind && IsRead(a.kind) {
      assert Fills(a, full) && Fills(b, full);
    }
  }

  // ---- At an input that loses a cell ----

  const HEADINGS := [Value("item no", None), Value("qty", None), Value("quantity", None)]

  const LINE := [Value("1", Some(Decimal(1, 0))), Value("10", Some(Decimal(10, 0))), Value("20", Some(Decimal(20, 0)))]

  function Stated(column: nat, literal: string, value: Option<Decimal>, name: string): Field {
    F.Field(name, Some(2), Content(literal, value, None, false, column))
  }

  lemma HeadingsAreColumns(g: Reading, rate: string)
    requires g.header("item no") == "item no" && g.header("qty") == "qty" && g.header("quantity") == "quantity"
    ensures Columns(g, rate, HEADINGS) == [Column(1, ITEM), Column(2, CONTRACTED), Column(3, CONTRACTED)]
  {
    hide KindOf;
    NamesAreKnown(rate);
    var none: seq<Cell> := [];
    assert HEADINGS[..2][..1] == HEADINGS[..1] && HEADINGS[..1][..0] == none && HEADINGS[..3] == HEADINGS;
    assert Columns(g, rate, none) == [];
    assert Columns(g, rate, HEADINGS[..1]) == [Column(1, ITEM)];
    assert Columns(g, rate, HEADINGS[..2]) == [Column(1, ITEM), Column(2, CONTRACTED)];
  }

  lemma NamesAreKnown(rate: string)
    ensures KindOf("item no", rate) == Some(ITEM)
    ensures KindOf("qty", rate) == Some(CONTRACTED) == KindOf("quantity", rate)
  {
  }

  lemma LineFields(g: Reading, columns: seq<Column>)
    requires columns == [Column(1, ITEM), Column(2, CONTRACTED), Column(3, CONTRACTED)] && g.isItem("1")
    ensures RowFields(g, columns, LINE, 2)
            == [Stated(1, "1", None, ITEM), Stated(2, "10", Some(Decimal(10, 0)), CONTRACTED), Stated(3, "20", Some(Decimal(20, 0)), CONTRACTED)]
  {
    var none: seq<Column> := [];
    var one, two := [Column(1, ITEM)], [Column(1, ITEM), Column(2, CONTRACTED)];
    assert columns[..2] == two && two[..1] == one && one[..0] == none;
    assert ColumnOf(none, ITEM).None? && ColumnOf(one, ITEM) == Some(1) && ColumnOf(two, ITEM) == Some(1) && ColumnOf(columns, ITEM) == Some(1);
    assert ColumnOf(none, UNIT).None? && ColumnOf(one, UNIT).None? && ColumnOf(two, UNIT).None? && ColumnOf(columns, UNIT).None?;
    assert Values(none, LINE, None, 2) == [] && Values(one, LINE, None, 2) == [];
    assert Values(two, LINE, None, 2) == [Stated(2, "10", Some(Decimal(10, 0)), CONTRACTED)];
  }

  /** A sheet headed Qty and Quantity: both mean the contracted quantity, and of a row stating 10 and 20 the
      table keeps 20. */
  lemma QuantityTwice(g: Reading, facts: F.Facts<Content>, document: F.Id, extractor: string, version: string)
    requires g.header("item no") == "item no" && g.header("qty") == "qty" && g.header("quantity") == "quantity" && g.isItem("1")
    ensures var fields := BodyFields(g, Columns(g, CONTRACT_RATE, HEADINGS), [LINE], 2);
            var key := F.Key(document, CONTRACTED, version, Some(2));
            var after := F.WriteAll(facts, document, fields, extractor, version);
            && Stated(2, "10", Some(Decimal(10, 0)), CONTRACTED) in fields
            && key in after.rows && after.rows[key].content == Stated(3, "20", Some(Decimal(20, 0)), CONTRACTED).content
  {
    hide RowFields, Columns;
    HeadingsAreColumns(g, CONTRACT_RATE);
    var columns := Columns(g, CONTRACT_RATE, HEADINGS);
    LineFields(g, columns);
    var fields := RowFields(g, columns, LINE, 2);
    var body := [LINE];
    assert body[..0] == [] && BodyFields(g, columns, [], 2) == [];
    assert BodyFields(g, columns, body, 2) == fields;
    assert fields[1] in fields;
  }
}

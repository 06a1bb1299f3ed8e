/** From CSV fields to typed records, and so from CSV text to a loaded table. */
module TableParsing {
  import opened Options
  import opened Bags
  import opened Bits
  import opened Pages
  import opened StringPages
  import opened Scan
  import opened Relations
  import opened Filters
  import opened Loader
  import opened InnerTables
  import Csv = CsvSpec
  import opened CsvProperties
  import opened CsvRecords
  import opened CsvQuoting

  /** stoi, cut to 32 bits; None stands for its exceptions. */
  type Stoi = string -> Option<I32>

  /** The dialect in which the loader reads its files. */
  const LOADER := Csv.Config('\\', ',', false)

  /** The characters of a field are bytes. */
  function Bytes(text: string): Str {
    seq(|text|, (i: int) requires 0 <= i < |text| => text[i] as int % 0x100)
  }

  /** The value of a field.  An empty field is null, quoted or not; None stands for the exception. */
  function FieldDatum(dtype: DataType, stoi: Stoi, text: string): Option<Datum> {
    if text == [] then Some(Null)
    else match dtype
      case INT32 => if stoi(text).Some? then Some(Int(stoi(text).value)) else None
      case VARCHAR => Some(Text(Bytes(text)))
  }

  /** What TableParser has made of the fields so far: the record being read, and the records passed on. */
  datatype Progress = Progress(last: Row, records: seq<Row>)

  datatype Schema = Schema(types: seq<DataType>, header: bool, stoi: Stoi)

  /** What one more on_field call does.  None stands for the exception, and for a field or a record that does not fit
      the table's columns, where the program would leave its vectors. */
  function Taken(schema: Schema, p: Progress, f: Csv.Field): Option<Progress> {
    if schema.header && f.row == 0 then Some(p)
    else if f.col >= |schema.types| then None
    else
      var d := FieldDatum(schema.types[f.col], schema.stoi, f.text);
      if d == None then None
      else if f.col + 1 < |schema.types| then Some(p.(last := p.last + [d.value]))
      else if |p.last| + 1 == |schema.types| then
        Some(Progress([], p.records + [KeptRecord(schema.types, p.last + [d.value])]))
      else None
  }

  function TakenAll(schema: Schema, calls: seq<Csv.Field>): Option<Progress> {
    if calls == [] then Some(Progress([], [])) else
      var p := TakenAll(schema, calls[..|calls| - 1]);
      if p == None then None else Taken(schema, p.value, calls[|calls| - 1])
  }

  lemma TakenNext(schema: Schema, calls: seq<Csv.Field>, f: Csv.Field)
    ensures TakenAll(schema, calls + [f]) ==
      var p := TakenAll(schema, calls); if p == None then None else Taken(schema, p.value, f)
  {
    assert (calls + [f])[..|calls + [f]| - 1] == calls;
  }

  lemma {:induction false} TakenFails(schema: Schema, calls: seq<Csv.Field>, n: nat)
    requires n <= |calls| && TakenAll(schema, calls[..n]) == None
    ensures TakenAll(schema, calls) == None
    decreases |calls|
  {
    if n < |calls| {
      assert calls[..|calls| - 1][..n] == calls[..n];
      TakenFails(schema, calls[..|calls| - 1], n);
    } else {
      assert calls[..n] == calls;
    }
  }

  // What the records are.

  predicate CellsParse(schema: Schema, cells: seq<Cell>) {
    |cells| <= |schema.types| && forall c :: 0 <= c < |cells| ==>
      FieldDatum(schema.types[c], schema.stoi, cells[c].text).Some?
  }

  function TypedRow(schema: Schema, cells: seq<Cell>): Row
    requires CellsParse(schema, cells)
  {
    seq(|cells|, (c: int) requires 0 <= c < |cells| => FieldDatum(schema.types[c], schema.stoi, cells[c].text).value)
  }

  /** The lines that are records: all, or all but the first. */
  function Body(schema: Schema, lines: seq<Record>): seq<Record> {
    if schema.header && lines != [] then lines[1..] else lines
  }

  predicate AllParse(schema: Schema, lines: seq<Record>) {
    forall r :: 0 <= r < |lines| ==> CellsParse(schema, lines[r].cells)
  }

  function TypedRows(schema: Schema, lines: seq<Record>): seq<Row>
    requires AllParse(schema, lines)
  {
    seq(|lines|, (r: int) requires 0 <= r < |lines| => TypedRow(schema, lines[r].cells))
  }

  /** What k fields of a line make of the records before it. */
  function AfterFields(schema: Schema, records: seq<Row>, row: nat, cells: seq<Cell>, k: nat): Option<Progress>
    requires k <= |cells|
  {
    if schema.header && row == 0 then Some(Progress([], records))
    else if !CellsParse(schema, cells[..k]) then None
    else if 0 < k == |schema.types| then Some(Progress([], records + [TypedRow(schema, cells[..k])]))
    else Some(Progress(TypedRow(schema, cells[..k]), records))
  }

  lemma CellsParseNext(schema: Schema, cells: seq<Cell>, k: nat)
    requires 0 < k <= |cells| && k <= |schema.types|
    ensures CellsParse(schema, cells[..k]) <==>
      CellsParse(schema, cells[..k - 1]) && FieldDatum(schema.types[k - 1], schema.stoi, cells[k - 1].text).Some?
    ensures CellsParse(schema, cells[..k]) ==>
      TypedRow(schema, cells[..k]) ==
        TypedRow(schema, cells[..k - 1]) + [FieldDatum(schema.types[k - 1], schema.stoi, cells[k - 1].text).value]
  {
    hide FieldDatum;
    var a, b := cells[..k - 1], cells[..k];
    assert forall c :: 0 <= c < k - 1 ==> a[c] == b[c] == cells[c];
    assert b[k - 1] == cells[k - 1];
  }

  lemma AfterFieldsNext(schema: Schema, records: seq<Row>, row: nat, cells: seq<Cell>, k: nat)
    requires 0 < k <= |cells| && k <= |schema.types|
    ensures AfterFields(schema, records, row, cells, k) ==
      var p := AfterFields(schema, records, row, cells, k - 1);
      if p == None then None else Taken(schema, p.value, Csv.Field(k - 1, row, cells[k - 1].text))
  {
    CellsParseNext(schema, cells, k);
    if k == |schema.types| && CellsParse(schema, cells[..k]) { TypedIsKept(schema, cells[..k]); }
    hide FieldDatum, CellsParse, KeptRecord;
  }

  /** Fields that were read by their column's type are kept. */
  lemma TypedIsKept(schema: Schema, cells: seq<Cell>)
    requires CellsParse(schema, cells) && |cells| == |schema.types|
    ensures KeptRecord(schema.types, TypedRow(schema, cells)) == TypedRow(schema, cells)
  {
  }

  lemma {:induction false} OnLine(schema: Schema, before: seq<Csv.Field>, records: seq<Row>, row: nat, cells: seq<Cell>,
                                  k: nat)
    requires k <= |cells| && k <= |schema.types| && TakenAll(schema, before) == Some(Progress([], records))
    ensures TakenAll(schema, before + RowFields(row, cells[..k])) == AfterFields(schema, records, row, cells, k)
  {
    hide TakenAll, Taken, RowFields, FieldDatum;
    LineFields(before, row, cells, k);
    if k == 0 {
      assert TypedRow(schema, cells[..0]) == [];
    } else {
      hide AfterFields;
      OnLine(schema, before, records, row, cells, k - 1);
      AfterFieldsNext(schema, records, row, cells, k);
      TakenNext(schema, before + RowFields(row, cells[..k - 1]), Csv.Field(k - 1, row, cells[k - 1].text));
    }
  }

  lemma LineFields(before: seq<Csv.Field>, row: nat, cells: seq<Cell>, k: nat)
    requires k <= |cells|
    ensures k == 0 ==> before + RowFields(row, cells[..k]) == before
    ensures k > 0 ==>
      before + RowFields(row, cells[..k]) ==
        before + RowFields(row, cells[..k - 1]) + [Csv.Field(k - 1, row, cells[k - 1].text)]
  {
  }

  lemma OnWholeLine(schema: Schema, before: seq<Csv.Field>, records: seq<Row>, row: nat, cells: seq<Cell>)
    requires |cells| == |schema.types| > 0 && TakenAll(schema, before) == Some(Progress([], records))
    ensures TakenAll(schema, before + RowFields(row, cells)) ==
      if schema.header && row == 0 then Some(Progress([], records))
      else if CellsParse(schema, cells) then Some(Progress([], records + [TypedRow(schema, cells)])) else None
  {
    hide TakenAll, RowFields, CellsParse, TypedRow;
    OnLine(schema, before, records, row, cells, |cells|);
    assert cells[..|cells|] == cells;
  }

  /** Lines of the right width become records, one each, unless a field cannot be read. */
  lemma {:induction false} OnLines(schema: Schema, lines: seq<Record>)
    requires schema.types != [] && forall r :: 0 <= r < |lines| ==> |lines[r].cells| == |schema.types|
    ensures TakenAll(schema, AllFields(lines)) ==
      if AllParse(schema, Body(schema, lines)) then Some(Progress([], TypedRows(schema, Body(schema, lines)))) else None
  {
    hide CellsParse, TypedRow, TakenAll, Body, RowFields, AllFields, AllParse, TypedRows;
    NoLines(schema);
    if lines != [] {
      var before, n := lines[..|lines| - 1], |lines| - 1;
      var cells := lines[n].cells;
      OnLines(schema, before);
      BodyNext(schema, lines);
      var body, body' := Body(schema, before), Body(schema, lines);
      LastLineFields(lines);
      TypedRowsNext(schema, body, lines[n]);
      if AllParse(schema, body) {
        OnWholeLine(schema, AllFields(before), TypedRows(schema, body), n, cells);
      } else {
        TakenFails(schema, AllFields(lines), |AllFields(before)|);
      }
    }
  }

  lemma NoLines(schema: Schema)
    ensures AllFields([]) == [] && TakenAll(schema, []) == Some(Progress([], [])) && Body(schema, []) == []
    ensures AllParse(schema, []) && TypedRows(schema, []) == []
  {
  }

  lemma LastLineFields(lines: seq<Record>)
    requires lines != []
    ensures var before, n := AllFields(lines[..|lines| - 1]), |lines| - 1;
      AllFields(lines) == before + RowFields(n, lines[n].cells) && AllFields(lines)[..|before|] == before
  {
  }

  lemma TypedRowsNext(schema: Schema, body: seq<Record>, line: Record)
    ensures AllParse(schema, body + [line]) <==> AllParse(schema, body) && CellsParse(schema, line.cells)
    ensures AllParse(schema, body + [line]) ==>
      TypedRows(schema, body + [line]) == TypedRows(schema, body) + [TypedRow(schema, line.cells)]
  {
    hide CellsParse, TypedRow;
    if AllParse(schema, body + [line]) {
      forall r | 0 <= r < |body| ensures CellsParse(schema, body[r].cells) { assert (body + [line])[r] == body[r]; }
      assert (body + [line])[|body|] == line;
    }
  }

  lemma BodyNext(schema: Schema, lines: seq<Record>)
    requires lines != []
    ensures var before, n := lines[..|lines| - 1], |lines| - 1;
      Body(schema, lines) == if schema.header && n == 0 then [] else Body(schema, before) + [lines[n]]
    ensures |lines| == 1 ==> Body(schema, lines[..|lines| - 1]) == []
  {
  }

  // Whole files.

  /** The parser's callback, which fills the table. */
  class TableParser {
    const schema: Schema
    const table: InnerTable
    var lastRecord: Row

    ghost predicate Valid()
      reads this, table, table.Objects()
    {
      table.Valid() && table.Types() == schema.types
    }

    ghost function Now(): Progress
      reads this, table
    {
      Progress(lastRecord, table.records)
    }

    constructor (schema: Schema)
      ensures Valid() && this.schema == schema && Now() == Progress([], []) && fresh(table) && fresh(table.Objects())
    {
      this.schema, lastRecord := schema, [];
      table := new InnerTable(schema.types);
    }

    method OnField(f: Csv.Field) returns (ok: bool)
      requires Valid()
      modifies this, table, table.Objects()
      ensures Valid() && (ok <==> Taken(schema, old(Now()), f).Some?)
      ensures ok ==> Some(Now()) == Taken(schema, old(Now()), f)
    {
      hide InnerTable.Valid, FieldDatum, KeptRecord;
      if schema.header && f.row == 0 { return true; }
      if f.col >= |schema.types| { return false; }
      var d := FieldDatum(schema.types[f.col], schema.stoi, f.text);
      if d == None { return false; }
      lastRecord := lastRecord + [d.value];
      if f.col + 1 == |schema.types| {
        if |lastRecord| != |schema.types| { return false; }
        table.AddRecord(lastRecord);
        lastRecord := [];
      }
      return true;
    }
  }

  /** from_csv: parse, collect the records, filter them, write them as pages.  None stands for an exception. */
  method FromCsv(schema: Schema, chunks: seq<string>, filter: Option<Statement>, like: Like, threads: nat)
      returns (r: Option<(Table, nat)>)
    requires schema.types != [] && NonEmpty(chunks) && threads > 0
    requires filter.Some? ==> WellTypedStatement(filter.value, schema.types)
    ensures r.Some? <==>
      ParseOutcome(LOADER, chunks).0 == Csv.Ok && TakenAll(schema, ParseOutcome(LOADER, chunks).1).Some?
    ensures r.Some? ==>
      && TableRows(r.value.0) == Passing(TakenAll(schema, ParseOutcome(LOADER, chunks).1).value.records, filter, like)
      && r.value.1 == |TableRows(r.value.0)| && TypesOf(r.value.0) == schema.types
      && forall c :: 0 <= c < |r.value.0| ==> Scannable(r.value.0[c]) && |Decoded(r.value.0[c])| == r.value.1
  {
    hide TableParser.Valid, TakenAll, ParseOutcome, Taken, Scannable, Decoded, Passing, TableRows, WellTypedStatement;
    var error, calls := ParseAll(LOADER, chunks);
    var parser := new TableParser(schema);
    NothingTaken(schema, calls);
    for k := 0 to |calls|
      invariant parser.Valid() && fresh(parser) && fresh(parser.table) && fresh(parser.table.Objects())
      invariant parser.schema == schema
      invariant TakenAll(schema, calls[..k]) == Some(parser.Now())
    {
      TakenNext(schema, calls[..k], calls[k]);
      assert calls[..k + 1] == calls[..k] + [calls[k]];
      var ok := parser.OnField(calls[k]);
      if !ok {
        TakenFails(schema, calls, k + 1);
        return None;
      }
    }
    assert calls[..|calls|] == calls;
    if error != Csv.Ok {
      return None;
    }
    r := Load(parser, filter, like, threads);
  }

  lemma NothingTaken(schema: Schema, calls: seq<Csv.Field>)
    ensures TakenAll(schema, calls[..0]) == Some(Progress([], []))
  {
  }

  method Load(parser: TableParser, filter: Option<Statement>, like: Like, threads: nat)
      returns (r: Option<(Table, nat)>)
    requires parser.Valid() && parser.schema.types != [] && threads > 0
    requires filter.Some? ==> WellTypedStatement(filter.value, parser.schema.types)
    ensures r.Some? && TableRows(r.value.0) == Passing(parser.table.records, filter, like)
    ensures r.value.1 == |TableRows(r.value.0)| && TypesOf(r.value.0) == parser.schema.types
    ensures forall c :: 0 <= c < |r.value.0| ==> Scannable(r.value.0[c]) && |Decoded(r.value.0[c])| == r.value.1
  {
    hide InnerTable.Valid, Scannable, Decoded, Passing, TableRows, WellTypedStatement, ColumnsOk, InnerTable.Types,
      Records;
    var cols := parser.table.View();
    assert |ColumnTypes(cols)| == |cols|;
    var table, numRows := LoadFiltered(cols, parser.table.rows, filter, like, threads);
    r := Some((table, numRows));
  }

  // What that means for a file.

  /** A file of lines as wide as the table, encoded in the loader's dialect and cut anywhere: every line but the header
      becomes a record with the fields' values, or some field cannot be read and nothing is loaded. */
  lemma FileLoads(schema: Schema, lines: seq<Record>, chunks: seq<string>)
    requires schema.types != [] && lines != [] && RecordsOk(LOADER.comma, lines, |schema.types|)
    requires NonEmpty(chunks) && Flatten(chunks) == Encode(LOADER, lines)
    ensures ParseOutcome(LOADER, chunks).0 == Csv.Ok
    ensures TakenAll(schema, ParseOutcome(LOADER, chunks).1) ==
      if AllParse(schema, Body(schema, lines)) then Some(Progress([], TypedRows(schema, Body(schema, lines)))) else None
  {
    hide TakenAll, AllFields, Encode, CellsOk;
    RoundTrip(LOADER, lines, |schema.types|, chunks);
    OnLines(schema, lines);
  }

  /** Lines of equal width.  If that is the table's width, their values are loaded; if it is less, no record is; if it
      is more, the program leaves its list of attributes. */
  lemma LinesLoad(schema: Schema, lines: seq<Record>, width: nat)
    requires schema.types != [] && forall r :: 0 <= r < |lines| ==> |lines[r].cells| == width
    ensures var p, body := TakenAll(schema, AllFields(lines)), Body(schema, lines);
      && (width == |schema.types| && AllParse(schema, body) ==> p == Some(Progress([], TypedRows(schema, body))))
      && (width == |schema.types| && !AllParse(schema, body) ==> p == None)
      && (width < |schema.types| && p.Some? ==> p.value.records == [])
      && (width > |schema.types| && body != [] ==> p == None)
  {
    hide TakenAll;
    if width == |schema.types| {
      OnLines(schema, lines);
    } else if width < |schema.types| {
      NarrowFields(lines, width);
      NarrowTaken(schema, AllFields(lines));
    } else if Body(schema, lines) != [] {
      WideTaken(schema, lines, width);
    }
  }

  /** As many records are loaded as there are lines behind the header. */
  ghost predicate EveryLineLoads(schema: Schema, lines: seq<Record>) {
    var p := TakenAll(schema, AllFields(lines));
    p.Some? && |p.value.records| == |Body(schema, lines)|
  }

  /** Any input that the parser accepts, encoded in whatever way, is read as lines of equal width.  If there is a line
      behind the header, every line is loaded if and only if that is the table's width and all fields can be read. */
  lemma AcceptedLoads(schema: Schema, chunks: seq<string>) returns (lines: seq<Record>, width: nat)
    requires schema.types != [] && NonEmpty(chunks) && ParseOutcome(LOADER, chunks).0 == Csv.Ok
    ensures ParseOutcome(LOADER, chunks).1 == AllFields(lines)
    ensures forall r :: 0 <= r < |lines| ==> |lines[r].cells| == width
    ensures Body(schema, lines) != [] ==>
      (EveryLineLoads(schema, lines) <==> width == |schema.types| && AllParse(schema, Body(schema, lines)))
    ensures var p, body := TakenAll(schema, AllFields(lines)), Body(schema, lines);
      && (width == |schema.types| && AllParse(schema, body) ==> p == Some(Progress([], TypedRows(schema, body))))
      && (width == |schema.types| && !AllParse(schema, body) ==> p == None)
      && (width < |schema.types| && p.Some? ==> p.value.records == [])
      && (width > |schema.types| && body != [] ==> p == None)
  {
    var rows;
    rows, width := AcceptedIsRectangle(LOADER, chunks);
    hide TakenAll, ParseOutcome, Rectangle, AllParse, TypedRow;
    lines := RectangleIsLines(ParseOutcome(LOADER, chunks).1, rows, width);
    LinesLoad(schema, lines, width);
  }

  /** The line "1" in a file for a table with two columns: accepted, and not loaded. */
  lemma NarrowFile(stoi: Stoi)
    ensures var schema := Schema([VARCHAR, VARCHAR], false, stoi);
      && ParseOutcome(LOADER, ["1\n"]).0 == Csv.Ok
      && TakenAll(schema, ParseOutcome(LOADER, ["1\n"]).1) == Some(Progress([Text([49])], []))
  {
    var schema, lines := Schema([VARCHAR, VARCHAR], false, stoi), [Record([Cell("1", false)], false)];
    hide ParseOutcome, AllFields, TakenAll, Encode, RecordsOk, Flatten, Dialect;
    NarrowEncoding(lines);
    RoundTrip(LOADER, lines, 1, ["1\n"]);
    NarrowFileTaken(schema);
  }

  lemma NarrowFileTaken(schema: Schema)
    requires schema.types == [VARCHAR, VARCHAR] && !schema.header
    ensures TakenAll(schema, [Csv.Field(0, 0, "1")]) == Some(Progress([Text([49])], []))
  {
    TakenNext(schema, [], Csv.Field(0, 0, "1"));
    assert [] + [Csv.Field(0, 0, "1")] == [Csv.Field(0, 0, "1")];
    assert Bytes("1") == [49] && [] + [Text([49])] == [Text([49])];
  }

  lemma NarrowEncoding(lines: seq<Record>)
    requires lines == [Record([Cell("1", false)], false)]
    ensures Encode(LOADER, lines) == "1\n" && Flatten(["1\n"]) == "1\n" && AllFields(lines) == [Csv.Field(0, 0, "1")]
    ensures RecordsOk(LOADER.comma, lines, 1) && Dialect(LOADER) && NonEmpty(["1\n"])
  {
    assert lines[..0] == [] && ["1\n"][..0] == [];
    assert EncodeLine(LOADER, lines[0].cells) == "1" by { assert lines[0].cells[..0] == []; }
    assert RowFields(0, lines[0].cells) == [Csv.Field(0, 0, "1")];
    assert "" + ("1" + "\n") == "1\n";
  }

  lemma {:induction false} RectangleIsLines(calls: seq<Csv.Field>, rows: nat, width: nat) returns (lines: seq<Record>)
    requires Rectangle(calls, rows, width)
    ensures |lines| == rows && AllFields(lines) == calls && forall r :: 0 <= r < rows ==> |lines[r].cells| == width
  {
    if rows == 0 {
      lines := [];
    } else {
      hide Rectangle, InGrid;
      var k := (rows - 1) * width;
      LastRow(calls, rows, width, k);
      var before := RectangleIsLines(calls[..k], rows - 1, width);
      var last := calls[k..];
      var cells := seq(width, (c: int) requires 0 <= c < width => Cell(last[c].text, true));
      lines := before + [Record(cells, true)];
      assert lines[..|lines| - 1] == before;
      assert last == RowFields(rows - 1, cells);
      assert calls == calls[..k] + last;
    }
  }

  /** The last row of a rectangle begins at field k. */
  lemma LastRow(calls: seq<Csv.Field>, rows: nat, width: nat, k: nat)
    requires Rectangle(calls, rows, width) && rows > 0 && k == (rows - 1) * width
    ensures k + width == |calls| && Rectangle(calls[..k], rows - 1, width)
    ensures forall c :: 0 <= c < width ==> calls[k..][c].col == c && calls[k..][c].row == rows - 1
  {
    assert k + width == rows * width;
    hide InGrid;
    forall i | 0 <= i < k ensures InGrid(calls[..k][i], i, width) { assert InGrid(calls[i], i, width); }
    forall c | 0 <= c < width ensures calls[k..][c].col == c && calls[k..][c].row == rows - 1 {
      assert InGrid(calls[k + c], k + c, width);
      GridPlace(calls[k + c], rows - 1, c, width);
    }
  }

  lemma GridPlace(f: Csv.Field, row: nat, col: nat, width: nat)
    requires col < width && InGrid(f, row * width + col, width)
    ensures f.row == row && f.col == col
  {
    SamePlace(f.row, f.col, row, col, width);
  }

  lemma SamePlace(r: nat, c: nat, r': nat, c': nat, width: nat)
    requires c < width && c' < width && r * width + c == r' * width + c'
    ensures r == r' && c == c'
  {
    if r < r' { MulMono(r + 1, r', width); } else if r > r' { MulMono(r' + 1, r, width); }
  }

  lemma {:induction false} NarrowFields(lines: seq<Record>, width: nat)
    requires forall r :: 0 <= r < |lines| ==> |lines[r].cells| == width
    ensures forall k :: 0 <= k < |AllFields(lines)| ==> AllFields(lines)[k].col < width
  {
    if lines != [] { NarrowFields(lines[..|lines| - 1], width); }
  }

  /** No field closes a record. */
  lemma {:induction false} NarrowTaken(schema: Schema, calls: seq<Csv.Field>)
    requires forall k :: 0 <= k < |calls| ==> calls[k].col + 1 < |schema.types|
    ensures TakenAll(schema, calls).Some? ==> TakenAll(schema, calls).value.records == []
  {
    if calls != [] { NarrowTaken(schema, calls[..|calls| - 1]); }
  }

  /** The field behind the last attribute of the first record. */
  lemma WideTaken(schema: Schema, lines: seq<Record>, width: nat)
    requires width > |schema.types| && Body(schema, lines) != []
    requires forall r :: 0 <= r < |lines| ==> |lines[r].cells| == width
    ensures TakenAll(schema, AllFields(lines)) == None
  {
    hide TakenAll, AllFields;
    var r, all := if schema.header then 1 else 0, AllFields(lines);
    var k := FieldOf(lines, r, |schema.types|);
    assert all[..k + 1] == all[..k] + [all[k]];
    TakenNext(schema, all[..k], all[k]);
    TakenFails(schema, all, k + 1);
  }

  lemma {:induction false} FieldOf(lines: seq<Record>, r: nat, c: nat) returns (k: nat)
    requires r < |lines| && c < |lines[r].cells|
    ensures k < |AllFields(lines)| && AllFields(lines)[k] == Csv.Field(c, r, lines[r].cells[c].text)
  {
    if r == |lines| - 1 {
      k := |AllFields(lines[..r])| + c;
    } else {
      k := FieldOf(lines[..|lines| - 1], r, c);
    }
  }
}

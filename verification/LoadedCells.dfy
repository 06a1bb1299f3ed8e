/** The values that a file's fields load as, cell by cell. */
module LoadedCells {
  import opened Options
  import opened Bags
  import opened Scan
  import opened Relations
  import opened TableParsing
  import Csv = CsvSpec
  import opened CsvProperties
  import opened CsvQuoting

  /** How many lines are no records. */
  function HeaderLines(schema: Schema, lines: seq<Record>): nat {
    if schema.header && lines != [] then 1 else 0
  }

  /** The text of cell c of the r-th record's line. */
  function TextOf(schema: Schema, lines: seq<Record>, r: nat, c: nat): string
    requires r + HeaderLines(schema, lines) < |lines| && c < |lines[r + HeaderLines(schema, lines)].cells|
  {
    lines[r + HeaderLines(schema, lines)].cells[c].text
  }

  ghost predicate TableWide(schema: Schema, lines: seq<Record>) {
    schema.types != [] && forall r :: 0 <= r < |lines| ==> |lines[r].cells| == |schema.types|
  }

  /** Every non-empty field of an INT32 column, but for the header's, can be converted. */
  ghost predicate IntsConvert(schema: Schema, lines: seq<Record>)
    requires TableWide(schema, lines)
  {
    forall r, c :: 0 <= r < |lines| - HeaderLines(schema, lines) && 0 <= c < |schema.types| ==>
      var text := TextOf(schema, lines, r, c);
      schema.types[c] == INT32 && text != [] ==> schema.stoi(text).Some?
  }

  /** One record for each line behind the header, and in it, for each field: null if the field is empty, and else the
      number that it was converted to, or a string of the same characters. */
  ghost predicate CellsAre(schema: Schema, lines: seq<Record>, records: seq<Row>)
    requires TableWide(schema, lines)
  {
    && |records| == |lines| - HeaderLines(schema, lines)
    && (forall r :: 0 <= r < |records| ==> |records[r]| == |schema.types|)
    && forall r, c :: 0 <= r < |records| && 0 <= c < |schema.types| ==>
         var text, d := TextOf(schema, lines, r, c), records[r][c];
         && (d == Null <==> text == [])
         && (text != [] && schema.types[c] == INT32 ==> d.Int? && schema.stoi(text) == Some(d.i))
         && (text != [] && schema.types[c] == VARCHAR ==>
               d.Text? && |d.s| == |text| && forall k :: 0 <= k < |text| ==> d.s[k] == text[k] as int % 0x100)
  }

  /** Lines of the table's width are loaded exactly if the integers can be converted, and then cell by cell. */
  lemma LinesToCells(schema: Schema, lines: seq<Record>)
    requires TableWide(schema, lines)
    ensures var p := TakenAll(schema, AllFields(lines));
      && (p.Some? <==> IntsConvert(schema, lines))
      && (p.Some? ==> p.value.last == [] && CellsAre(schema, lines, p.value.records))
  {
    hide TakenAll, AllFields, CellsParse, TypedRow, FieldDatum, IntsConvert, CellsAre;
    OnLines(schema, lines);
    ParseIsConvert(schema, lines);
    if AllParse(schema, Body(schema, lines)) { RowsAreCells(schema, lines); }
  }

  lemma BodyAt(schema: Schema, lines: seq<Record>)
    ensures |Body(schema, lines)| == |lines| - HeaderLines(schema, lines)
    ensures forall r :: 0 <= r < |Body(schema, lines)| ==>
      Body(schema, lines)[r] == lines[r + HeaderLines(schema, lines)]
  {
  }

  lemma ParseIsConvert(schema: Schema, lines: seq<Record>)
    requires TableWide(schema, lines)
    ensures AllParse(schema, Body(schema, lines)) <==> IntsConvert(schema, lines)
  {
    hide Body, HeaderLines;
    BodyAt(schema, lines);
    var body := Body(schema, lines);
    if IntsConvert(schema, lines) {
      forall r | 0 <= r < |body| ensures CellsParse(schema, body[r].cells) {
        forall c | 0 <= c < |schema.types|
          ensures FieldDatum(schema.types[c], schema.stoi, body[r].cells[c].text).Some?
        {
          assert TextOf(schema, lines, r, c) == body[r].cells[c].text;
        }
      }
    }
    if AllParse(schema, body) {
      forall r, c | 0 <= r < |body| && 0 <= c < |schema.types|
        ensures var text := TextOf(schema, lines, r, c);
          schema.types[c] == INT32 && text != [] ==> schema.stoi(text).Some?
      {
        assert CellsParse(schema, body[r].cells);
        assert FieldDatum(schema.types[c], schema.stoi, body[r].cells[c].text).Some?;
      }
    }
  }

  lemma RowsAreCells(schema: Schema, lines: seq<Record>)
    requires TableWide(schema, lines) && AllParse(schema, Body(schema, lines))
    ensures CellsAre(schema, lines, TypedRows(schema, Body(schema, lines)))
  {
    hide Body, HeaderLines, FieldDatum;
    BodyAt(schema, lines);
    var body := Body(schema, lines);
    var records := TypedRows(schema, body);
    forall r, c | 0 <= r < |records| && 0 <= c < |schema.types|
      ensures var text, d := TextOf(schema, lines, r, c), records[r][c];
        && (d == Null <==> text == [])
        && (text != [] && schema.types[c] == INT32 ==> d.Int? && schema.stoi(text) == Some(d.i))
        && (text != [] && schema.types[c] == VARCHAR ==>
              d.Text? && |d.s| == |text| && forall k :: 0 <= k < |text| ==> d.s[k] == text[k] as int % 0x100)
    {
      assert CellsParse(schema, body[r].cells);
      assert records[r] == TypedRow(schema, body[r].cells);
      DatumIs(schema.types[c], schema.stoi, body[r].cells[c].text);
    }
  }

  lemma DatumIs(dtype: DataType, stoi: Stoi, text: string)
    requires FieldDatum(dtype, stoi, text).Some?
    ensures var d := FieldDatum(dtype, stoi, text).value;
      && (d == Null <==> text == [])
      && (text != [] && dtype == INT32 ==> d.Int? && stoi(text) == Some(d.i))
      && (text != [] && dtype == VARCHAR ==>
            d.Text? && |d.s| == |text| && forall k :: 0 <= k < |text| ==> d.s[k] == text[k] as int % 0x100)
  {
  }

  /** The same for any input that the parser accepts, cut anywhere: if its lines, with the texts that the parser
      reported, are as wide as the table, they are loaded exactly if the integers can be converted, and cell by cell. */
  lemma FileToCells(schema: Schema, lines: seq<Record>, chunks: seq<string>)
    requires TableWide(schema, lines) && ParseOutcome(LOADER, chunks) == (Csv.Ok, AllFields(lines))
    ensures var p := TakenAll(schema, ParseOutcome(LOADER, chunks).1);
      && (p.Some? <==> IntsConvert(schema, lines))
      && (p.Some? ==> CellsAre(schema, lines, p.value.records))
  {
    hide TakenAll, ParseOutcome, AllFields, IntsConvert, CellsAre;
    LinesToCells(schema, lines);
  }

  // A file, character by character.

  const TWO_LINES: string := "1,\"a\\\"\\\\\"\n,c\r\n"

  /** The lines 1,"a\"\\" and ,c for an INT32 and a VARCHAR column.  However they are cut, the records are 1 with the
      three characters a, quote and backslash, and null with c. */
  lemma TwoLines(stoi: Stoi, chunks: seq<string>)
    requires stoi("1") == Some(1) && NonEmpty(chunks) && Flatten(chunks) == TWO_LINES
    ensures ParseOutcome(LOADER, chunks).0 == Csv.Ok
    ensures TakenAll(Schema([INT32, VARCHAR], false, stoi), ParseOutcome(LOADER, chunks).1)
         == Some(Progress([], [[Int(1), Text([97, 34, 92])], [Null, Text([99])]]))
  {
    hide ParseOutcome, TakenAll, Flatten, Encode, AllFields;
    var schema := Schema([INT32, VARCHAR], false, stoi);
    var lines := [Record([Cell("1", false), Cell("a\"\\", true)], false),
                  Record([Cell("", false), Cell("c", false)], true)];
    TwoLinesEncoded(lines);
    FileLoads(schema, lines, chunks);
    TwoLinesTyped(schema, lines);
  }

  lemma TwoLinesTyped(schema: Schema, lines: seq<Record>)
    requires schema.types == [INT32, VARCHAR] && !schema.header && schema.stoi("1") == Some(1)
    requires lines == [Record([Cell("1", false), Cell("a\"\\", true)], false),
                       Record([Cell("", false), Cell("c", false)], true)]
    ensures AllParse(schema, Body(schema, lines))
    ensures TypedRows(schema, Body(schema, lines)) == [[Int(1), Text([97, 34, 92])], [Null, Text([99])]]
  {
    assert Bytes("a\"\\") == [97, 34, 92] && Bytes("c") == [99];
    hide Bytes;
    assert TypedRow(schema, lines[0].cells) == [Int(1), Text([97, 34, 92])];
    assert TypedRow(schema, lines[1].cells) == [Null, Text([99])];
  }

  lemma TwoLinesEncoded(lines: seq<Record>)
    requires lines == [Record([Cell("1", false), Cell("a\"\\", true)], false),
                       Record([Cell("", false), Cell("c", false)], true)]
    ensures RecordsOk(LOADER.comma, lines, 2) && Encode(LOADER, lines) == TWO_LINES
  {
    hide EncodeCell, EncodeCells, EncodeLine, Encode, CellOk;
    FirstLine(lines[0].cells);
    SecondLine(lines[1].cells);
    TwoRecords(LOADER, lines);
    assert FIRST + "\n" + (",c" + "\r\n") == TWO_LINES;
  }

  const FIRST: string := "1,\"a\\\"\\\\\""

  lemma FirstLine(cells: seq<Cell>)
    requires cells == [Cell("1", false), Cell("a\"\\", true)]
    ensures EncodeLine(LOADER, cells) == FIRST && CellsOk(LOADER.comma, cells)
  {
    hide Escaped, EncodeCells, EncodeLine;
    EscapedThree(LOADER.escape, "a\"\\");
    assert "a" + "\\\"" + "\\\\" == "a\\\"\\\\";
    TwoCells(LOADER, cells);
  }

  lemma SecondLine(cells: seq<Cell>)
    requires cells == [Cell("", false), Cell("c", false)]
    ensures EncodeLine(LOADER, cells) == ",c" && CellsOk(LOADER.comma, cells)
  {
    hide Escaped, EncodeCells, EncodeLine;
    TwoCells(LOADER, cells);
  }

  lemma EscapedThree(escape: char, text: string)
    requires |text| == 3
    ensures Escaped(escape, text)
         == EscapedChar(escape, text[0]) + EscapedChar(escape, text[1]) + EscapedChar(escape, text[2])
  {
    var two := text[..2];
    assert two[..1] == [text[0]] && two[..1][..0] == [];
    assert Escaped(escape, two[..1]) == EscapedChar(escape, text[0]);
    assert Escaped(escape, two) == EscapedChar(escape, text[0]) + EscapedChar(escape, text[1]);
  }

  lemma TwoCells(cfg: Csv.Config, cells: seq<Cell>)
    requires |cells| == 2
    ensures EncodeLine(cfg, cells)
         == EncodeCell(cfg.escape, cells[0]) + [cfg.comma] + EncodeCell(cfg.escape, cells[1])
  {
    hide EncodeCell;
    var one := cells[..1];
    assert one == [cells[0]] && one[..0] == [];
    assert EncodeCells(cfg, one) == EncodeCell(cfg.escape, cells[0]) + [cfg.comma];
  }

  lemma TwoRecords(cfg: Csv.Config, lines: seq<Record>)
    requires |lines| == 2 && lines[0].cells != [] && lines[1].cells != []
    ensures Encode(cfg, lines) == EncodeLine(cfg, lines[0].cells) + LineBreak(lines[0].crlf)
      + (EncodeLine(cfg, lines[1].cells) + LineBreak(lines[1].crlf))
  {
    hide EncodeLine, LineBreak;
    var one := lines[..1];
    assert one == [lines[0]] && one[..0] == [];
    assert Encode(cfg, one) == EncodeLine(cfg, lines[0].cells) + LineBreak(lines[0].crlf);
  }
}

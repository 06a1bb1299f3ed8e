/** RFC 4180, section 2: fields may be quoted, a quote inside a quoted field is doubled, records end in CR LF (or LF);
    and the loader's dialect, where a backslash escapes quotes and itself.  Parsing undoes the encoding. */
module CsvQuoting {
  import opened Bags
  import opened CsvSpec
  import opened CsvProperties

  /** A field, and whether it is written in quotes. */
  datatype Cell = Cell(text: string, quoted: bool)

  datatype Record = Record(cells: seq<Cell>, crlf: bool)

  /** Quotes and escape characters are escaped; with a quote for escape character, that doubles quotes. */
  function Escaped(escape: char, text: string): string {
    if text == [] then [] else Escaped(escape, text[..|text| - 1]) + EscapedChar(escape, text[|text| - 1])
  }

  function EscapedChar(escape: char, c: char): string {
    if c == '"' || c == escape then [escape, c] else [c]
  }

  function EncodeCell(escape: char, c: Cell): string {
    if c.quoted then ['"'] + Escaped(escape, c.text) + ['"'] else c.text
  }

  /** The cells of a record that have another behind them. */
  function EncodeCells(cfg: Config, cells: seq<Cell>): string {
    if cells == [] then [] else
      EncodeCells(cfg, cells[..|cells| - 1]) + (EncodeCell(cfg.escape, cells[|cells| - 1]) + [cfg.comma])
  }

  /** A record without its line break. */
  function EncodeLine(cfg: Config, cells: seq<Cell>): string
    requires cells != []
  {
    EncodeCells(cfg, cells[..|cells| - 1]) + EncodeCell(cfg.escape, cells[|cells| - 1])
  }

  function LineBreak(crlf: bool): string {
    if crlf then ['\r', '\n'] else ['\n']
  }

  function Encode(cfg: Config, records: seq<Record>): string
    requires forall r :: 0 <= r < |records| ==> records[r].cells != []
  {
    if records == [] then [] else
      var last := records[|records| - 1];
      Encode(cfg, records[..|records| - 1]) + (EncodeLine(cfg, last.cells) + LineBreak(last.crlf))
  }

  /** An unquoted field must not hold a character with a meaning. */
  predicate CellOk(comma: char, c: Cell) {
    c.quoted || forall k :: 0 <= k < |c.text| ==>
      c.text[k] != comma && c.text[k] != '\n' && c.text[k] != '\r' && c.text[k] != '"'
  }

  predicate CellsOk(comma: char, cells: seq<Cell>) {
    forall k :: 0 <= k < |cells| ==> CellOk(comma, cells[k])
  }

  /** The characters with a meaning are different, except that a quote may be its own escape character. */
  predicate Dialect(cfg: Config) {
    && !cfg.trailing && cfg.comma != '"' && cfg.comma != '\n' && cfg.comma != '\r' && cfg.comma != cfg.escape
    && cfg.escape != '\n' && cfg.escape != '\r'
  }

  /** Nothing read of the next field. */
  predicate AtField(p: Parser) {
    p.error == Ok && p.field == [] && !p.quoted && !p.escaping && !p.newlining
  }

  /** A field has been read, but not yet what ends it.  If quotes escape themselves, the closing quote is not known
      to be one before the next character. */
  function WithText(cfg: Config, p: Parser, c: Cell): Parser {
    if c.quoted && cfg.escape == '"' then InQuotes(p, c.text).(escaping := true)
    else if !c.quoted && c.text == [] then p
    else p.(field := c.text, afterFieldSep := false, afterRecordSep := false)
  }

  function InQuotes(p: Parser, text: string): Parser {
    p.(field := text, quoted := true, afterFieldSep := false, afterRecordSep := false)
  }

  lemma FeedOne(cfg: Config, p: Parser, c: char)
    ensures FeedText(cfg, p, [c]) == Feed(cfg, p, c, false)
  {
    assert [c][..0] == [];
  }

  lemma {:induction false} FeedEscaped(cfg: Config, p: Parser, text: string)
    requires Dialect(cfg) && AtField(p)
    ensures FeedText(cfg, InQuotes(p, []), Escaped(cfg.escape, text)) == InQuotes(p, text)
  {
    hide FeedText;
    if text == [] {
      FeedNothing(cfg, InQuotes(p, []));
    } else {
      var t, c := text[..|text| - 1], text[|text| - 1];
      FeedEscaped(cfg, p, t);
      var tail := EscapedChar(cfg.escape, c);
      FeedTextCat(cfg, InQuotes(p, []), Escaped(cfg.escape, t), tail);
      FeedQuotedChar(cfg, p, t, c);
      assert t + [c] == text;
    }
  }

  lemma FeedQuotedChar(cfg: Config, p: Parser, t: string, c: char)
    requires Dialect(cfg) && AtField(p)
    ensures FeedText(cfg, InQuotes(p, t), EscapedChar(cfg.escape, c)) == InQuotes(p, t + [c])
  {
    var q := InQuotes(p, t);
    if c == '"' || c == cfg.escape {
      assert [cfg.escape, c] == [cfg.escape] + [c];
      FeedTextCat(cfg, q, [cfg.escape], [c]);
      FeedOne(cfg, q, cfg.escape);
      FeedOne(cfg, FeedText(cfg, q, [cfg.escape]), c);
    } else {
      FeedOne(cfg, q, c);
    }
  }

  lemma {:induction false} FeedUnquoted(cfg: Config, p: Parser, c: Cell)
    requires Dialect(cfg) && AtField(p) && !c.quoted && CellOk(cfg.comma, c)
    ensures FeedText(cfg, p, c.text) == WithText(cfg, p, c)
    decreases |c.text|
  {
    hide FeedText, FeedAll, Feed, WithText;
    if c.text == [] {
      FeedNothing(cfg, p);
      NoText(cfg, p);
    } else {
      var t, x := Cell(c.text[..|c.text| - 1], false), c.text[|c.text| - 1];
      assert c == Cell(t.text + [x], false);
      FeedUnquoted(cfg, p, t);
      FeedTextCat(cfg, p, t.text, [x]);
      FeedOne(cfg, WithText(cfg, p, t), x);
      PlainNext(cfg, p, t.text, x);
    }
  }

  lemma NoText(cfg: Config, p: Parser)
    ensures WithText(cfg, p, Cell([], false)) == p
  {
  }

  /** A character without a meaning is added to the field. */
  lemma PlainNext(cfg: Config, p: Parser, text: string, x: char)
    requires Dialect(cfg) && AtField(p) && x != cfg.comma && x != '\n' && x != '\r' && x != '"'
    ensures Feed(cfg, WithText(cfg, p, Cell(text, false)), x, false) == WithText(cfg, p, Cell(text + [x], false))
  {
    hide EndPending;
  }

  lemma FeedCell(cfg: Config, p: Parser, c: Cell)
    requires Dialect(cfg) && AtField(p) && CellOk(cfg.comma, c)
    ensures FeedText(cfg, p, EncodeCell(cfg.escape, c)) == WithText(cfg, p, c)
  {
    if c.quoted {
      FeedOne(cfg, p, '"');
      assert Feed(cfg, p, '"', false) == InQuotes(p, []);
      FeedTextCat(cfg, p, ['"'] + Escaped(cfg.escape, c.text), ['"']);
      FeedTextCat(cfg, p, ['"'], Escaped(cfg.escape, c.text));
      FeedEscaped(cfg, p, c.text);
      FeedOne(cfg, InQuotes(p, c.text), '"');
      hide FeedText;
    } else {
      FeedUnquoted(cfg, p, c);
    }
  }

  /** What a separator makes of a field, quoted or not. */
  function Emitted(p: Parser, c: Cell): Parser {
    EmitField(p.(field := c.text)).(col := p.col + 1, afterFieldSep := true, afterRecordSep := false)
  }

  lemma FeedCellAndComma(cfg: Config, p: Parser, c: Cell)
    requires Dialect(cfg) && AtField(p) && CellOk(cfg.comma, c)
    ensures FeedText(cfg, p, EncodeCell(cfg.escape, c) + [cfg.comma]) == Emitted(p, c)
  {
    hide FeedText, EncodeCell;
    FeedCell(cfg, p, c);
    FeedTextCat(cfg, p, EncodeCell(cfg.escape, c), [cfg.comma]);
    FeedOne(cfg, WithText(cfg, p, c), cfg.comma);
    CommaEmits(cfg, p, c);
  }

  lemma CommaEmits(cfg: Config, p: Parser, c: Cell)
    requires Dialect(cfg) && AtField(p)
    ensures Feed(cfg, WithText(cfg, p, c), cfg.comma, false) == Emitted(p, c)
  {
    hide EndPending;
  }

  function EmittedAll(p: Parser, cells: seq<Cell>): Parser {
    if cells == [] then p else Emitted(EmittedAll(p, cells[..|cells| - 1]), cells[|cells| - 1])
  }

  lemma {:induction false} FeedCells(cfg: Config, p: Parser, cells: seq<Cell>)
    requires Dialect(cfg) && AtField(p) && CellsOk(cfg.comma, cells)
    ensures FeedText(cfg, p, EncodeCells(cfg, cells)) == EmittedAll(p, cells) && AtField(EmittedAll(p, cells))
  {
    hide FeedText;
    if cells == [] {
      FeedNothing(cfg, p);
    } else {
      var before, c := cells[..|cells| - 1], cells[|cells| - 1];
      FeedCells(cfg, p, before);
      FeedTextCat(cfg, p, EncodeCells(cfg, before), EncodeCell(cfg.escape, c) + [cfg.comma]);
      FeedCellAndComma(cfg, EmittedAll(p, before), c);
    }
  }

  lemma FeedNothing(cfg: Config, p: Parser)
    ensures FeedText(cfg, p, []) == p
  {
  }

  /** What a line break makes of the last field of a record. */
  function Ended(cfg: Config, p: Parser, c: Cell): Parser {
    EndRecord(cfg, p.(field := c.text)).(afterFieldSep := false)
  }

  lemma FeedLineBreak(cfg: Config, p: Parser, c: Cell, crlf: bool)
    requires Dialect(cfg) && AtField(p) && (p.afterFirstRow ==> p.numCols == p.col + 1)
    ensures FeedText(cfg, WithText(cfg, p, c), LineBreak(crlf)) == Ended(cfg, p, c)
  {
    var q := WithText(cfg, p, c);
    if crlf {
      assert ['\r', '\n'] == ['\r'] + ['\n'];
      FeedTextCat(cfg, q, ['\r'], ['\n']);
      FeedOne(cfg, q, '\r');
      FeedOne(cfg, FeedText(cfg, q, ['\r']), '\n');
    } else {
      FeedOne(cfg, q, '\n');
    }
    hide FeedText;
  }

  // Records.

  function RowFields(row: nat, cells: seq<Cell>): seq<Field> {
    seq(|cells|, (c: int) requires 0 <= c < |cells| => Field(c, row, cells[c].text))
  }

  /** The on_field calls for these records. */
  function AllFields(records: seq<Record>): seq<Field> {
    if records == [] then [] else
      AllFields(records[..|records| - 1]) + RowFields(|records| - 1, records[|records| - 1].cells)
  }

  lemma {:induction false} EmittedAllIs(p: Parser, cells: seq<Cell>)
    requires AtField(p) && p.col == 0
    ensures var q := EmittedAll(p, cells);
      && q == p.(calls := p.calls + RowFields(p.row, cells), col := |cells|, afterFieldSep := q.afterFieldSep,
        afterRecordSep := q.afterRecordSep)
      && (cells != [] ==> !q.afterRecordSep) && (cells == [] ==> q == p)
  {
    if cells == [] {
      assert p.calls + [] == p.calls;
    } else {
      EmittedAllIs(p, cells[..|cells| - 1]);
      var last := Field(|cells| - 1, p.row, cells[|cells| - 1].text);
      assert RowFields(p.row, cells) == RowFields(p.row, cells[..|cells| - 1]) + [last];
      assert p.calls + RowFields(p.row, cells) == (p.calls + RowFields(p.row, cells[..|cells| - 1])) + [last];
    }
  }

  /** After these records, each `width` fields wide. */
  function After(records: seq<Record>, width: nat): Parser {
    if records == [] then START
    else START.(row := |records|, numCols := width, afterFirstRow := true, afterRecordSep := true,
      calls := AllFields(records))
  }

  ghost predicate RecordsOk(comma: char, records: seq<Record>, width: nat) {
    forall r :: 0 <= r < |records| ==> |records[r].cells| == width && CellsOk(comma, records[r].cells)
  }

  /** A record without its line break, after other records. */
  lemma FeedLine(cfg: Config, p: Parser, cells: seq<Cell>)
    requires Dialect(cfg) && AtField(p) && cells != [] && CellsOk(cfg.comma, cells)
    ensures FeedText(cfg, p, EncodeLine(cfg, cells)) ==
      WithText(cfg, EmittedAll(p, cells[..|cells| - 1]), cells[|cells| - 1])
    ensures AtField(EmittedAll(p, cells[..|cells| - 1]))
  {
    var before, last := cells[..|cells| - 1], cells[|cells| - 1];
    FeedCells(cfg, p, before);
    FeedTextCat(cfg, p, EncodeCells(cfg, before), EncodeCell(cfg.escape, last));
    FeedCell(cfg, EmittedAll(p, before), last);
  }

  lemma RecordEnds(cfg: Config, records: seq<Record>, width: nat, cells: seq<Cell>, p: Parser)
    requires Dialect(cfg) && |cells| == width > 0 && p == EmittedAll(After(records, width), cells[..width - 1])
    ensures AtField(p) && p.col + 1 == width && (p.afterFirstRow ==> p.numCols == width)
    ensures forall crlf :: Ended(cfg, p, cells[width - 1]) == After(records + [Record(cells, crlf)], width)
  {
    EmittedAllIs(After(records, width), cells[..width - 1]);
    forall crlf: bool
      ensures AllFields(records + [Record(cells, crlf)]) ==
        p.calls + [Field(width - 1, |records|, cells[width - 1].text)]
    {
      FieldsNext(records, cells, crlf);
    }
    hide AllFields, RowFields, EmittedAll;
  }

  lemma FieldsNext(records: seq<Record>, cells: seq<Cell>, crlf: bool)
    requires cells != []
    ensures var n := |cells| - 1;
      AllFields(records + [Record(cells, crlf)]) ==
        AllFields(records) + RowFields(|records|, cells[..n]) + [Field(n, |records|, cells[n].text)]
    ensures AllFields([]) == []
  {
    AllFieldsNext(records, Record(cells, crlf));
    RowFieldsNext(|records|, cells);
    hide AllFields, RowFields;
  }

  lemma AllFieldsNext(records: seq<Record>, r: Record)
    ensures AllFields(records + [r]) == AllFields(records) + RowFields(|records|, r.cells) && AllFields([]) == []
  {
    assert (records + [r])[..|records + [r]| - 1] == records;
  }

  lemma RowFieldsNext(row: nat, cells: seq<Cell>)
    requires cells != []
    ensures var n := |cells| - 1;
      forall before: seq<Field> ::
        before + RowFields(row, cells) == before + RowFields(row, cells[..n]) + [Field(n, row, cells[n].text)]
  {
    var n := |cells| - 1;
    assert RowFields(row, cells) == RowFields(row, cells[..n]) + [Field(n, row, cells[n].text)];
  }

  /** One more record with its line break. */
  lemma FeedRecord(cfg: Config, before: seq<Record>, width: nat, last: Record)
    requires Dialect(cfg) && |last.cells| == width > 0 && CellsOk(cfg.comma, last.cells)
    ensures FeedText(cfg, After(before, width), EncodeLine(cfg, last.cells) + LineBreak(last.crlf))
         == After(before + [last], width)
  {
    hide FeedText, EncodeLine, LineBreak, CellsOk, EmittedAll, AllFields, Ended, WithText;
    var p := EmittedAll(After(before, width), last.cells[..width - 1]);
    FeedTextCat(cfg, After(before, width), EncodeLine(cfg, last.cells), LineBreak(last.crlf));
    FeedLine(cfg, After(before, width), last.cells);
    RecordEnds(cfg, before, width, last.cells, p);
    FeedLineBreak(cfg, p, last.cells[width - 1], last.crlf);
    assert last == Record(last.cells, last.crlf);
  }

  lemma {:induction false} FeedRecords(cfg: Config, records: seq<Record>, width: nat)
    requires Dialect(cfg) && width > 0 && RecordsOk(cfg.comma, records, width)
    ensures FeedText(cfg, START, Encode(cfg, records)) == After(records, width)
  {
    hide FeedText, FeedAll, EncodeLine, LineBreak, AllFields, CellsOk;
    if records == [] {
      FeedNothing(cfg, START);
    } else {
      var before, last := records[..|records| - 1], records[|records| - 1];
      FeedRecords(cfg, before, width);
      FeedTextCat(cfg, START, Encode(cfg, before), EncodeLine(cfg, last.cells) + LineBreak(last.crlf));
      FeedRecord(cfg, before, width, last);
      assert records == before + [last];
    }
  }

  /** Encoding, cutting anywhere and parsing gives back every field, in order, at its row and column. */
  lemma RoundTrip(cfg: Config, records: seq<Record>, width: nat, chunks: seq<string>)
    requires Dialect(cfg) && width > 0 && records != [] && RecordsOk(cfg.comma, records, width)
    requires NonEmpty(chunks) && Flatten(chunks) == Encode(cfg, records)
    ensures ParseOutcome(cfg, chunks) == (Ok, AllFields(records))
  {
    ChunksDoNotMatter(cfg, chunks);
    FeedRecords(cfg, records, width);
    hide FeedText;
  }

  /** RFC 4180 lets the last record go without a line break.  The parser accepts that exactly if the input does not
      end in a closing quote that could still become an escaped one, and it overlooks a last record that is an empty
      line behind others. */
  lemma LastLineIff(cfg: Config, records: seq<Record>, cells: seq<Cell>, width: nat, chunks: seq<string>)
    requires Dialect(cfg) && |cells| == width > 0 && RecordsOk(cfg.comma, records, width) && CellsOk(cfg.comma, cells)
    requires NonEmpty(chunks) && Flatten(chunks) == Encode(cfg, records) + EncodeLine(cfg, cells)
    ensures ParseOutcome(cfg, chunks) == (Ok, AllFields(records + [Record(cells, false)]))
      <==> !(cells[width - 1].quoted && cfg.escape == '"') && (records == [] || cells != [Cell([], false)])
  {
    ChunksDoNotMatter(cfg, chunks);
    FeedRecords(cfg, records, width);
    var p := EmittedAll(After(records, width), cells[..width - 1]);
    FeedTextCat(cfg, START, Encode(cfg, records), EncodeLine(cfg, cells));
    FeedLine(cfg, After(records, width), cells);
    RecordEnds(cfg, records, width, cells, p);
    EmittedAllIs(After(records, width), cells[..width - 1]);
    LastLine(cfg, records, cells, width, p);
    hide FeedText;
  }

  /** One quoted field and no line break: RFC 4180 allows it, the parser does not. */
  lemma QuotedAtEnd()
    ensures var cfg := Config('"', ',', false);
      ParseOutcome(cfg, [EncodeLine(cfg, [Cell("a", true)])]).0 == QuoteNotClosed
        && EncodeLine(cfg, [Cell("a", true)]) == "\"a\""
  {
    var cfg, cells := Config('"', ',', false), [Cell("a", true)];
    var text := EncodeLine(cfg, cells);
    OneQuoted(cfg);
    FeedLine(cfg, START, cells);
    ChunksDoNotMatter(cfg, [text]);
    hide FeedText, EncodeLine;
    assert Flatten([text]) == text by { assert [text][..0] == []; }
  }

  lemma OneQuoted(cfg: Config)
    requires cfg == Config('"', ',', false)
    ensures EncodeLine(cfg, [Cell("a", true)]) == "\"a\"" && EmittedAll(START, []) == START
  {
    assert "a"[..0] == "" && Escaped('"', "a") == Escaped('"', "") + "a";
  }

  lemma LastLine(cfg: Config, records: seq<Record>, cells: seq<Cell>, width: nat, p: Parser)
    requires Dialect(cfg) && |cells| == width > 0 && AtField(p) && p.col + 1 == width
    requires p.afterFirstRow ==> p.numCols == width
    requires Ended(cfg, p, cells[width - 1]) == After(records + [Record(cells, false)], width)
    requires width == 1 ==> p == After(records, width)
    requires width > 1 ==> !p.afterRecordSep
    ensures OutcomeOf(FinishSpec(cfg, WithText(cfg, p, cells[width - 1]))) ==
      (Ok, AllFields(records + [Record(cells, false)]))
      <==> !(cells[width - 1].quoted && cfg.escape == '"') && (records == [] || cells != [Cell([], false)])
  {
    var last := cells[width - 1];
    if last.quoted && cfg.escape == '"' {
    } else if width == 1 && !last.quoted && last.text == [] && records != [] {
      assert cells == [Cell([], false)];
      MoreFields(records, cells);
    } else {
      FinishLine(cfg, p, last);
      if cells == [Cell([], false)] { assert records == []; }
    }
    hide AllFields, EmittedAll, Feed;
  }

  lemma MoreFields(records: seq<Record>, cells: seq<Cell>)
    requires cells != []
    ensures AllFields(records + [Record(cells, false)]) != AllFields(records)
  {
    var all := records + [Record(cells, false)];
    assert all[..|all| - 1] == records;
    assert |AllFields(all)| == |AllFields(records)| + |cells|;
  }

  /** finish supplies the missing line break. */
  lemma FinishLine(cfg: Config, p: Parser, c: Cell)
    requires Dialect(cfg) && AtField(p) && (p.afterFirstRow ==> p.numCols == p.col + 1)
    requires !(c.quoted && cfg.escape == '"')
    requires !p.afterRecordSep || c.quoted || c.text != []
    ensures FinishSpec(cfg, WithText(cfg, p, c)) == Ended(cfg, p, c)
  {
    var q := WithText(cfg, p, c);
    assert FeedAll(cfg, q, ['\n'], 1) == Feed(cfg, q, '\n', true);
    FeedOne(cfg, q, '\n');
    FeedPlain(cfg, q, '\n', true);
    FeedPlain(cfg, q, '\n', false);
    FeedLineBreak(cfg, p, c, false);
    hide Feed, Ended, Plain;
  }
}

/** How the CSV parser reads what no encoder writes: escapes before ordinary characters, quoted parts inside a field,
    and carriage returns by themselves. */
module CsvReading {
  import opened Options
  import opened Bags
  import opened CsvSpec
  import opened CsvProperties
  import opened CsvQuoting

  /** Quote, separator, escape character and line breaks differ, except that a quote may be its own escape. */
  predicate Apart(cfg: Config) {
    && cfg.comma != '"' && cfg.comma != '\n' && cfg.comma != '\r' && cfg.comma != cfg.escape
    && cfg.escape != '\n' && cfg.escape != '\r'
  }

  predicate NothingPending(p: Parser) {
    p.error == Ok && !p.escaping && !p.newlining
  }

  /** The field has got more characters. */
  function Longer(p: Parser, text: string): Parser {
    p.(field := p.field + text, afterFieldSep := false, afterRecordSep := false)
  }

  /** The text that the characters between two quotes stand for.  An escape character makes a quote or an escape
      character ordinary and stands for itself before anything else.  None: a quote is not escaped, or the characters
      end in the middle of an escape. */
  function Unquoted(escape: char, u: string): Option<string> {
    if u == [] then Some([])
    else if u[0] == escape && |u| > 1 && (u[1] == '"' || u[1] == escape)
    then Prepended([u[1]], Unquoted(escape, u[2..]))
    else if u[0] == escape && |u| > 1 && escape != '"' then Prepended([escape, u[1]], Unquoted(escape, u[2..]))
    else if u[0] == '"' || u[0] == escape then None
    else Prepended([u[0]], Unquoted(escape, u[1..]))
  }

  function Prepended(text: string, rest: Option<string>): Option<string> {
    if rest.Some? then Some(text + rest.value) else None
  }

  /** Encoded text stands for the text. */
  lemma {:induction false} UnquotedEscaped(escape: char, text: string)
    ensures Unquoted(escape, Escaped(escape, text)) == Some(text)
  {
    if text != [] {
      var c, rest := text[0], text[1..];
      EscapedFront(escape, text);
      UnquotedEscaped(escape, rest);
      var u := Escaped(escape, text);
      assert text == [c] + rest;
      if c == '"' || c == escape {
        assert u[0] == escape && u[1] == c && u[2..] == Escaped(escape, rest);
      } else {
        assert u[0] == c && u[1..] == Escaped(escape, rest);
      }
    }
  }

  lemma {:induction false} EscapedFront(escape: char, text: string)
    requires text != []
    ensures Escaped(escape, text) == EscapedChar(escape, text[0]) + Escaped(escape, text[1..])
  {
    if |text| > 1 {
      EscapedFront(escape, text[..|text| - 1]);
      assert text[..|text| - 1][1..] == text[1..][..|text| - 1 - 1];
    }
  }

  /** An escape character before a character that needs none is kept, wherever the input is cut. */
  lemma EscapeIsKept(cfg: Config, p: Parser, c: char, first: bool, first': bool)
    requires Apart(cfg) && NothingPending(p) && p.quoted && cfg.escape != '"' && c != '"' && c != cfg.escape
    ensures Feed(cfg, Feed(cfg, p, cfg.escape, first), c, first') == Longer(p, [cfg.escape, c])
  {
    hide EndPending;
    assert Feed(cfg, p, cfg.escape, first) == p.(escaping := true);
    assert p.field + [cfg.escape] + [c] == p.field + [cfg.escape, c];
  }

  lemma EscapeIsDropped(cfg: Config, p: Parser, c: char, first: bool, first': bool)
    requires Apart(cfg) && NothingPending(p) && p.quoted && (c == '"' || c == cfg.escape)
    ensures Feed(cfg, Feed(cfg, p, cfg.escape, first), c, first') == Longer(p, [c])
  {
    hide EndPending;
    assert Feed(cfg, p, cfg.escape, first) == p.(escaping := true);
  }

  lemma OrdinaryIsKept(cfg: Config, p: Parser, c: char, first: bool)
    requires Apart(cfg) && NothingPending(p) && p.quoted && c != '"' && c != cfg.escape
    ensures Feed(cfg, p, c, first) == Longer(p, [c])
  {
    hide EndPending;
  }

  /** Between quotes any characters that stand for a text are read as that text. */
  lemma {:induction false} QuotedIsRead(cfg: Config, p: Parser, u: string)
    requires Apart(cfg) && NothingPending(p) && p.quoted && u != [] && Unquoted(cfg.escape, u).Some?
    ensures FeedText(cfg, p, u) == Longer(p, Unquoted(cfg.escape, u).value)
    decreases |u|
  {
    hide FeedText, FeedAll, Feed, Apart, Unquoted;
    UnquotedFront(cfg.escape, u);
    var c, k := u[0], if u[0] == cfg.escape then 2 else 1;
    var head, rest := Head(cfg.escape, u), u[k..];
    if k == 2 {
      FeedTwo(cfg, p, c, u[1]);
      assert u == [c, u[1]] + rest;
      if u[1] == '"' || u[1] == cfg.escape {
        EscapeIsDropped(cfg, p, u[1], false, false);
      } else {
        EscapeIsKept(cfg, p, u[1], false, false);
      }
    } else {
      FeedOne(cfg, p, c);
      assert u == [c] + rest;
      OrdinaryIsKept(cfg, p, c, false);
    }
    FeedTextCat(cfg, p, u[..k], rest);
    assert u[..k] + rest == u && u[..k] == if k == 2 then [c, u[1]] else [c];
    if rest == [] {
      FeedNothing(cfg, Longer(p, head));
    } else {
      QuotedIsRead(cfg, Longer(p, head), rest);
    }
    LongerTwice(p, head, Unquoted(cfg.escape, rest).value);
  }

  /** What the first character stands for, or the first two if that is an escape character. */
  function Head(escape: char, u: string): string
    requires u != [] && (u[0] == escape ==> |u| > 1)
  {
    if u[0] != escape then [u[0]] else if u[1] == '"' || u[1] == escape then [u[1]] else [escape, u[1]]
  }

  lemma UnquotedFront(escape: char, u: string)
    requires u != [] && Unquoted(escape, u).Some?
    ensures u[0] == escape ==> |u| > 1 && (escape == '"' ==> u[1] == '"')
    ensures u[0] == '"' ==> escape == '"'
    ensures var rest := Unquoted(escape, u[if u[0] == escape then 2 else 1..]);
      rest.Some? && Unquoted(escape, u).value == Head(escape, u) + rest.value
    ensures Unquoted(escape, []) == Some([])
  {
  }

  lemma LongerTwice(p: Parser, a: string, b: string)
    ensures Longer(Longer(p, a), b) == Longer(p, a + b) && Longer(p, a + []) == Longer(p, a)
  {
    assert p.field + a + b == p.field + (a + b) && a + [] == a;
  }

  lemma FeedTwo(cfg: Config, p: Parser, c: char, d: char)
    ensures FeedText(cfg, p, [c, d]) == Feed(cfg, Feed(cfg, p, c, false), d, false)
  {
    hide Feed;
    assert [c, d][..1] == [c];
    FeedOne(cfg, p, c);
  }

  /** A quoted part may stand anywhere in a field: whatever follows it, but for a quote, it adds its text to what the
      field has already. */
  lemma QuotedPart(cfg: Config, p: Parser, u: string, c: char)
    requires Apart(cfg) && NothingPending(p) && !p.quoted && Unquoted(cfg.escape, u).Some? && c != '"'
    ensures FeedText(cfg, p, ['"'] + u + ['"', c]) == FeedText(cfg, Longer(p, Unquoted(cfg.escape, u).value), [c])
  {
    hide FeedText, FeedAll, Feed, Apart, Unquoted;
    var text := Unquoted(cfg.escape, u).value;
    var open := p.(quoted := true, afterFieldSep := false, afterRecordSep := false);
    FeedTextCat(cfg, p, ['"'] + u, ['"', c]);
    FeedTextCat(cfg, p, ['"'], u);
    FeedOne(cfg, p, '"');
    QuoteOpens(cfg, p);
    if u == [] {
      FeedNothing(cfg, open);
      UnquotedNothing(cfg.escape);
    } else {
      QuotedIsRead(cfg, open, u);
    }
    assert p.field + [] == p.field;
    FeedTwo(cfg, Longer(open, text), '"', c);
    FeedOne(cfg, Longer(p, text), c);
    QuoteCloses(cfg, Longer(p, text), c);
  }

  lemma UnquotedNothing(escape: char)
    ensures Unquoted(escape, []) == Some([])
  {
  }

  lemma QuoteOpens(cfg: Config, p: Parser)
    requires Apart(cfg) && NothingPending(p) && !p.quoted
    ensures Feed(cfg, p, '"', false) == p.(quoted := true, afterFieldSep := false, afterRecordSep := false)
  {
    hide EndPending;
  }

  lemma QuoteCloses(cfg: Config, p: Parser, c: char)
    requires Apart(cfg) && NothingPending(p) && !p.quoted && c != '"' && !p.afterFieldSep && !p.afterRecordSep
    ensures Feed(cfg, Feed(cfg, p.(quoted := true), '"', false), c, false) == Feed(cfg, p, c, false)
  {
    hide EndPending, EndRecord;
  }

  /** Outside quotes a carriage return ends the record just as a line feed does, whether or not one follows it. */
  lemma ReturnEndsRecord(cfg: Config, p: Parser, c: char)
    requires Apart(cfg) && NothingPending(p) && !p.quoted
    ensures FeedText(cfg, p, ['\r', '\n']) == FeedText(cfg, p, ['\n'])
    ensures c != '\n' ==> FeedText(cfg, p, ['\r', c]) == FeedText(cfg, p, ['\n', c])
  {
    hide FeedText, FeedAll, EndRecord;
    FeedTwo(cfg, p, '\r', '\n');
    FeedTwo(cfg, p, '\r', c);
    FeedTwo(cfg, p, '\n', c);
    FeedOne(cfg, p, '\n');
    assert Feed(cfg, p, '\r', false) == p.(newlining := true);
    EndKeeps(cfg, p);
  }

  lemma EndKeeps(cfg: Config, p: Parser)
    requires NothingPending(p)
    ensures p.(newlining := true).(newlining := false) == p
    ensures !EndRecord(cfg, p).escaping && !EndRecord(cfg, p).newlining
  {
  }

  /** Outside quotes a character without a meaning is added to the field; an escape character is one of them. */
  lemma PlainIsKept(cfg: Config, p: Parser, c: char, first: bool)
    requires NothingPending(p) && !p.quoted && c != cfg.comma && c != '\n' && c != '\r' && c != '"'
    ensures Feed(cfg, p, c, first) == Longer(p, [c])
  {
    hide EndPending;
  }

  // Lines of different width.

  /** A line with more or fewer fields than the lines before it is refused for that reason, wherever the input is cut
      and whatever follows; the fields before its last one have been reported. */
  lemma RaggedIsRefused(cfg: Config, records: seq<Record>, width: nat, last: Record, rest: string, chunks: seq<string>)
    requires Dialect(cfg) && width > 0 && records != [] && RecordsOk(cfg.comma, records, width) && NonEmpty(chunks)
    requires last.cells != [] && |last.cells| != width && CellsOk(cfg.comma, last.cells)
    requires Flatten(chunks)
      == Encode(cfg, records) + (EncodeLine(cfg, last.cells) + LineBreak(last.crlf)) + rest
    ensures ParseOutcome(cfg, chunks)
      == (InconsistentColumns, AllFields(records) + RowFields(|records|, last.cells[..|last.cells| - 1]))
  {
    hide FeedText, FeedAll, Feed, Encode, EncodeLine, LineBreak, CellsOk, AllFields, RowFields, ParseOutcome,
      FinishSpec;
    ChunksDoNotMatter(cfg, chunks);
    var text := Encode(cfg, records) + (EncodeLine(cfg, last.cells) + LineBreak(last.crlf));
    FeedTextCat(cfg, START, text, rest);
    RaggedText(cfg, records, width, last);
    TextErrorStays(cfg, FeedText(cfg, START, text), rest);
    ErrorOutcome(cfg, FeedText(cfg, START, text));
  }

  lemma ErrorOutcome(cfg: Config, p: Parser)
    requires p.error != Ok
    ensures OutcomeOf(FinishSpec(cfg, p)) == (p.error, p.calls)
  {
  }

  lemma RaggedText(cfg: Config, records: seq<Record>, width: nat, last: Record)
    requires Dialect(cfg) && width > 0 && records != [] && RecordsOk(cfg.comma, records, width)
    requires last.cells != [] && |last.cells| != width && CellsOk(cfg.comma, last.cells)
    ensures var p := FeedText(cfg, START, Encode(cfg, records) + (EncodeLine(cfg, last.cells) + LineBreak(last.crlf)));
      && p.error == InconsistentColumns
      && p.calls == AllFields(records) + RowFields(|records|, last.cells[..|last.cells| - 1])
  {
    hide FeedText, FeedAll, Feed, Encode, EncodeLine, LineBreak, CellsOk, EmittedAll, AllFields, RowFields, WithText;
    var n := |last.cells| - 1;
    var before := After(records, width);
    FeedTextCat(cfg, START, Encode(cfg, records), EncodeLine(cfg, last.cells) + LineBreak(last.crlf));
    FeedRecords(cfg, records, width);
    FeedTextCat(cfg, before, EncodeLine(cfg, last.cells), LineBreak(last.crlf));
    FeedLine(cfg, before, last.cells);
    EmittedAllIs(before, last.cells[..n]);
    RaggedBreak(cfg, EmittedAll(before, last.cells[..n]), last.cells[n], last.crlf);
  }

  lemma RaggedBreak(cfg: Config, p: Parser, c: Cell, crlf: bool)
    requires Dialect(cfg) && AtField(p) && p.afterFirstRow && p.numCols != p.col + 1
    ensures var q := FeedText(cfg, WithText(cfg, p, c), LineBreak(crlf));
      q.error == InconsistentColumns && q.calls == p.calls
  {
    hide FeedText, FeedAll, Feed, WithText;
    var q := WithText(cfg, p, c);
    FeedOne(cfg, q, '\n');
    FeedTwo(cfg, q, '\r', '\n');
    RaggedLine(cfg, p, c);
    RaggedReturn(cfg, p, c);
  }

  lemma RaggedLine(cfg: Config, p: Parser, c: Cell)
    requires Dialect(cfg) && AtField(p) && p.afterFirstRow && p.numCols != p.col + 1
    ensures var q := Feed(cfg, WithText(cfg, p, c), '\n', false); q.error == InconsistentColumns && q.calls == p.calls
  {
    hide EndPending;
  }

  lemma RaggedReturn(cfg: Config, p: Parser, c: Cell)
    requires Dialect(cfg) && AtField(p) && p.afterFirstRow && p.numCols != p.col + 1
    ensures var q := Feed(cfg, Feed(cfg, WithText(cfg, p, c), '\r', false), '\n', false);
      q.error == InconsistentColumns && q.calls == p.calls
  {
    var r := p.(field := c.text, newlining := true);
    var q := Feed(cfg, WithText(cfg, p, c), '\r', false);
    assert q == r.(afterFieldSep := q.afterFieldSep, afterRecordSep := q.afterRecordSep) by {
      hide EndRecord, EndPending;
    }
    hide WithText, Plain;
  }
}

/** What the CSV parser reports: a rectangle of fields in row order; and for RFC 4180 text, the fields it encodes. */
module CsvRecords {
  import opened CsvSpec
  import opened CsvProperties

  // Rectangles.

  /** Calls k0 + j are columns j of the given row. */
  ghost predicate RowFrom(calls: seq<Field>, k0: nat, row: nat) {
    forall k :: k0 <= k < |calls| ==> calls[k].row == row && calls[k].col == k - k0
  }

  /** The calls of complete rows: call k is column k % width of row k / width. */
  ghost predicate Rectangle(calls: seq<Field>, rows: nat, width: nat) {
    |calls| == rows * width && forall k :: 0 <= k < |calls| ==> InGrid(calls[k], k, width)
  }

  ghost predicate InGrid(f: Field, k: nat, width: nat) {
    f.col < width && f.row * width + f.col == k
  }

  /** Complete rows, then the fields of the row being read. */
  ghost predicate Grid(p: Parser) {
    && RowsThenFields(p.calls, p.row, p.col, p.numCols, p.afterFirstRow) && (p.afterRecordSep ==> p.col == 0)
    && (p.afterFieldSep ==> p.col > 0 || p.afterFirstRow)
  }

  ghost predicate RowsThenFields(calls: seq<Field>, row: nat, col: nat, numCols: nat, afterFirstRow: bool) {
    && col <= |calls|
    && Rectangle(calls[..|calls| - col], row, numCols)
    && RowFrom(calls, |calls| - col, row)
    && (afterFirstRow <==> row > 0) && (afterFirstRow <==> numCols > 0)
  }

  lemma EmitGrid(p: Parser)
    requires Grid(p)
    ensures Grid(EmitField(p).(col := p.col + 1, afterFieldSep := true, afterRecordSep := false))
  {
    var q := EmitField(p).(col := p.col + 1);
    assert q.calls[..|q.calls| - q.col] == p.calls[..|p.calls| - p.col];
  }

  /** A finished row of the right width extends the rectangle. */
  lemma RowCompletes(calls: seq<Field>, rows: nat, width: nat, k0: nat)
    requires k0 <= |calls| && Rectangle(calls[..k0], rows, width) && RowFrom(calls, k0, rows) && |calls| - k0 == width
    ensures Rectangle(calls, rows + 1, width)
  {
    assert (rows + 1) * width == rows * width + width;
    forall k | 0 <= k < |calls| ensures InGrid(calls[k], k, width) {
      if k < k0 { assert calls[..k0][k] == calls[k]; }
    }
  }

  /** The row being read is complete, with one more field or none. */
  lemma RowEnds(calls: seq<Field>, more: seq<Field>, row: nat, col: nat, numCols: nat, afterFirstRow: bool, count: nat)
    requires RowsThenFields(calls, row, col, numCols, afterFirstRow)
    requires count == col + |more| > 0 && (afterFirstRow ==> count == numCols)
    requires |more| <= 1 && forall k :: 0 <= k < |more| ==> more[k].row == row && more[k].col == col
    ensures RowsThenFields(calls + more, row + 1, 0, count, true)
  {
    var all, k0 := calls + more, |calls| - col;
    assert all[..k0] == calls[..k0] && all[..|all| - 0] == all;
    if afterFirstRow { RowCompletes(all, row, numCols, k0); } else { FirstRow(all, count, k0); }
  }

  lemma EndRecordGrid(cfg: Config, p: Parser)
    requires Grid(p)
    ensures EndRecord(cfg, p).error == Ok ==> Grid(EndRecord(cfg, p)) && EndRecord(cfg, p).col == 0
  {
    hide RowsThenFields;
    var q := EndRecord(cfg, p);
    if q.error == Ok {
      var more := if cfg.trailing then [] else [Field(p.col, p.row, p.field)];
      assert p.calls + [] == p.calls;
      NoFieldsYet(p);
      RowEnds(p.calls, more, p.row, p.col, p.numCols, p.afterFirstRow, ColumnCount(cfg, p));
    }
  }

  lemma NoFieldsYet(p: Parser)
    requires Grid(p)
    ensures p.afterFirstRow ==> p.numCols > 0
  {
  }

  lemma FirstRow(calls: seq<Field>, width: nat, k0: nat)
    requires k0 == 0 && RowFrom(calls, 0, 0) && |calls| == width
    ensures Rectangle(calls, 1, width)
  {
  }

  lemma PlainGrid(cfg: Config, p: Parser, c: char)
    requires Grid(p)
    ensures Plain(cfg, p, c).error == Ok ==> Grid(Plain(cfg, p, c))
  {
    if c == cfg.comma && !p.quoted {
      EmitGrid(p);
      hide EmitField, Grid;
    } else if c != cfg.comma && (c == '\n' || c == '\r') && !p.quoted {
      LineBreakGrid(cfg, p, c);
    } else {
      OtherGrid(cfg, p, c);
    }
  }

  lemma LineBreakGrid(cfg: Config, p: Parser, c: char)
    requires Grid(p) && c != cfg.comma && (c == '\n' || c == '\r') && !p.quoted
    ensures Plain(cfg, p, c).error == Ok ==> Grid(Plain(cfg, p, c))
  {
    EndRecordGrid(cfg, p);
    hide EndRecord, RowsThenFields;
  }

  lemma OtherGrid(cfg: Config, p: Parser, c: char)
    requires Grid(p) && (p.quoted || (c != cfg.comma && c != '\n' && c != '\r'))
    ensures Grid(Plain(cfg, p, c))
  {
    hide EndRecord, EmitField, RowsThenFields;
  }

  lemma ResolvedGrid(cfg: Config, p: Parser, c: char, first: bool)
    requires Grid(p)
    ensures Resolved(cfg, p, c, first).error == Ok ==> Grid(Resolved(cfg, p, c, first))
  {
    EndRecordGrid(cfg, p.(newlining := false));
    hide EndRecord, RowsThenFields;
  }

  lemma FeedGrid(cfg: Config, p: Parser, c: char, first: bool)
    requires Grid(p)
    ensures Feed(cfg, p, c, first).error == Ok ==> Grid(Feed(cfg, p, c, first))
  {
    ResolvedGrid(cfg, p, c, first);
    var q := Resolved(cfg, p, c, first);
    if q.error == Ok { PlainGrid(cfg, q, c); } else { PlainError(cfg, q, c); }
    hide Resolved, Plain, Takes, Grid;
  }

  lemma {:induction false} BufferGrid(cfg: Config, p: Parser, buffer: string, n: nat)
    requires Grid(p) && Consistent(p) && p.error == Ok && n <= |buffer|
    ensures FeedAll(cfg, p, buffer, n).error == Ok ==>
      Grid(FeedAll(cfg, p, buffer, n)) && Consistent(FeedAll(cfg, p, buffer, n))
  {
    hide Feed, Grid, Consistent;
    if n > 0 {
      BufferGrid(cfg, p, buffer, n - 1);
      var q := FeedAll(cfg, p, buffer, n - 1);
      if q.error == Ok {
        FeedGrid(cfg, q, buffer[n - 1], n == 1);
        FeedConsistent(cfg, q, buffer[n - 1], n == 1);
      } else {
        ErrorStays(cfg, p, buffer, n - 1, n);
      }
    }
  }

  lemma {:induction false} ChunksGrid(cfg: Config, chunks: seq<string>)
    requires NonEmpty(chunks)
    ensures var p := RunChunks(cfg, chunks); p.error == Ok ==> Grid(p) && Consistent(p)
  {
    hide FeedAll, Grid, Consistent;
    if chunks == [] {
      StartGrid();
    } else {
      var before, last := chunks[..|chunks| - 1], chunks[|chunks| - 1];
      ChunksGrid(cfg, before);
      var p := RunChunks(cfg, before);
      if p.error == Ok { BufferGrid(cfg, p, last, |last|); }
    }
  }

  lemma StartGrid()
    ensures Grid(START) && Consistent(START)
  {
  }

  lemma FinishGrid(cfg: Config, p: Parser)
    requires cfg.comma != '\n' && p.error == Ok && Grid(p) && Consistent(p)
    ensures var q := FinishSpec(cfg, p); q.error == Ok ==> Rectangle(q.calls, q.row, q.numCols)
  {
    hide EndRecord, RowsThenFields, FeedAll, Rectangle;
    if p.newlining {
      EndRecordGrid(cfg, p.(newlining := false));
    } else if !p.quoted && !p.afterRecordSep {
      FeedAllOne(cfg, p);
      EndRecordGrid(cfg, p);
    }
    var q := FinishSpec(cfg, p);
    if q.error == Ok { WholeRows(q.calls, q.row, q.numCols, q.afterFirstRow); }
  }

  lemma WholeRows(calls: seq<Field>, row: nat, numCols: nat, afterFirstRow: bool)
    requires RowsThenFields(calls, row, 0, numCols, afterFirstRow)
    ensures Rectangle(calls, row, numCols)
  {
    assert calls[..|calls| - 0] == calls;
  }

  /** An accepted input, however it was cut, was reported as whole rows of equally many fields, row by row and column
      by column. */
  lemma AcceptedIsRectangle(cfg: Config, chunks: seq<string>) returns (rows: nat, width: nat)
    requires cfg.comma != '\n' && NonEmpty(chunks) && ParseOutcome(cfg, chunks).0 == Ok
    ensures Rectangle(ParseOutcome(cfg, chunks).1, rows, width)
  {
    ChunksGrid(cfg, chunks);
    var p := RunChunks(cfg, chunks);
    AcceptedRun(cfg, p);
    FinishGrid(cfg, p);
    rows, width := FinishSpec(cfg, p).row, FinishSpec(cfg, p).numCols;
    hide RunChunks, FinishSpec, Rectangle;
  }

  lemma AcceptedRun(cfg: Config, p: Parser)
    requires FinishSpec(cfg, p).error == Ok
    ensures p.error == Ok
  {
    hide ExecuteSpec;
  }

  ghost predicate AlwaysRectangle(cfg: Config) {
    forall chunks :: NonEmpty(chunks) && ParseOutcome(cfg, chunks).0 == Ok ==>
      exists rows, width :: Rectangle(ParseOutcome(cfg, chunks).1, rows, width)
  }

  /** That is so exactly if the separator is not a line feed.  If it is, the line feed that finish supplies ends a
      field and not the record. */
  lemma RectangleIff(cfg: Config)
    ensures AlwaysRectangle(cfg) <==> cfg.comma != '\n'
  {
    hide ParseOutcome, Rectangle;
    if cfg.comma != '\n' {
      forall chunks | NonEmpty(chunks) && ParseOutcome(cfg, chunks).0 == Ok
        ensures exists rows, width :: Rectangle(ParseOutcome(cfg, chunks).1, rows, width)
      {
        var rows, width := AcceptedIsRectangle(cfg, chunks);
      }
    } else {
      var chunks := RaggedEnd(cfg);
      assert NonEmpty(chunks) && ParseOutcome(cfg, chunks).0 == Ok;
    }
  }

  /** With a line feed for separator: two or three fields, and one in a second row. */
  lemma RaggedEnd(cfg: Config) returns (chunks: seq<string>)
    requires cfg.comma == '\n'
    ensures NonEmpty(chunks) && ParseOutcome(cfg, chunks).0 == Ok
    ensures forall rows, width :: !Rectangle(ParseOutcome(cfg, chunks).1, rows, width)
  {
    var text := ['\n', '\n', '\r', 'c'];
    chunks := [text];
    RaggedRun(cfg, text);
    hide FeedAll, FinishSpec;
    assert RunChunks(cfg, chunks[..0]) == START;
    assert RunChunks(cfg, chunks) == FeedAll(cfg, START, text, 4);
    var calls := ParseOutcome(cfg, chunks).1;
    forall rows: nat, width: nat ensures !Rectangle(calls, rows, width) { NotRectangle(calls, rows, width); }
  }

  lemma RaggedRun(cfg: Config, text: string)
    requires cfg.comma == '\n' && text == ['\n', '\n', '\r', 'c']
    ensures var q := FinishSpec(cfg, FeedAll(cfg, START, text, 4)); q.error == Ok && Ragged(q.calls)
  {
    var one := Feed(cfg, START, '\n', true);
    var two := Feed(cfg, one, '\n', false);
    assert two == START.(calls := [Field(0, 0, ""), Field(1, 0, "")], col := 2, afterFieldSep := true);
    var three := Feed(cfg, two, '\r', false);
    assert three == two.(newlining := true);
    var four := Feed(cfg, three, 'c', false);
    assert FeedAll(cfg, START, text, 1) == one && FeedAll(cfg, START, text, 2) == two;
    assert FeedAll(cfg, START, text, 3) == three && FeedAll(cfg, START, text, 4) == four;
    assert FeedAll(cfg, four, ['\n'], 1) == Feed(cfg, four, '\n', true);
  }

  /** A first row of two or three fields, and one field of a second row. */
  ghost predicate Ragged(calls: seq<Field>) {
    var n := |calls| - 1;
    2 <= n <= 3 && calls[1].col == 1 && calls[1].row == 0 && calls[n].col == 0 && calls[n].row == 1
  }

  lemma NotRectangle(calls: seq<Field>, rows: nat, width: nat)
    requires Ragged(calls)
    ensures !Rectangle(calls, rows, width)
  {
    var n := |calls| - 1;
    assert InGrid(calls[n], n, width) ==> width == n;
    assert rows * n != n + 1 by { if n == 2 { assert rows * 2 != 3; } }
  }
}

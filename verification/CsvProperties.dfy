/** What CSV parsing promises: the input may be cut anywhere, an accepted input is a rectangle of fields in row order,
    and quoting undoes what RFC 4180 does. */
module CsvProperties {
  import opened Bags
  import opened CsvSpec
  import opened CsvParsing

  // Cutting the input.

  type Outcome = (Error, seq<Field>)

  function OutcomeOf(p: Parser): Outcome {
    (p.error, p.calls)
  }

  /** execute on every chunk, until one fails. */
  function RunChunks(cfg: Config, chunks: seq<string>): Parser {
    if chunks == [] then START else
      var p := RunChunks(cfg, chunks[..|chunks| - 1]);
      if p.error != Ok then p else ExecuteSpec(cfg, p, chunks[|chunks| - 1])
  }

  function ParseOutcome(cfg: Config, chunks: seq<string>): Outcome {
    OutcomeOf(FinishSpec(cfg, RunChunks(cfg, chunks)))
  }

  ghost predicate NonEmpty(chunks: seq<string>) {
    forall k :: 0 <= k < |chunks| ==> chunks[k] != []
  }

  /** The loader's loop: execute per chunk, then finish; the first error ends it. */
  method ParseAll(cfg: Config, chunks: seq<string>) returns (error: Error, calls: seq<Field>)
    requires NonEmpty(chunks)
    ensures (error, calls) == ParseOutcome(cfg, chunks)
  {
    hide ExecuteSpec;
    var parser := new CSVParser(cfg.escape, cfg.comma, cfg.trailing);
    assert RunChunks(cfg, chunks[..0]) == START;
    for k := 0 to |chunks|
      invariant fresh(parser) && parser.Cfg() == cfg && Consistent(parser.Now())
      invariant parser.Now() == RunChunks(cfg, chunks[..k])
    {
      assert chunks[..k + 1][..k] == chunks[..k];
      error := parser.Execute(chunks[k]);
      if error != Ok {
        ChunkErrorStays(cfg, chunks, k + 1);
        return error, parser.calls;
      }
    }
    assert chunks[..|chunks|] == chunks;
    error := parser.Finish();
    calls := parser.calls;
  }

  lemma {:induction false} ChunkErrorStays(cfg: Config, chunks: seq<string>, k: nat)
    requires k <= |chunks| && RunChunks(cfg, chunks[..k]).error != Ok
    ensures RunChunks(cfg, chunks) == RunChunks(cfg, chunks[..k])
    decreases |chunks| - k
  {
    if k < |chunks| {
      assert chunks[..k + 1][..k] == chunks[..k];
      ChunkErrorStays(cfg, chunks, k + 1);
    } else {
      assert chunks[..k] == chunks;
    }
  }

  /** All but the flag that only trailing separators need. */
  function Core(p: Parser): Parser {
    p.(afterFieldSep := false)
  }

  ghost predicate Same(p: Parser, q: Parser) {
    Core(p) == Core(q)
  }

  lemma EndRecordCore(cfg: Config, p: Parser)
    requires !cfg.trailing
    ensures Same(EndRecord(cfg, p), EndRecord(cfg, Core(p)))
  {
  }

  lemma PlainCore(cfg: Config, p: Parser, c: char)
    requires !cfg.trailing
    ensures Same(Plain(cfg, p, c), Plain(cfg, Core(p), c))
  {
    if c == cfg.comma {
      CommaCore(cfg, p);
    } else if c == '\n' || c == '\r' {
      LineBreakCore(cfg, p, c);
    } else {
      OtherCore(cfg, p, c);
    }
    hide Plain;
  }

  lemma CommaCore(cfg: Config, p: Parser)
    ensures Same(Plain(cfg, p, cfg.comma), Plain(cfg, Core(p), cfg.comma))
  {
  }

  lemma LineBreakCore(cfg: Config, p: Parser, c: char)
    requires !cfg.trailing && c != cfg.comma && (c == '\n' || c == '\r')
    ensures Same(Plain(cfg, p, c), Plain(cfg, Core(p), c))
  {
    EndRecordCore(cfg, p);
    hide EndRecord;
  }

  lemma OtherCore(cfg: Config, p: Parser, c: char)
    requires c != cfg.comma && c != '\n' && c != '\r'
    ensures Same(Plain(cfg, p, c), Plain(cfg, Core(p), c))
  {
    hide EndRecord, EmitField;
    assert Same(PushChar(p, c), PushChar(Core(p), c));
    hide PushChar;
  }

  lemma ResolvedCore(cfg: Config, p: Parser, c: char, f: bool)
    requires !cfg.trailing
    ensures Same(Resolved(cfg, p, c, f), Resolved(cfg, Core(p), c, false))
  {
    EndRecordCore(cfg, p.(newlining := false));
    hide EndRecord;
    assert Core(p).(newlining := false) == Core(p.(newlining := false));
  }

  lemma PlainSame(cfg: Config, p: Parser, q: Parser, c: char)
    requires !cfg.trailing && Same(p, q)
    ensures Same(Plain(cfg, p, c), Plain(cfg, q, c))
  {
    PlainCore(cfg, p, c);
    PlainCore(cfg, q, c);
    hide Plain, Core;
  }

  lemma FeedSame(cfg: Config, p: Parser, q: Parser, c: char, f: bool, g: bool)
    requires !cfg.trailing && Same(p, q)
    ensures Same(Feed(cfg, p, c, f), Feed(cfg, q, c, g))
  {
    ResolvedCore(cfg, p, c, f);
    ResolvedCore(cfg, q, c, g);
    assert Takes(cfg, p, c) == Takes(cfg, q, c) && p.error == q.error;
    hide Plain, Resolved, Core, Takes;
    PlainSame(cfg, Resolved(cfg, p, c, f), Resolved(cfg, q, c, g), c);
  }

  /** The whole text, one character after the other. */
  function FeedText(cfg: Config, p: Parser, text: string): Parser {
    if text == [] then p else Feed(cfg, FeedText(cfg, p, text[..|text| - 1]), text[|text| - 1], false)
  }

  lemma {:induction false} FeedTextCat(cfg: Config, p: Parser, a: string, b: string)
    ensures FeedText(cfg, p, a + b) == FeedText(cfg, FeedText(cfg, p, a), b)
  {
    if b == [] {
      assert a + b == a;
    } else {
      FeedTextCat(cfg, p, a, b[..|b| - 1]);
      assert (a + b)[..|a + b| - 1] == a + b[..|b| - 1];
    }
  }

  lemma {:induction false} FeedAllSame(cfg: Config, p: Parser, q: Parser, buffer: string, n: nat)
    requires !cfg.trailing && Same(p, q) && n <= |buffer|
    ensures Same(FeedAll(cfg, p, buffer, n), FeedText(cfg, q, buffer[..n]))
  {
    hide Feed;
    if n > 0 {
      FeedAllSame(cfg, p, q, buffer, n - 1);
      FeedSame(cfg, FeedAll(cfg, p, buffer, n - 1), FeedText(cfg, q, buffer[..n - 1]), buffer[n - 1], n == 1, false);
      assert buffer[..n][..n - 1] == buffer[..n - 1];
    }
  }

  lemma {:induction false} TextErrorStays(cfg: Config, p: Parser, text: string)
    requires p.error != Ok
    ensures FeedText(cfg, p, text) == p
  {
    if text != [] { TextErrorStays(cfg, p, text[..|text| - 1]); }
  }

  lemma {:induction false} RunChunksSame(cfg: Config, chunks: seq<string>)
    requires !cfg.trailing && NonEmpty(chunks)
    ensures Same(RunChunks(cfg, chunks), FeedText(cfg, START, Flatten(chunks)))
  {
    hide Feed;
    if chunks != [] {
      var before, last := chunks[..|chunks| - 1], chunks[|chunks| - 1];
      RunChunksSame(cfg, before);
      FeedTextCat(cfg, START, Flatten(before), last);
      var p, q := RunChunks(cfg, before), FeedText(cfg, START, Flatten(before));
      if p.error != Ok {
        TextErrorStays(cfg, q, last);
      } else {
        FeedAllSame(cfg, p, q, last, |last|);
        assert last[..|last|] == last;
      }
    }
  }

  lemma FinishSame(cfg: Config, p: Parser, q: Parser)
    requires !cfg.trailing && Same(p, q)
    ensures Same(FinishSpec(cfg, p), FinishSpec(cfg, q))
  {
    FeedSame(cfg, p, q, '\n', true, true);
    FeedAllOne(cfg, p);
    FeedAllOne(cfg, q);
    EndPendingSame(cfg, p, q);
    hide Feed, EndPending, FeedAll;
  }

  /** What finish feeds when it supplies a line break. */
  lemma FeedAllOne(cfg: Config, p: Parser)
    ensures FeedAll(cfg, p, ['\n'], 1) == Feed(cfg, p, '\n', true)
  {
    hide Feed;
  }

  lemma EndPendingSame(cfg: Config, p: Parser, q: Parser)
    requires !cfg.trailing && Same(p, q)
    ensures Same(EndPending(cfg, p, true), EndPending(cfg, q, true))
  {
    EndRecordCore(cfg, p.(newlining := false));
    EndRecordCore(cfg, q.(newlining := false));
    hide EndRecord;
    assert Core(p).(newlining := false) == Core(p.(newlining := false));
    assert Core(q).(newlining := false) == Core(q.(newlining := false));
  }

  // A carriage return as separator: it never leaves the end of a record pending.

  lemma FeedNotPending(cfg: Config, p: Parser, c: char, first: bool)
    requires cfg.comma == '\r' && !p.newlining
    ensures Feed(cfg, p, c, first) == Feed(cfg, p, c, false) && !Feed(cfg, p, c, first).newlining
  {
    UnescapedNotPending(cfg, p, c);
    PlainNotPending(cfg, p, c);
    PlainNotPending(cfg, Unescaped(cfg, p, c), c);
    hide Unescaped, Plain, EndPending;
  }

  lemma UnescapedNotPending(cfg: Config, p: Parser, c: char)
    ensures Unescaped(cfg, p, c).newlining == p.newlining
  {
  }

  lemma PlainNotPending(cfg: Config, p: Parser, c: char)
    requires cfg.comma == '\r' && !p.newlining
    ensures !Plain(cfg, p, c).newlining
  {
  }

  lemma {:induction false} FeedAllText(cfg: Config, p: Parser, buffer: string, n: nat)
    requires cfg.comma == '\r' && !p.newlining && n <= |buffer|
    ensures FeedAll(cfg, p, buffer, n) == FeedText(cfg, p, buffer[..n]) && !FeedAll(cfg, p, buffer, n).newlining
  {
    hide Feed;
    if n > 0 {
      FeedAllText(cfg, p, buffer, n - 1);
      FeedNotPending(cfg, FeedAll(cfg, p, buffer, n - 1), buffer[n - 1], n == 1);
      assert buffer[..n][..n - 1] == buffer[..n - 1];
    }
  }

  lemma {:induction false} RunChunksText(cfg: Config, chunks: seq<string>)
    requires cfg.comma == '\r' && NonEmpty(chunks)
    ensures RunChunks(cfg, chunks) == FeedText(cfg, START, Flatten(chunks)) && !RunChunks(cfg, chunks).newlining
  {
    hide Feed, FeedAll;
    if chunks != [] {
      var before, last := chunks[..|chunks| - 1], chunks[|chunks| - 1];
      RunChunksText(cfg, before);
      FeedTextCat(cfg, START, Flatten(before), last);
      var p := RunChunks(cfg, before);
      if p.error != Ok { TextErrorStays(cfg, p, last); } else { FeedAllText(cfg, p, last, |last|); }
      assert last[..|last|] == last;
    }
  }

  /** Without trailing separators, or if the separator is a carriage return, the outcome depends on the text alone, not
      on where it was cut. */
  lemma ChunksDoNotMatter(cfg: Config, chunks: seq<string>)
    requires (!cfg.trailing || cfg.comma == '\r') && NonEmpty(chunks)
    ensures ParseOutcome(cfg, chunks) == OutcomeOf(FinishSpec(cfg, FeedText(cfg, START, Flatten(chunks))))
  {
    if cfg.trailing {
      RunChunksText(cfg, chunks);
    } else {
      RunChunksSame(cfg, chunks);
      FinishSame(cfg, RunChunks(cfg, chunks), FeedText(cfg, START, Flatten(chunks)));
    }
    hide FinishSpec, RunChunks;
  }

  ghost predicate CutAnywhere(cfg: Config) {
    forall a, b :: NonEmpty(a) && NonEmpty(b) && Flatten(a) == Flatten(b) ==>
      ParseOutcome(cfg, a) == ParseOutcome(cfg, b)
  }

  /** With trailing separators it does matter, if carriage returns end records: after one at the end of a chunk the
      separator flag survives, and the empty second line is reported as a wrong number of columns. */
  lemma TrailingChunks(cfg: Config) returns (a: seq<string>, b: seq<string>)
    requires cfg.trailing && cfg.comma != '\r'
    ensures NonEmpty(a) && NonEmpty(b) && Flatten(a) == Flatten(b)
    ensures ParseOutcome(cfg, a).0 == NoTrailingComma && ParseOutcome(cfg, b).0 == InconsistentColumns
  {
    var text := [cfg.comma, '\r', '\r', '\r'];
    a, b := [text], [text[..2], text[2..]];
    FlattenPieces(text);
    WholeRun(cfg, text);
    CutRun(cfg, text);
  }

  lemma FlattenPieces(text: string)
    requires |text| == 4
    ensures Flatten([text]) == Flatten([text[..2], text[2..]])
  {
    assert [text][..0] == [];
    var b := [text[..2], text[2..]];
    assert b[..1] == [text[..2]];
    assert [text[..2]][..0] == [];
  }

  lemma AfterSeparator(cfg: Config)
    requires cfg.trailing && cfg.comma != '\r'
    ensures var p := Feed(cfg, Feed(cfg, START, cfg.comma, true), '\r', false);
      && p.error == Ok && !p.escaping && p.newlining && !p.quoted && p.col == 1 && p.afterFieldSep && !p.afterFirstRow
  {
  }

  lemma WholeRun(cfg: Config, text: string)
    requires cfg.trailing && cfg.comma != '\r' && text == [cfg.comma, '\r', '\r', '\r']
    ensures ParseOutcome(cfg, [text]).0 == NoTrailingComma
  {
    AfterSeparator(cfg);
    assert FeedAll(cfg, START, text, 1) == Feed(cfg, START, cfg.comma, true);
    var p := FeedAll(cfg, START, text, 2);
    assert p == Feed(cfg, FeedAll(cfg, START, text, 1), '\r', false);
    var q := FeedAll(cfg, START, text, 3);
    assert q == Feed(cfg, p, '\r', false) && !q.afterFieldSep && q.error == Ok && q.newlining && !q.escaping;
    assert FeedAll(cfg, START, text, 4).error == NoTrailingComma;
    assert RunChunks(cfg, [text][..0]) == START;
  }

  lemma CutRun(cfg: Config, text: string)
    requires cfg.trailing && cfg.comma != '\r' && text == [cfg.comma, '\r', '\r', '\r']
    ensures ParseOutcome(cfg, [text[..2], text[2..]]).0 == InconsistentColumns
  {
    AfterSeparator(cfg);
    var b := [text[..2], text[2..]];
    assert b[..1] == [text[..2]] && b[..1][..0] == [];
    assert FeedAll(cfg, START, text[..2], 1) == Feed(cfg, START, cfg.comma, true);
    var p := FeedAll(cfg, START, text[..2], 2);
    assert p == Feed(cfg, FeedAll(cfg, START, text[..2], 1), '\r', false);
    assert RunChunks(cfg, b[..1]) == p;
    assert FeedAll(cfg, p, text[2..], 0) == p;
    var q := FeedAll(cfg, p, text[2..], 1);
    assert q == Feed(cfg, p, '\r', true) && q.afterFieldSep && q.numCols == 1 && q.col == 0 && q.newlining;
    assert FeedAll(cfg, p, text[2..], 2).error == InconsistentColumns;
  }

  /** The input may be cut anywhere exactly if the format has no trailing separators, or if its separator is a carriage
      return, which then ends no record. */
  lemma CutAnywhereIff(cfg: Config)
    ensures CutAnywhere(cfg) <==> !cfg.trailing || cfg.comma == '\r'
  {
    hide ParseOutcome;
    if cfg.trailing && cfg.comma != '\r' {
      var a, b := TrailingChunks(cfg);
      assert ParseOutcome(cfg, a) != ParseOutcome(cfg, b);
    } else {
      forall a, b | NonEmpty(a) && NonEmpty(b) && Flatten(a) == Flatten(b)
        ensures ParseOutcome(cfg, a) == ParseOutcome(cfg, b)
      {
        ChunksDoNotMatter(cfg, a);
        ChunksDoNotMatter(cfg, b);
      }
    }
  }
}

/** The CSV parser as a machine that takes one character at a time and never looks ahead: what a following character
    must decide is kept pending. */
module CsvSpec {
  datatype Error = Ok | QuoteNotClosed | InconsistentColumns | NoTrailingComma

  /** trailing: every field, the last of a record too, is followed by a separator. */
  datatype Config = Config(escape: char, comma: char, trailing: bool)

  /** One on_field call. */
  datatype Field = Field(col: nat, row: nat, text: string)

  datatype Parser = Parser(
    field: string, col: nat, row: nat, numCols: nat, afterFirstRow: bool, quoted: bool,
    afterFieldSep: bool, afterRecordSep: bool, escaping: bool, newlining: bool,
    calls: seq<Field>, error: Error)

  const START: Parser := Parser([], 0, 0, 0, false, false, false, false, false, false, [], Ok)

  function PushChar(p: Parser, c: char): Parser {
    p.(field := p.field + [c], afterFieldSep := false, afterRecordSep := false)
  }

  function EmitField(p: Parser): Parser {
    p.(calls := p.calls + [Field(p.col, p.row, p.field)], field := [])
  }

  /** The number of columns of the record that ends here. */
  function ColumnCount(cfg: Config, p: Parser): nat {
    if cfg.trailing then p.col else p.col + 1
  }

  function EndRecord(cfg: Config, p: Parser): Parser {
    if cfg.trailing && !p.afterFieldSep then p.(error := NoTrailingComma)
    else if p.afterFirstRow && ColumnCount(cfg, p) != p.numCols then p.(error := InconsistentColumns)
    else (if cfg.trailing then p else EmitField(p))
      .(numCols := ColumnCount(cfg, p), afterFirstRow := true, col := 0, row := p.row + 1, afterRecordSep := true)
  }

  /** A character when nothing is pending. */
  function Plain(cfg: Config, p: Parser, c: char): Parser {
    if p.error != Ok then p
    else if c == cfg.comma then
      if p.quoted then PushChar(p, c)
      else EmitField(p).(col := p.col + 1, afterFieldSep := true, afterRecordSep := false)
    else if c == '\n' || c == '\r' then
      if p.quoted then PushChar(p, c)
      else if c == '\r' then p.(newlining := true)
      else EndRecord(cfg, p).(afterFieldSep := false)
    else if c == '"' then
      if cfg.escape == '"' && p.quoted then p.(escaping := true)
      else p.(quoted := !p.quoted, afterFieldSep := false, afterRecordSep := false)
    else if c == cfg.escape && p.quoted then p.(escaping := true)
    else PushChar(p, c)
  }

  /** What was pending has been decided by the next character, c.  first: c is the first of its buffer; only if the
      carriage return was in the same buffer does the end of its record clear the separator flag. */
  function Resolved(cfg: Config, p: Parser, c: char, first: bool): Parser {
    if p.escaping then Unescaped(cfg, p, c) else if p.newlining then EndPending(cfg, p, first) else p
  }

  function Unescaped(cfg: Config, p: Parser, c: char): Parser {
    var q := p.(escaping := false, afterFieldSep := false, afterRecordSep := false);
    if cfg.escape == '"' then
      if c == '"' then q.(field := q.field + [c]) else q.(quoted := false)
    else
      q.(field := q.field + [if c == '"' || c == cfg.escape then c else cfg.escape])
  }

  function EndPending(cfg: Config, p: Parser, first: bool): Parser {
    var q := EndRecord(cfg, p.(newlining := false));
    if first then q else q.(afterFieldSep := false)
  }

  /** Whether c is used up by what was pending. */
  predicate Takes(cfg: Config, p: Parser, c: char) {
    (p.escaping && (c == '"' || (cfg.escape != '"' && c == cfg.escape))) || (!p.escaping && p.newlining && c == '\n')
  }

  function Feed(cfg: Config, p: Parser, c: char, first: bool): Parser {
    if p.error != Ok then p
    else if Takes(cfg, p, c) then Resolved(cfg, p, c, first)
    else Plain(cfg, Resolved(cfg, p, c, first), c)
  }

  /** The first n characters of a buffer. */
  function FeedAll(cfg: Config, p: Parser, buffer: string, n: nat): Parser
    requires n <= |buffer|
  {
    if n == 0 then p else Feed(cfg, FeedAll(cfg, p, buffer, n - 1), buffer[n - 1], n == 1)
  }

  /** What execute does with a buffer; an empty one completes a record that a carriage return announced. */
  function ExecuteSpec(cfg: Config, p: Parser, buffer: string): Parser {
    if buffer == [] && p.newlining then EndPending(cfg, p, true) else FeedAll(cfg, p, buffer, |buffer|)
  }

  function FinishSpec(cfg: Config, p: Parser): Parser {
    if p.error != Ok then p
    else if p.quoted then p.(error := QuoteNotClosed)
    else if p.newlining then ExecuteSpec(cfg, p, [])
    else if !p.afterRecordSep then ExecuteSpec(cfg, p, ['\n'])
    else p
  }

  lemma {:induction false} ErrorStays(cfg: Config, p: Parser, buffer: string, m: nat, n: nat)
    requires m <= n <= |buffer| && FeedAll(cfg, p, buffer, m).error != Ok
    ensures FeedAll(cfg, p, buffer, n) == FeedAll(cfg, p, buffer, m)
    decreases n - m
  {
    if m < n { ErrorStays(cfg, p, buffer, m, n - 1); }
  }

  // What every run keeps.

  ghost predicate Consistent(p: Parser) {
    && !(p.escaping && p.newlining) && (p.escaping ==> p.quoted) && (p.newlining ==> !p.quoted)
    && (p.quoted ==> !p.afterFieldSep && !p.afterRecordSep)
  }

  lemma PlainConsistent(cfg: Config, p: Parser, c: char)
    requires Consistent(p) && !p.escaping && !p.newlining
    ensures Plain(cfg, p, c).error == Ok ==> Consistent(Plain(cfg, p, c))
  {
  }

  lemma ResolvedConsistent(cfg: Config, p: Parser, c: char, first: bool)
    requires Consistent(p)
    ensures var q := Resolved(cfg, p, c, first); q.error == Ok ==> Consistent(q) && !q.escaping && !q.newlining
  {
  }

  lemma FeedConsistent(cfg: Config, p: Parser, c: char, first: bool)
    requires Consistent(p)
    ensures Feed(cfg, p, c, first).error == Ok ==> Consistent(Feed(cfg, p, c, first))
  {
    ResolvedConsistent(cfg, p, c, first);
    var q := Resolved(cfg, p, c, first);
    if q.error == Ok { PlainConsistent(cfg, q, c); }
    hide Consistent, Resolved;
  }

  // Looking ahead.

  predicate Pending(p: Parser) {
    p.escaping || p.newlining
  }

  /** One turn of the byte loop: a character, and its successor if that is needed and in the buffer. */
  function Advance(cfg: Config, p: Parser, buffer: string, i: nat): (Parser, nat)
    requires i < |buffer|
  {
    var q := Plain(cfg, p, buffer[i]);
    if Pending(q) && i + 1 < |buffer|
    then (Resolved(cfg, q, buffer[i + 1], false), if Takes(cfg, q, buffer[i + 1]) then i + 2 else i + 1)
    else (q, i + 1)
  }

  /** The loop state p at position i stands for having fed the buffer up to there. */
  ghost predicate At(cfg: Config, p0: Parser, buffer: string, i: nat, p: Parser) {
    i <= |buffer| && if i < |buffer| then !Pending(p) && FeedAll(cfg, p0, buffer, i + 1) == Plain(cfg, p, buffer[i])
    else FeedAll(cfg, p0, buffer, i) == p
  }

  /** Looking ahead comes to the same as keeping the decision pending. */
  lemma AdvanceIs(cfg: Config, p0: Parser, buffer: string, i: nat, p: Parser)
    requires i < |buffer| && At(cfg, p0, buffer, i, p) && p.error == Ok
    ensures i < Advance(cfg, p, buffer, i).1 <= |buffer|
    ensures var (q, i') := Advance(cfg, p, buffer, i);
      if q.error == Ok then At(cfg, p0, buffer, i', q)
      else FeedAll(cfg, p0, buffer, |buffer|).error == q.error && FeedAll(cfg, p0, buffer, |buffer|).calls == q.calls
  {
    var q := Plain(cfg, p, buffer[i]);
    PlainPending(cfg, p, buffer[i]);
    hide Plain, Resolved, Takes;
    if q.error != Ok {
      ErrorStays(cfg, p0, buffer, i + 1, |buffer|);
    } else if Pending(q) && i + 1 < |buffer| {
      LookAheadIs(cfg, p0, buffer, i, q);
    } else if i + 1 < |buffer| {
      hide Feed;
      FeedPlain(cfg, q, buffer[i + 1], false);
      assert FeedAll(cfg, p0, buffer, i + 2) == Feed(cfg, q, buffer[i + 1], false);
    }
  }

  /** The character behind one that waits for it. */
  lemma LookAheadIs(cfg: Config, p0: Parser, buffer: string, i: nat, q: Parser)
    requires i + 1 < |buffer| && FeedAll(cfg, p0, buffer, i + 1) == q && q.error == Ok
    requires Pending(q) && !(q.escaping && q.newlining)
    ensures var r := Resolved(cfg, q, buffer[i + 1], false);
      if r.error == Ok then At(cfg, p0, buffer, if Takes(cfg, q, buffer[i + 1]) then i + 2 else i + 1, r)
      else FeedAll(cfg, p0, buffer, |buffer|).error == r.error && FeedAll(cfg, p0, buffer, |buffer|).calls == r.calls
  {
    hide Plain, Resolved, Takes;
    var c := buffer[i + 1];
    var r := Resolved(cfg, q, c, false);
    assert FeedAll(cfg, p0, buffer, i + 2) == Feed(cfg, q, c, false);
    ResolvedPending(cfg, q, c, false);
    if r.error != Ok {
      PlainError(cfg, r, c);
      ErrorStays(cfg, p0, buffer, i + 2, |buffer|);
    } else if Takes(cfg, q, c) && i + 2 < |buffer| {
      FeedPlain(cfg, r, buffer[i + 2], false);
      assert FeedAll(cfg, p0, buffer, i + 3) == Feed(cfg, r, buffer[i + 2], false);
    }
  }

  lemma PlainPending(cfg: Config, p: Parser, c: char)
    requires !Pending(p)
    ensures Plain(cfg, p, c).error != Ok ==> !Pending(Plain(cfg, p, c))
    ensures !(Plain(cfg, p, c).escaping && Plain(cfg, p, c).newlining)
  {
  }

  lemma ResolvedPending(cfg: Config, p: Parser, c: char, first: bool)
    requires !(p.escaping && p.newlining)
    ensures !Pending(Resolved(cfg, p, c, first))
  {
  }

  lemma PlainError(cfg: Config, p: Parser, c: char)
    requires p.error != Ok
    ensures Plain(cfg, p, c) == p
  {
  }

  lemma FeedPlain(cfg: Config, p: Parser, c: char, first: bool)
    requires !Pending(p) && p.error == Ok
    ensures Feed(cfg, p, c, first) == Plain(cfg, p, c)
  {
  }

  /** The state in which the byte loop starts, at position 1 if what was pending used up the first character. */
  function Resumed(cfg: Config, p: Parser, buffer: string): Parser {
    if buffer != [] then Resolved(cfg, p, buffer[0], true) else if p.newlining then EndPending(cfg, p, true) else p
  }

  lemma ResumeIs(cfg: Config, p: Parser, buffer: string, r: Parser)
    requires p.error == Ok && Consistent(p) && (p.escaping ==> buffer != []) && r == Resumed(cfg, p, buffer)
    ensures r.error == Ok && buffer != [] ==> At(cfg, p, buffer, if Takes(cfg, p, buffer[0]) then 1 else 0, r)
    ensures r.error == Ok && buffer == [] ==> ExecuteSpec(cfg, p, buffer) == r
    ensures r.error != Ok ==>
      ExecuteSpec(cfg, p, buffer).error == r.error && ExecuteSpec(cfg, p, buffer).calls == r.calls
  {
    if buffer != [] {
      var c := buffer[0];
      assert FeedAll(cfg, p, buffer, 1) == Feed(cfg, p, c, true);
      ResolvedPending(cfg, p, c, true);
      hide Plain, Resolved, Takes, EndPending;
      if r.error != Ok {
        PlainError(cfg, r, c);
        ErrorStays(cfg, p, buffer, 1, |buffer|);
      } else if Takes(cfg, p, c) && 1 < |buffer| {
        FeedPlain(cfg, r, buffer[1], false);
      }
    }
  }

  lemma {:induction false} FeedAllConsistent(cfg: Config, p: Parser, buffer: string, n: nat)
    requires Consistent(p) && p.error == Ok && n <= |buffer|
    ensures FeedAll(cfg, p, buffer, n).error == Ok ==> Consistent(FeedAll(cfg, p, buffer, n))
  {
    hide Consistent;
    if n > 0 {
      FeedAllConsistent(cfg, p, buffer, n - 1);
      var q := FeedAll(cfg, p, buffer, n - 1);
      if q.error == Ok { FeedConsistent(cfg, q, buffer[n - 1], n == 1); }
    }
  }

  lemma ExecuteConsistent(cfg: Config, p: Parser, buffer: string)
    requires Consistent(p) && p.error == Ok
    ensures ExecuteSpec(cfg, p, buffer).error == Ok ==> Consistent(ExecuteSpec(cfg, p, buffer))
  {
    FeedAllConsistent(cfg, p, buffer, |buffer|);
  }
}

/** CSVParser: a byte loop over each buffer, with look-ahead inside the buffer and flags across buffers. */
module CsvParsing {
  import opened CsvSpec

  class CSVParser {
    const escape: char
    const comma: char
    const hasTrailingComma: bool
    var currentField: string
    var colIdx: nat
    var rowIdx: nat
    var numCols: nat
    var afterFirstRow: bool
    var quoted: bool
    var afterFieldSep: bool
    var afterRecordSep: bool
    var escaping: bool
    var newlining: bool
    var calls: seq<Field>                       // the on_field calls made so far

    constructor (escape: char, comma: char, hasTrailingComma: bool)
      ensures Cfg() == Config(escape, comma, hasTrailingComma) && Now() == START
    {
      this.escape, this.comma, this.hasTrailingComma := escape, comma, hasTrailingComma;
      currentField, colIdx, rowIdx, numCols, calls := [], 0, 0, 0, [];
      afterFirstRow, quoted, afterFieldSep, afterRecordSep, escaping, newlining :=
        false, false, false, false, false, false;
    }

    function Cfg(): Config {
      Config(escape, comma, hasTrailingComma)
    }

    /** The parser's fields as a value. */
    function Now(): Parser
      reads this
    {
      Parser(currentField, colIdx, rowIdx, numCols, afterFirstRow, quoted, afterFieldSep, afterRecordSep, escaping,
        newlining, calls, Ok)
    }

    /** After a call the fields are those of p, or the call reported p's error. */
    ghost predicate Reaches(p: Parser, error: Error)
      reads this
    {
      error == p.error && calls == p.calls && (p.error == Ok ==> Now() == p)
    }

    method OnField()
      modifies this
      ensures Now() == EmitField(old(Now()))
    {
      calls := calls + [Field(colIdx, rowIdx, currentField)];
      currentField := [];
    }

    method EndOfRecord() returns (error: Error)
      modifies this
      ensures Reaches(EndRecord(Cfg(), old(Now())), error)
    {
      if hasTrailingComma {
        if !afterFieldSep { return NoTrailingComma; }
        if !afterFirstRow {
          afterFirstRow, numCols := true, colIdx;
        } else if colIdx != numCols {
          return InconsistentColumns;
        }
      } else {
        if !afterFirstRow {
          afterFirstRow, numCols := true, colIdx + 1;
        } else if colIdx + 1 != numCols {
          return InconsistentColumns;
        }
        OnField();
      }
      colIdx, rowIdx, afterRecordSep := 0, rowIdx + 1, true;
      error := Ok;
    }

    /** The first character of a buffer, after an escape character at the end of the one before. */
    method ResumeEscape(c: char) returns (i: nat)
      requires Consistent(Now()) && escaping
      modifies this
      ensures i == if Takes(Cfg(), old(Now()), c) then 1 else 0
      ensures Now() == Unescaped(Cfg(), old(Now()), c)
    {
      i := 0;
      if escape == '"' {
        if c == '"' {
          i := 1;
          currentField := currentField + ['"'];
        } else {
          quoted := false;
        }
      } else {
        if c == '"' || c == escape {
          currentField := currentField + [c];
          i := 1;
        } else {
          currentField := currentField + [escape];
        }
      }
      escaping := false;
    }

    /** A buffer after one that ended in a carriage return. */
    method ResumeNewline(buffer: string) returns (i: nat, error: Error)
      requires newlining && !escaping
      modifies this
      ensures i == if |buffer| > 0 && Takes(Cfg(), old(Now()), buffer[0]) then 1 else 0
      ensures Reaches(EndPending(Cfg(), old(Now()), true), error)
    {
      i := if |buffer| > 0 && buffer[0] == '\n' then 1 else 0;
      error := EndOfRecord();
      if error == Ok { newlining := false; }
    }

    /** The turn for a line break outside quotes: LF, CR or CR LF. */
    method LineBreak(buffer: string, i: nat) returns (i': nat, error: Error)
      requires i < |buffer| && !escaping && !newlining && !quoted
      requires buffer[i] != comma && (buffer[i] == '\n' || buffer[i] == '\r')
      modifies this
      ensures Reaches(Advance(Cfg(), old(Now()), buffer, i).0, error)
      ensures error == Ok ==> i' == Advance(Cfg(), old(Now()), buffer, i).1
    {
      i', error := i + 1, Ok;
      if buffer[i] == '\r' {
        if i + 1 == |buffer| {
          newlining := true;
          return;
        }
        if buffer[i + 1] == '\n' { i' := i + 2; }
      }
      hide EndRecord;
      error := EndOfRecord();
      if error == Ok { afterFieldSep := false; }
    }

    /** One turn of the byte loop. */
    method Turn(buffer: string, i: nat) returns (i': nat, error: Error)
      requires i < |buffer| && !escaping && !newlining
      modifies this
      ensures Reaches(Advance(Cfg(), old(Now()), buffer, i).0, error)
      ensures error == Ok ==> i' == Advance(Cfg(), old(Now()), buffer, i).1
    {
      i', error := i + 1, Ok;
      var setAfterFieldSep := false;
      var c := buffer[i];
      if c != comma && c != '\n' && c != '\r' && c != '"' && c != escape {
        currentField := currentField + [c];
      } else if c == comma {
        if !quoted {
          OnField();
          colIdx := colIdx + 1;
          setAfterFieldSep := true;
        } else {
          currentField := currentField + [c];
        }
      } else if c == '\n' || c == '\r' {
        if !quoted {
          i', error := LineBreak(buffer, i);
          return;
        } else {
          currentField := currentField + [c];
        }
      } else if c == '"' {
        if escape == '"' {
          if !quoted {
            quoted := true;
          } else {
            if i + 1 == |buffer| {
              escaping := true;
              return;
            }
            if buffer[i + 1] == '"' {
              i' := i + 2;
              currentField := currentField + [c];
            } else {
              quoted := false;
            }
          }
        } else {
          quoted := !quoted;
        }
      } else {
        if quoted {
          if i + 1 == |buffer| {
            escaping := true;
            return;
          }
          var d := buffer[i + 1];
          if d == '"' || d == escape {
            currentField := currentField + [d];
            i' := i + 2;
          } else {
            currentField := currentField + [escape];
          }
        } else {
          currentField := currentField + [c];
        }
      }
      afterFieldSep, afterRecordSep := setAfterFieldSep, false;
    }

    /** execute: one buffer of the input. */
    method Execute(buffer: string) returns (error: Error)
      requires Consistent(Now()) && (escaping ==> buffer != [])
      modifies this
      ensures Reaches(ExecuteSpec(Cfg(), old(Now()), buffer), error)
      ensures error == Ok ==> Consistent(Now())
    {
      ghost var p0 := Now();
      ResumeIs(Cfg(), p0, buffer, Resumed(Cfg(), p0, buffer));
      ExecuteConsistent(Cfg(), p0, buffer);
      hide Plain, Takes, EndRecord, Unescaped, EndPending, FeedAll, Advance, Consistent;
      var i;
      i, error := Resume(buffer);
      if error != Ok { return; }
      while i < |buffer|
        invariant i <= |buffer| && error == Ok
        invariant buffer != [] ==> At(Cfg(), p0, buffer, i, Now())
        invariant buffer == [] ==> ExecuteSpec(Cfg(), p0, buffer) == Now()
      {
        AdvanceIs(Cfg(), p0, buffer, i, Now());
        i, error := Turn(buffer, i);
        if error != Ok { return; }
      }
    }

    method Resume(buffer: string) returns (i: nat, error: Error)
      requires Consistent(Now()) && (escaping ==> buffer != [])
      modifies this
      ensures Reaches(Resumed(Cfg(), old(Now()), buffer), error)
      ensures error == Ok ==> i == if buffer != [] && Takes(Cfg(), old(Now()), buffer[0]) then 1 else 0
    {
      hide Unescaped, EndPending;
      i, error := 0, Ok;
      if escaping {
        i := ResumeEscape(buffer[0]);
      } else if newlining {
        i, error := ResumeNewline(buffer);
      }
    }

    /** finish: the end of the input. */
    method Finish() returns (error: Error)
      requires Consistent(Now())
      modifies this
      ensures Reaches(FinishSpec(Cfg(), old(Now())), error)
    {
      hide ExecuteSpec;
      if quoted {
        return QuoteNotClosed;
      } else if newlining {
        error := Execute("");
      } else if !afterRecordSep {
        error := Execute("\n");
      } else {
        error := Ok;
      }
    }
  }
}

/** materialize_columnar_table_parallel: threads write contiguous row ranges as pages, which are put one after the
    other; string references are read from the input pages only here. */
module Materialize {
  import opened Bags
  import opened Options
  import opened Pages
  import opened IntCodec
  import opened StringPages
  import opened StringCodec
  import opened Columns
  import opened Scan
  import opened Partitioning
  import opened Join
  import opened Slab
  import opened Relations
  import opened Executor
  import opened StringReads

  // Ranges of rows.

  ghost function IntRows(c: Column, start: nat, end: nat): seq<Option<I32>>
    requires c.Ok() && start <= end <= c.numRows
  {
    seq(end - start, (i: int) requires 0 <= i < end - start => IntRow(c.GetValue(start + i)))
  }

  ghost function StringRows(inputs: seq<Table>, c: Column, start: nat, end: nat): seq<Option<Str>>
    requires c.Ok() && start <= end <= c.numRows
  {
    seq(end - start, (i: int) requires 0 <= i < end - start => StringRow(inputs, c.GetValue(start + i)))
  }

  lemma IntRowsSplit(c: Column, a: nat, b: nat, d: nat)
    requires c.Ok() && a <= b <= d <= c.numRows
    ensures IntRows(c, a, d) == IntRows(c, a, b) + IntRows(c, b, d)
  {
    hide Column.Ok, Column.GetValue;
  }

  lemma StringRowsSplit(inputs: seq<Table>, c: Column, a: nat, b: nat, d: nat)
    requires c.Ok() && a <= b <= d <= c.numRows
    ensures StringRows(inputs, c, a, d) == StringRows(inputs, c, a, b) + StringRows(inputs, c, b, d)
  {
    hide Column.Ok, Column.GetValue, StringRow;
  }

  /** The null test on the two halves is right for integers ... */
  lemma IntNullTest(inputs: seq<Table>, origin: Origin, v: Value)
    requires WellTyped(inputs, INT32, origin, v)
    ensures v.IsNull() <==> IntRow(v) == None
  {
  }

  /** ... and for string references. */
  lemma StringNullTest(inputs: seq<Table>, origin: Origin, v: Value)
    requires WellTyped(inputs, VARCHAR, origin, v)
    ensures v.IsNull() <==> StringRow(inputs, v) == None
    ensures v.IsNull() <==> v.Offset() == 0xFFFF
  {
    hide LongAt, StringAt, InPage;
  }

  // Progress of the threads that write one column.

  /** A thread has rows to write and then its last page to save. */
  function WorkLeft(pos: seq<nat>, ends: seq<nat>, finished: seq<bool>): seq<nat>
    requires |pos| == |ends| == |finished| && forall t :: 0 <= t < |pos| ==> pos[t] <= ends[t]
  {
    seq(|pos|, (t: int) requires 0 <= t < |pos| => ends[t] - pos[t] + (if finished[t] then 0 else 1))
  }

  lemma WorkDrops(pos: seq<nat>, ends: seq<nat>, finished: seq<bool>, t: nat)
    requires |pos| == |ends| == |finished| && (forall t :: 0 <= t < |pos| ==> pos[t] <= ends[t])
    requires t < |pos| && !finished[t]
    ensures pos[t] < ends[t] ==>
      Total(WorkLeft(pos[t := pos[t] + 1], ends, finished)) < Total(WorkLeft(pos, ends, finished))
    ensures Total(WorkLeft(pos, ends, finished[t := true])) < Total(WorkLeft(pos, ends, finished))
  {
    var left := WorkLeft(pos, ends, finished);
    TotalDrops(left, t);
    assert WorkLeft(pos, ends, finished[t := true]) == left[t := left[t] - 1];
    if pos[t] < ends[t] {
      assert WorkLeft(pos[t := pos[t] + 1], ends, finished) == left[t := left[t] - 1];
    }
  }

  /** How far each thread is in its range of rows. */
  ghost predicate Within(starts: seq<nat>, pos: seq<nat>, ends: seq<nat>, numRows: nat) {
    |starts| == |pos| == |ends| && forall t :: 0 <= t < |pos| ==> starts[t] <= pos[t] <= ends[t] <= numRows
  }

  lemma SplitsWithin(splits: seq<nat>, numRows: nat)
    requires Ranges(splits, numRows) && |splits| > 1
    ensures Within(splits[..|splits| - 1], splits[..|splits| - 1], splits[1..], numRows)
  {
  }

  // An INT32 column, written by all threads.

  /** No two inserters share memory. */
  ghost predicate IntsApart(ins: seq<IntInserter>)
    reads ins
  {
    forall t, u :: 0 <= t < |ins| && 0 <= u < |ins| && t != u ==>
      ins[t] != ins[u] && ins[t].page != ins[u].page && ins[t].page != ins[u].bitmap && ins[t].bitmap != ins[u].bitmap
  }

  /** Each thread has inserted its rows so far, and its pages hold them all once it is done. */
  ghost predicate IntsWritten(c: Column, ins: seq<IntInserter>, starts: seq<nat>, pos: seq<nat>, ends: seq<nat>,
                              finished: seq<bool>)
    requires c.Ok() && Within(starts, pos, ends, c.numRows)
    reads ins
  {
    && |ins| == |finished| == |pos| && IntsApart(ins)
    && forall t :: 0 <= t < |ins| ==> ThreadInts(c, ins[t], starts[t], pos[t], ends[t], finished[t])
  }

  ghost predicate ThreadInts(c: Column, inserter: IntInserter, start: nat, row: nat, end: nat, finished: bool)
    requires c.Ok() && start <= row <= end <= c.numRows
    reads inserter
  {
    && inserter.Contents() == IntRows(c, start, row)
    && (finished ==> row == end && DecodeIntPages(inserter.pages) == inserter.Contents())
  }

  /** A thread writes its next row, or saves its last page. */
  method StepInt(inputs: seq<Table>, ghost origin: Origin, c: Column, inserter: IntInserter, ghost start: nat, row: nat,
                 end: nat)
      returns (done: bool)
    requires c.Ok() && AllTyped(inputs, INT32, origin, c) && start <= row <= end <= c.numRows
    requires inserter.Valid() && ThreadInts(c, inserter, start, row, end, false)
    modifies inserter, inserter.page, inserter.bitmap
    ensures inserter.Valid() && (inserter.page == old(inserter.page) || fresh(inserter.page))
    ensures done <==> row == end
    ensures ThreadInts(c, inserter, start, if done then row else row + 1, end, done)
  {
    hide Column.Ok, Column.GetValue, WellTyped, DecodeIntPages, IntInserter.Valid, Value.IsNull, Value.IntVal,
      IntInserter.Contents, IntRows;
    if row < end {
      var v := c.GetValue(row);
      IntNullTest(inputs, origin, v);
      IntRowsNext(c, start, row);
      if v.IsNull() { inserter.InsertNull(); } else { inserter.Insert(v.IntVal()); }
      return false;
    } else {
      inserter.Finalize();
      return true;
    }
  }

  /** Thread t takes a step. */
  method StepInts(inputs: seq<Table>, ghost origin: Origin, c: Column, ins: seq<IntInserter>, t: nat,
                  ghost starts: seq<nat>, pos: seq<nat>, ends: seq<nat>, finished: seq<bool>)
      returns (pos': seq<nat>, finished': seq<bool>)
    requires c.Ok() && AllTyped(inputs, INT32, origin, c) && Within(starts, pos, ends, c.numRows)
    requires IntsWritten(c, ins, starts, pos, ends, finished) && t < |ins| && !finished[t]
    requires forall u :: 0 <= u < |ins| ==> ins[u].Valid()
    modifies ins[t], ins[t].page, ins[t].bitmap
    ensures ins[t].page == old(ins[t].page) || fresh(ins[t].page)
    ensures forall u :: 0 <= u < |ins| ==> ins[u].Valid()
    ensures |finished'| == |finished| && Within(starts, pos', ends, c.numRows)
    ensures IntsWritten(c, ins, starts, pos', ends, finished')
    ensures Total(WorkLeft(pos', ends, finished')) < Total(WorkLeft(pos, ends, finished))
  {
    hide Column.Ok, AllTyped, IntInserter.Valid, ThreadInts, WorkLeft, Total;
    WorkDrops(pos, ends, finished, t);
    var row := pos[t];
    var done := StepInt(inputs, origin, c, ins[t], starts[t], row, ends[t]);
    pos', finished' := if done then pos else pos[t := row + 1], if done then finished[t := true] else finished;
  }

  method NewInts(threads: nat) returns (ins: seq<IntInserter>)
    ensures |ins| == threads && fresh(ins) && IntsApart(ins)
    ensures forall t :: 0 <= t < threads ==>
      ins[t].Valid() && fresh(ins[t].page) && fresh(ins[t].bitmap) && ins[t].Contents() == []
  {
    hide IntInserter.Valid, IntInserter.Contents;
    ins := [];
    for t := 0 to threads
      invariant |ins| == t && fresh(ins) && IntsApart(ins)
      invariant forall u :: 0 <= u < t ==>
        ins[u].Valid() && fresh(ins[u].page) && fresh(ins[u].bitmap) && ins[u].Contents() == []
    {
      var inserter := new IntInserter();
      ins := ins + [inserter];
    }
  }

  /** Every thread has an inserter of its own; any thread that is not done may take the next step. */
  method WriteIntColumn(inputs: seq<Table>, ghost origin: Origin, c: Column, threads: nat) returns (pages: seq<Page>)
    requires c.Ok() && AllTyped(inputs, INT32, origin, c) && threads > 0
    ensures DecodeIntPages(pages) == IntRows(c, 0, c.numRows)
  {
    hide Column.Ok, AllTyped, DecodeIntPages, IntInserter.Valid, IntInserter.Contents, IntsWritten, WorkLeft, Total,
      IntRows, Ranges;
    var splits := SplitRows(c.numRows, threads);
    SplitsWithin(splits, c.numRows);
    var starts, ends := splits[..threads], splits[1..];
    var ins := NewInts(threads);
    var pos, finished := starts, seq(threads, t => false);
    NoIntsWritten(c, ins, starts, ends, finished);
    while exists t :: 0 <= t < threads && !finished[t]
      invariant |ins| == |finished| == |pos| == threads && Within(starts, pos, ends, c.numRows)
      invariant IntsWritten(c, ins, starts, pos, ends, finished)
      invariant forall u :: 0 <= u < threads ==>
        ins[u].Valid() && fresh(ins[u]) && fresh(ins[u].page) && fresh(ins[u].bitmap)
      decreases Total(WorkLeft(pos, ends, finished))
    {
      var t :| 0 <= t < threads && !finished[t];
      pos, finished := StepInts(inputs, origin, c, ins, t, starts, pos, ends, finished);
    }
    pages := ConcatInts(c, splits, ins, pos, finished);
  }

  lemma NoIntsWritten(c: Column, ins: seq<IntInserter>, starts: seq<nat>, ends: seq<nat>, finished: seq<bool>)
    requires c.Ok() && Within(starts, starts, ends, c.numRows) && IntsApart(ins) && |ins| == |finished| == |starts|
    requires forall t :: 0 <= t < |ins| ==> ins[t].Contents() == [] && !finished[t]
    ensures IntsWritten(c, ins, starts, starts, ends, finished)
  {
    hide Column.Ok, Column.GetValue, IntInserter.Contents;
  }

  lemma IntRowsNext(c: Column, start: nat, row: nat)
    requires c.Ok() && start <= row < c.numRows
    ensures IntRows(c, start, row + 1) == IntRows(c, start, row) + [IntRow(c.GetValue(row))]
  {
    hide Column.Ok, Column.GetValue;
  }

  /** The threads' pages, one thread after the other. */
  method ConcatInts(c: Column, splits: seq<nat>, ins: seq<IntInserter>, ghost pos: seq<nat>, ghost finished: seq<bool>)
      returns (pages: seq<Page>)
    requires c.Ok() && Ranges(splits, c.numRows) && |splits| == |ins| + 1
    requires Within(splits[..|ins|], pos, splits[1..], c.numRows)
    requires IntsWritten(c, ins, splits[..|ins|], pos, splits[1..], finished)
    requires forall t :: 0 <= t < |ins| ==> finished[t]
    ensures DecodeIntPages(pages) == IntRows(c, 0, c.numRows)
  {
    hide Column.Ok, Column.GetValue, DecodeIntPages, IntsApart, IntInserter.Contents;
    NoPages();
    pages := [];
    for t := 0 to |ins|
      invariant splits[t] <= c.numRows && DecodeIntPages(pages) == IntRows(c, 0, splits[t])
    {
      assert ThreadInts(c, ins[t], splits[t], pos[t], splits[t + 1], true);
      DecodeIntPagesCat(pages, ins[t].pages);
      IntRowsSplit(c, 0, splits[t], splits[t + 1]);
      pages := pages + ins[t].pages;
    }
  }

  lemma NoPages()
    ensures DecodeIntPages([]) == [] && DecodeStringPages([]) == Some([])
  {
  }

  // A VARCHAR column, written by all threads.

  /** The column that string references point into: its pages are as the codec writes them, and none is of a kind
      that is misread. */
  ghost predicate ReadableOrigin(inputs: seq<Table>, origin: Origin) {
    HasColumn(inputs, origin, VARCHAR) &&
      var pages := inputs[origin.table][origin.col].pages;
      |pages| <= 0x1_0000 && StringColumnOk(pages) && ColumnReadable(pages)
  }

  ghost predicate StringsApart(ins: seq<StringInserter>)
    reads ins
  {
    forall t, u :: 0 <= t < |ins| && 0 <= u < |ins| && t != u ==>
      && ins[t] != ins[u] && ins[t].page != ins[u].page && ins[t].page != ins[u].data && ins[t].page != ins[u].bitmap
      && ins[t].data != ins[u].data && ins[t].data != ins[u].bitmap && ins[t].bitmap != ins[u].bitmap
  }

  ghost predicate StringsWritten(inputs: seq<Table>, c: Column, ins: seq<StringInserter>,
                                 starts: seq<nat>, pos: seq<nat>, ends: seq<nat>, finished: seq<bool>)
    requires c.Ok() && Within(starts, pos, ends, c.numRows)
    reads ins
  {
    && |ins| == |finished| == |pos| && StringsApart(ins)
    && forall t :: 0 <= t < |ins| ==> ThreadStrings(inputs, c, ins[t], starts[t], pos[t], ends[t], finished[t])
  }

  ghost predicate ThreadStrings(inputs: seq<Table>, c: Column, inserter: StringInserter, start: nat, row: nat, end: nat,
                                finished: bool)
    requires c.Ok() && start <= row <= end <= c.numRows
    reads inserter
  {
    && inserter.Contents() == StringRows(inputs, c, start, row)
    && (finished ==> row == end && DecodeStringPages(inserter.pages) == Some(inserter.Contents()))
  }

  /** The row's string, read where its reference points; a null has none. */
  method ReadRow(inputs: seq<Table>, ghost origin: Origin, v: Value) returns (s: Option<Str>)
    requires ReadableOrigin(inputs, origin) && WellTyped(inputs, VARCHAR, origin, v)
    ensures s == StringRow(inputs, v)
  {
    StringNullTest(inputs, origin, v);
    hide Resolve, ColumnReadable, StringColumnOk, Value.IsNull, Value.PageId, Value.Offset, Value.TableId, Value.ColId,
      Refers;
    if v.IsNull() {
      return None;
    }
    var str := ReadString(inputs[v.TableId()][v.ColId()].pages, v);
    return Some(str);
  }

  method StepString(inputs: seq<Table>, ghost origin: Origin, c: Column, inserter: StringInserter, ghost start: nat,
                    row: nat, end: nat)
      returns (done: bool)
    requires ReadableOrigin(inputs, origin) && c.Ok() && AllTyped(inputs, VARCHAR, origin, c)
    requires start <= row <= end <= c.numRows
    requires inserter.Valid() && ThreadStrings(inputs, c, inserter, start, row, end, false)
    modifies inserter, inserter.page, inserter.data, inserter.bitmap
    ensures inserter.Valid() && (inserter.page == old(inserter.page) || fresh(inserter.page))
    ensures done <==> row == end
    ensures ThreadStrings(inputs, c, inserter, start, if done then row else row + 1, end, done)
  {
    hide Column.Ok, Column.GetValue, WellTyped, DecodeStringPages, StringInserter.Valid, StringInserter.Contents,
      StringGrown, StringRows, StringRow, ReadableOrigin, StringColumnOk;
    if row < end {
      var s := ReadRow(inputs, origin, c.GetValue(row));
      StringRowsNext(inputs, c, start, row);
      if s == None { inserter.InsertNull(); } else { inserter.Insert(s.value); }
      return false;
    } else {
      inserter.Finalize();
      return true;
    }
  }

  method StepStrings(inputs: seq<Table>, ghost origin: Origin, c: Column, ins: seq<StringInserter>, t: nat,
                     ghost starts: seq<nat>, pos: seq<nat>, ends: seq<nat>, finished: seq<bool>)
      returns (pos': seq<nat>, finished': seq<bool>)
    requires ReadableOrigin(inputs, origin) && c.Ok() && AllTyped(inputs, VARCHAR, origin, c)
    requires Within(starts, pos, ends, c.numRows)
    requires StringsWritten(inputs, c, ins, starts, pos, ends, finished) && t < |ins| && !finished[t]
    requires forall u :: 0 <= u < |ins| ==> ins[u].Valid()
    modifies ins[t], ins[t].page, ins[t].data, ins[t].bitmap
    ensures ins[t].page == old(ins[t].page) || fresh(ins[t].page)
    ensures forall u :: 0 <= u < |ins| ==> ins[u].Valid()
    ensures |finished'| == |finished| && Within(starts, pos', ends, c.numRows)
    ensures StringsWritten(inputs, c, ins, starts, pos', ends, finished')
    ensures Total(WorkLeft(pos', ends, finished')) < Total(WorkLeft(pos, ends, finished))
  {
    hide Column.Ok, AllTyped, StringInserter.Valid, ThreadStrings, WorkLeft, Total, ReadableOrigin;
    WorkDrops(pos, ends, finished, t);
    var row := pos[t];
    var done := StepString(inputs, origin, c, ins[t], starts[t], row, ends[t]);
    pos', finished' := if done then pos else pos[t := row + 1], if done then finished[t := true] else finished;
  }

  method NewStrings(threads: nat) returns (ins: seq<StringInserter>)
    ensures |ins| == threads && fresh(ins) && StringsApart(ins)
    ensures forall t :: 0 <= t < threads ==> ins[t].Valid() && ins[t].Contents() == []
    ensures forall t :: 0 <= t < threads ==> fresh(ins[t].page) && fresh(ins[t].data) && fresh(ins[t].bitmap)
  {
    hide StringInserter.Valid, StringInserter.Contents;
    ins := [];
    for t := 0 to threads
      invariant |ins| == t && fresh(ins) && StringsApart(ins)
      invariant forall u :: 0 <= u < t ==> ins[u].Valid() && ins[u].Contents() == []
      invariant forall u :: 0 <= u < t ==> fresh(ins[u].page) && fresh(ins[u].data) && fresh(ins[u].bitmap)
    {
      var inserter := new StringInserter();
      ins := ins + [inserter];
    }
  }

  method WriteStringColumn(inputs: seq<Table>, ghost origin: Origin, c: Column, threads: nat) returns (pages: seq<Page>)
    requires ReadableOrigin(inputs, origin) && c.Ok() && AllTyped(inputs, VARCHAR, origin, c) && threads > 0
    ensures DecodeStringPages(pages) == Some(StringRows(inputs, c, 0, c.numRows))
  {
    hide Column.Ok, AllTyped, DecodeStringPages, StringInserter.Valid, StringInserter.Contents, StringsWritten,
      WorkLeft, Total, StringRows, Ranges, ReadableOrigin;
    var splits := SplitRows(c.numRows, threads);
    SplitsWithin(splits, c.numRows);
    var starts, ends := splits[..threads], splits[1..];
    var ins := NewStrings(threads);
    var pos, finished := starts, seq(threads, t => false);
    NoStringsWritten(inputs, c, ins, starts, ends, finished);
    while exists t :: 0 <= t < threads && !finished[t]
      invariant |ins| == |finished| == |pos| == threads && Within(starts, pos, ends, c.numRows)
      invariant StringsWritten(inputs, c, ins, starts, pos, ends, finished)
      invariant forall u :: 0 <= u < threads ==> ins[u].Valid() && fresh(ins[u])
      invariant forall u :: 0 <= u < threads ==> fresh(ins[u].page) && fresh(ins[u].data) && fresh(ins[u].bitmap)
      decreases Total(WorkLeft(pos, ends, finished))
    {
      var t :| 0 <= t < threads && !finished[t];
      pos, finished := StepStrings(inputs, origin, c, ins, t, starts, pos, ends, finished);
    }
    pages := ConcatStrings(inputs, c, splits, ins, pos, finished);
  }

  lemma NoStringsWritten(inputs: seq<Table>, c: Column, ins: seq<StringInserter>, starts: seq<nat>, ends: seq<nat>,
                         finished: seq<bool>)
    requires c.Ok() && Within(starts, starts, ends, c.numRows) && StringsApart(ins) && |ins| == |finished| == |starts|
    requires forall t :: 0 <= t < |ins| ==> ins[t].Contents() == [] && !finished[t]
    ensures StringsWritten(inputs, c, ins, starts, starts, ends, finished)
  {
    hide Column.Ok, Column.GetValue, StringInserter.Contents, StringRow;
  }

  lemma StringRowsNext(inputs: seq<Table>, c: Column, start: nat, row: nat)
    requires c.Ok() && start <= row < c.numRows
    ensures StringRows(inputs, c, start, row + 1) ==
      StringRows(inputs, c, start, row) + [StringRow(inputs, c.GetValue(row))]
  {
    hide Column.Ok, Column.GetValue, StringRow;
  }

  method ConcatStrings(inputs: seq<Table>, c: Column, splits: seq<nat>, ins: seq<StringInserter>,
                       ghost pos: seq<nat>, ghost finished: seq<bool>)
      returns (pages: seq<Page>)
    requires c.Ok() && Ranges(splits, c.numRows) && |splits| == |ins| + 1
    requires Within(splits[..|ins|], pos, splits[1..], c.numRows)
    requires StringsWritten(inputs, c, ins, splits[..|ins|], pos, splits[1..], finished)
    requires forall t :: 0 <= t < |ins| ==> finished[t]
    ensures DecodeStringPages(pages) == Some(StringRows(inputs, c, 0, c.numRows))
  {
    hide Column.Ok, Column.GetValue, DecodeStringPages, StringsApart, StringInserter.Contents, StringRow;
    NoPages();
    pages := [];
    assert StringRows(inputs, c, 0, 0) == [];
    for t := 0 to |ins|
      invariant splits[t] <= c.numRows && DecodeStringPages(pages) == Some(StringRows(inputs, c, 0, splits[t]))
    {
      assert ThreadStrings(inputs, c, ins[t], splits[t], pos[t], splits[t + 1], true);
      DecodeStringPagesCat(pages, ins[t].pages);
      StringRowsSplit(inputs, c, 0, splits[t], splits[t + 1]);
      pages := pages + ins[t].pages;
    }
  }

  // Whole results.

  /** The column's rows, as its pages will decode. */
  function ColumnDatums(inputs: seq<Table>, dtype: DataType, c: Column): seq<Datum>
    requires c.Ok()
  {
    seq(c.numRows, (r: int) requires 0 <= r < c.numRows => Denote(inputs, dtype, c.GetValue(r)))
  }

  /** The column's pages can be decoded, and have n rows. */
  ghost predicate HasRows(col: TableColumn, n: nat) {
    (col.dtype == VARCHAR ==> DecodeStringPages(col.pages).Some?) && |Decoded(col)| == n
  }

  /** Written with any number of threads, a result column decodes to its values in row order. */
  method MaterializeColumn(inputs: seq<Table>, dtype: DataType, ghost origin: Origin, c: Column, threads: nat)
      returns (col: TableColumn)
    requires c.Ok() && AllTyped(inputs, dtype, origin, c) && threads > 0
    requires dtype == VARCHAR ==> ReadableOrigin(inputs, origin)
    ensures col.dtype == dtype && Decoded(col) == ColumnDatums(inputs, dtype, c) && HasRows(col, c.numRows)
  {
    hide Column.Ok, Column.GetValue, AllTyped, DecodeStringPages, DecodeIntPages, ReadableOrigin, IntRow, StringRow;
    var pages;
    if dtype == INT32 {
      pages := WriteIntColumn(inputs, origin, c, threads);
    } else {
      pages := WriteStringColumn(inputs, origin, c, threads);
    }
    col := TableColumn(dtype, pages);
  }

  method MaterializeTable(inputs: seq<Table>, types: seq<DataType>, ghost origins: seq<Origin>, cols: seq<Column>,
                          n: nat, threads: nat)
      returns (table: Table, numRows: nat)
    requires Typed(inputs, types, origins, cols) && Aligned(cols, n) && cols != [] && threads > 0
    requires forall o :: 0 <= o < |cols| && types[o] == VARCHAR ==> ReadableOrigin(inputs, origins[o])
    ensures TableRows(table) == DenotedRows(inputs, types, cols, n)
    ensures TypesOf(table) == types && numRows == n && forall o :: 0 <= o < |table| ==> HasRows(table[o], n)
  {
    hide Column.Ok, Column.GetValue, AllTyped, ReadableOrigin, Denote, Decoded, DecodeStringPages;
    table, numRows := [], cols[0].numRows;
    for o := 0 to |cols|
      invariant |table| == o && forall p :: 0 <= p < o ==> Decoded(table[p]) == ColumnDatums(inputs, types[p], cols[p])
      invariant forall p :: 0 <= p < o ==> table[p].dtype == types[p] && HasRows(table[p], n)
    {
      var col := MaterializeColumn(inputs, types[o], origins[o], cols[o], threads);
      table := table + [col];
    }
    forall r | 0 <= r < n ensures TableRow(table, r) == DenotedRow(inputs, types, cols, n, r) {}
  }

  /** Every string column that an output of node i is read from can be read back right.  Nothing is asked of columns
      that only serve as join keys, or that the result does not show. */
  ghost predicate Readable(plan: Plan, i: nat)
    requires plan.WellFormed() && i < |plan.nodes|
  {
    forall o :: 0 <= o < |plan.nodes[i].outs| && plan.OutTypes(i)[o] == VARCHAR ==>
      ColumnReadable(OriginPages(plan.inputs, Origins(plan, i)[o]))
  }

  function OriginPages(inputs: seq<Table>, origin: Origin): seq<Page> {
    if origin.table < |inputs| && origin.col < |inputs[origin.table]| then inputs[origin.table][origin.col].pages
      else []
  }

  /** execute: run the plan and write the result as pages.  Decoded, the result is the bag of rows that naive
      evaluation of the plan gives.  With or without rows, it has one column for each output of the root, of that
      output's type, and every column has as many rows as the result says. */
  method Execute(env: Env, plan: Plan, root: nat) returns (table: Table, numRows: nat)
    requires env.Ok() && plan.WellFormed() && Buildable(plan) && root < |plan.nodes| && Readable(plan, root)
    ensures multiset(TableRows(table)) == multiset(NaiveRows(plan, root))
    ensures TypesOf(table) == plan.OutTypes(root) && numRows == |NaiveRows(plan, root)|
    ensures forall c :: 0 <= c < |table| ==> HasRows(table[c], |NaiveRows(plan, root)|)
  {
    hide Arena.HeapIsSound, Plan.WellFormed, Aligned, DenotedRows, NaiveRows, Buildable, Typed, Readable, TableRows,
      ReadableOrigin;
    OriginsReadable(plan, root);
    var cols, n := ExecuteImpl(env, plan, root);
    SameSize(DenotedRows(plan.inputs, plan.OutTypes(root), cols, n), NaiveRows(plan, root));
    DenotedCount(plan.inputs, plan.OutTypes(root), cols, n);
    table, numRows := MaterializeTable(plan.inputs, plan.OutTypes(root), Origins(plan, root), cols, n, env.threads);
  }

  lemma DenotedCount(inputs: seq<Table>, types: seq<DataType>, cols: seq<Column>, n: nat)
    requires |types| == |cols| && Aligned(cols, n)
    ensures |DenotedRows(inputs, types, cols, n)| == n
  {
  }

  lemma OriginsReadable(plan: Plan, root: nat)
    requires plan.WellFormed() && root < |plan.nodes| && Readable(plan, root)
    ensures plan.nodes[root].outs != []
    ensures forall o :: 0 <= o < |plan.nodes[root].outs| && plan.OutTypes(root)[o] == VARCHAR ==>
      ReadableOrigin(plan.inputs, Origins(plan, root)[o])
  {
    hide ColumnReadable, StringColumnOk, DecodeStringPages, IntColumnOk, Decoded, Origins;
    assert plan.NodeOk(root);
    forall o | 0 <= o < |plan.nodes[root].outs| && plan.OutTypes(root)[o] == VARCHAR
      ensures ReadableOrigin(plan.inputs, Origins(plan, root)[o])
    {
      OriginsExist(plan, root, o);
      var origin := Origins(plan, root)[o];
      assert plan.TableOk(origin.table);
      assert plan.ColumnOk(origin.table, origin.col);
    }
  }
}

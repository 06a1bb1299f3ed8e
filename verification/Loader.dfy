/** Loading: the rows that pass the filter are written, column by column, as pages. */
module Loader {
  import opened Bits
  import opened Bitmaps
  import opened Options
  import opened Pages
  import opened IntCodec
  import opened StringPages
  import opened StringCodec
  import opened Scan
  import opened ColumnCodec
  import opened Relations
  import opened InnerColumns
  import opened Filters

  /** The elements among the first n whose bit is set. */
  function Selected<T>(xs: seq<T>, results: seq<U8>, n: nat): seq<T>
    requires n <= |xs| && BitmapSize(n) <= |results|
  {
    if n == 0 then [] else
      Selected(xs, results, n - 1) + (if TestBit(results, n - 1) then [xs[n - 1]] else [])
  }

  /** Selecting goes by position: it does not matter what the positions hold. */
  lemma {:induction false} SelectedMap<S, T>(xs: seq<S>, ys: seq<T>, f: S -> T, results: seq<U8>, n: nat)
    requires |xs| == |ys| && n <= |xs| && BitmapSize(n) <= |results| && forall i :: 0 <= i < |xs| ==> ys[i] == f(xs[i])
    ensures |Selected(xs, results, n)| == |Selected(ys, results, n)|
    ensures forall k :: 0 <= k < |Selected(xs, results, n)| ==>
      Selected(ys, results, n)[k] == f(Selected(xs, results, n)[k])
  {
    if n > 0 { SelectedMap(xs, ys, f, results, n - 1); }
  }

  function IntOf(d: Datum): Option<I32> {
    if d.Int? then Some(d.i) else None
  }

  function StringOf(d: Datum): Option<Str> {
    if d.Text? then Some(d.s) else None
  }

  function Mapped<S, T>(xs: seq<S>, f: S -> T): seq<T> {
    seq(|xs|, (i: int) requires 0 <= i < |xs| => f(xs[i]))
  }

  /** One more row. */
  lemma SelectedNext<T>(c: InnerColumn, results: seq<U8>, i: nat, f: Datum -> T)
    requires c.Ok() && i < c.Rows() && |results| == BitmapSize(c.Rows())
    ensures var before := Selected(c.Datums(), results, i);
      Selected(c.Datums(), results, i + 1) == (if TestBit(results, i) then before + [c.Get(i)] else before)
        && Mapped(before + [c.Get(i)], f) == Mapped(before, f) + [f(c.Get(i))]
  {
    hide InnerColumn.Get, InnerColumn.Ok, TestBit;
    assert Selected(c.Datums(), results, i) + [] == Selected(c.Datums(), results, i);
  }

  /** from_inner_to_column for an INT32 column. */
  method FromInnerInts(c: InnerColumn, results: seq<U8>, rows: nat) returns (pages: seq<Page>, count: nat)
    requires c.IntColumn? && c.Ok() && rows == c.Rows() && |results| == BitmapSize(rows)
    ensures DecodeIntPages(pages) == Mapped(Selected(c.Datums(), results, rows), IntOf) && IntColumnOk(pages)
    ensures count == |Selected(c.Datums(), results, rows)|
  {
    hide DecodeIntPages, PageOk, IntPageFor, Grown, IntInserter.Valid, IntColumnOk, TestBit, PagesOk, Selected, Mapped;
    NothingSelected(c, results, IntOf);
    var inserter := new IntInserter();
    NoPageOk();
    count := 0;
    for i := 0 to rows
      invariant inserter.Valid() && fresh(inserter) && fresh(inserter.page) && fresh(inserter.bitmap)
      invariant inserter.Contents() == Mapped(Selected(c.Datums(), results, i), IntOf) && PagesOk(inserter.pages)
      invariant count == |Selected(c.Datums(), results, i)|
    {
      SelectedNext(c, results, i, IntOf);
      if TestBit(results, i) {
        ghost var before, last := inserter.pages, inserter.rows;
        if c.IsNotNull(i) { inserter.Insert(c.ints[i]); } else { inserter.InsertNull(); }
        GrownOk(before, last, inserter.pages, inserter.rows, IntOf(c.Get(i)));
        count := count + 1;
      }
    }
    ghost var before, last := inserter.pages, inserter.rows;
    inserter.Finalize();
    pages := inserter.pages;
    if last == [] {
      ColumnOk(pages);
    } else {
      LastPageOk(before, last, pages[|before|]);
      assert pages == before + [pages[|before|]];
    }
  }

  lemma NothingSelected<T>(c: InnerColumn, results: seq<U8>, f: Datum -> T)
    requires c.Ok() && |results| == BitmapSize(c.Rows())
    ensures Selected(c.Datums(), results, 0) == [] && Mapped([], f) == []
  {
  }

  lemma NoPageOk()
    ensures PagesOk([])
  {
  }

  /** from_inner_to_column for a VARCHAR column. */
  method FromInnerStrings(c: InnerColumn, results: seq<U8>, rows: nat) returns (pages: seq<Page>, count: nat)
    requires c.StringColumn? && c.Ok() && rows == c.Rows() && |results| == BitmapSize(rows)
    ensures DecodeStringPages(pages) == Some(Mapped(Selected(c.Datums(), results, rows), StringOf))
    ensures StringColumnOk(pages)
    ensures count == |Selected(c.Datums(), results, rows)|
  {
    hide DecodeStringPages, StringInserter.Valid, StringColumnOk, StringGrown, TestBit, Selected, Mapped;
    NothingSelected(c, results, StringOf);
    var inserter := new StringInserter();
    count := 0;
    for i := 0 to rows
      invariant inserter.Valid() && fresh(inserter) && fresh(inserter.page) && fresh(inserter.data)
      invariant fresh(inserter.bitmap)
      invariant inserter.Contents() == Mapped(Selected(c.Datums(), results, i), StringOf)
      invariant count == |Selected(c.Datums(), results, i)|
    {
      SelectedNext(c, results, i, StringOf);
      if TestBit(results, i) {
        if c.IsNotNull(i) { inserter.Insert(c.GetString(i)); } else { inserter.InsertNull(); }
        count := count + 1;
      }
    }
    inserter.Finalize();
    pages := inserter.pages;
  }

  /** The written pages decode to the selected rows and meet what the executor asks of its inputs. */
  ghost predicate Written(col: TableColumn, c: InnerColumn, results: seq<U8>, rows: nat)
    requires c.Ok() && rows == c.Rows() && |results| == BitmapSize(rows)
  {
    col.dtype == c.Type() && Decoded(col) == Selected(c.Datums(), results, rows) && Scannable(col)
  }

  /** What the executor's scan asks of a column, but for the width of page numbers. */
  ghost predicate Scannable(col: TableColumn) {
    match col.dtype
    case INT32 => IntColumnOk(col.pages)
    case VARCHAR => StringColumnOk(col.pages) && DecodeStringPages(col.pages).Some?
  }

  /** A loaded table is a legal input of a plan, if its string references fit in 16 bits per field. */
  lemma LoadedTableOk(plan: Plan, t: nat, numRows: nat)
    requires t < |plan.inputs| && t < 0x1_0000 && |plan.inputs[t]| <= 0x1_0000
    requires forall c :: 0 <= c < |plan.inputs[t]| ==>
      Scannable(plan.inputs[t][c]) && |Decoded(plan.inputs[t][c])| == numRows
    requires forall c :: 0 <= c < |plan.inputs[t]| && plan.inputs[t][c].dtype == VARCHAR ==>
      |plan.inputs[t][c].pages| <= 0x1_0000
    ensures plan.TableOk(t)
  {
    hide IntColumnOk, StringColumnOk, DecodeStringPages, Decoded;
    forall c | 0 <= c < |plan.inputs[t]| ensures plan.ColumnOk(t, c) { assert Scannable(plan.inputs[t][c]); }
  }

  lemma {:induction false} SelectedTyped(c: InnerColumn, results: seq<U8>, n: nat)
    requires c.Ok() && n <= c.Rows() && BitmapSize(n) <= |results|
    ensures forall k :: 0 <= k < |Selected(c.Datums(), results, n)| ==>
      var d := Selected(c.Datums(), results, n)[k]; d.Null? || (if c.IntColumn? then d.Int? else d.Text?)
  {
    if n > 0 { SelectedTyped(c, results, n - 1); }
  }

  lemma IntsWritten(pages: seq<Page>, datums: seq<Datum>)
    requires DecodeIntPages(pages) == Mapped(datums, IntOf)
    requires forall k :: 0 <= k < |datums| ==> datums[k].Null? || datums[k].Int?
    ensures Decoded(TableColumn(INT32, pages)) == datums
  {
    hide DecodeIntPages;
    forall k | 0 <= k < |datums| ensures IntDatum(IntOf(datums[k])) == datums[k] {}
  }

  lemma StringsWritten(pages: seq<Page>, datums: seq<Datum>)
    requires DecodeStringPages(pages) == Some(Mapped(datums, StringOf))
    requires forall k :: 0 <= k < |datums| ==> datums[k].Null? || datums[k].Text?
    ensures Decoded(TableColumn(VARCHAR, pages)) == datums
  {
    hide DecodeStringPages;
    forall k | 0 <= k < |datums| ensures StringDatum(StringOf(datums[k])) == datums[k] {}
  }

  method WriteColumn(c: InnerColumn, results: seq<U8>, rows: nat) returns (col: TableColumn, count: nat)
    requires c.Ok() && rows == c.Rows() && |results| == BitmapSize(rows)
    ensures Written(col, c, results, rows) && count == |Selected(c.Datums(), results, rows)|
  {
    SelectedTyped(c, results, rows);
    hide DecodeStringPages, DecodeIntPages, IntColumnOk, StringColumnOk, Selected, InnerColumn.Ok, InnerColumn.Get,
      InnerColumn.Datums, Mapped, Decoded;
    var pages;
    if c.IntColumn? {
      pages, count := FromInnerInts(c, results, rows);
      IntsWritten(pages, Selected(c.Datums(), results, rows));
      col := TableColumn(INT32, pages);
    } else {
      pages, count := FromInnerStrings(c, results, rows);
      StringsWritten(pages, Selected(c.Datums(), results, rows));
      col := TableColumn(VARCHAR, pages);
    }
  }

  // The whole table.

  function Records(cols: seq<InnerColumn>, n: nat): seq<Row>
    requires ColumnsOk(cols, n)
  {
    seq(n, (i: int) requires 0 <= i < n => RecordAt(cols, n, i))
  }

  /** The records that pass, in order. */
  function Passing(records: seq<Row>, filter: Option<Statement>, like: Like): seq<Row> {
    if records == [] then [] else
      Passing(records[..|records| - 1], filter, like)
        + (if filter.Some? ==> EvalRow(filter.value, records[|records| - 1], like) then [records[|records| - 1]]
          else [])
  }

  lemma {:induction false} SelectedPasses(cols: seq<InnerColumn>, n: nat, filter: Option<Statement>, like: Like,
                                          results: seq<U8>, k: nat)
    requires ColumnsOk(cols, n) && k <= n && |results| == BitmapSize(n)
    requires forall i: nat :: i < n ==>
      TestBit(results, i) == (filter.Some? ==> EvalRow(filter.value, RecordAt(cols, n, i), like))
    ensures Selected(Records(cols, n), results, k) == Passing(Records(cols, n)[..k], filter, like)
  {
    hide TestBit, EvalRow, ColumnsOk, RecordAt;
    if k > 0 {
      SelectedPasses(cols, n, filter, like, results, k - 1);
      assert Records(cols, n)[..k][..k - 1] == Records(cols, n)[..k - 1];
    }
  }

  /** The last part of from_csv: filter the rows and write every column. */
  method LoadFiltered(cols: seq<InnerColumn>, n: nat, filter: Option<Statement>, like: Like, threads: nat)
      returns (table: Table, numRows: nat)
    requires ColumnsOk(cols, n) && cols != [] && threads > 0
    requires filter.Some? ==> WellTypedStatement(filter.value, ColumnTypes(cols))
    ensures TableRows(table) == Passing(Records(cols, n), filter, like) && numRows == |TableRows(table)|
    ensures TypesOf(table) == ColumnTypes(cols)
    ensures forall c :: 0 <= c < |table| ==> Scannable(table[c]) && |Decoded(table[c])| == numRows
  {
    hide TestBit, EvalRow, InnerColumn.Ok, InnerColumn.Get, Selected, Passing, WellTypedStatement, Decoded, Scannable;
    var results;
    if filter.Some? {
      results := EvalTable(filter.value, cols, n, like, threads);
    } else {
      results := seq(BitmapSize(n), i => 0xFF);
      AllOnes(results, n);
    }
    SelectedPasses(cols, n, filter, like, results, n);
    assert Records(cols, n)[..n] == Records(cols, n);
    table, numRows := WriteAll(cols, n, results);
  }

  lemma AllOnes(ones: seq<U8>, n: nat)
    requires |ones| == BitmapSize(n) && forall b :: 0 <= b < |ones| ==> ones[b] == 0xFF
    ensures forall i: nat :: i < n ==> TestBit(ones, i)
  {
    forall i: nat | i < n ensures TestBit(ones, i) {
      TestIsBit(ones, i);
      WordSizes();
      NotBit(8, 0, i % 8);
      ZeroBit(i % 8);
    }
  }

  method WriteAll(cols: seq<InnerColumn>, n: nat, results: seq<U8>) returns (table: Table, numRows: nat)
    requires ColumnsOk(cols, n) && cols != [] && |results| == BitmapSize(n)
    ensures TableRows(table) == Selected(Records(cols, n), results, n) && numRows == |TableRows(table)|
    ensures TypesOf(table) == ColumnTypes(cols)
    ensures forall c :: 0 <= c < |table| ==> Scannable(table[c]) && |Decoded(table[c])| == numRows
  {
    hide Scannable, InnerColumn.Ok, InnerColumn.Get, Selected, Decoded, InnerColumn.Datums;
    table, numRows := [], 0;
    for c := 0 to |cols|
      invariant |table| == c && forall k :: 0 <= k < c ==> Written(table[k], cols[k], results, n)
      invariant c > 0 ==> numRows == |Decoded(table[0])|
    {
      var col;
      col, numRows := WriteColumn(cols[c], results, n);
      table := table + [col];
      SameCount(cols, n, results, c, 0);
    }
    forall c | 0 <= c < |cols|
      ensures |Decoded(table[c])| == |Selected(Records(cols, n), results, n)|
      ensures forall k :: 0 <= k < |Decoded(table[c])| ==>
        Decoded(table[c])[k] == CellAt(Selected(Records(cols, n), results, n)[k], c)
    {
      ColumnSelects(cols, n, results, c);
    }
    SelectedWidth(cols, n, results, n);
    forall r | 0 <= r < numRows ensures TableRow(table, r) == Selected(Records(cols, n), results, n)[r] {}
  }

  function CellAt(record: Row, c: nat): Datum {
    if c < |record| then record[c] else Null
  }

  lemma ColumnSelects(cols: seq<InnerColumn>, n: nat, results: seq<U8>, c: nat)
    requires ColumnsOk(cols, n) && c < |cols| && |results| == BitmapSize(n)
    ensures |cols[c].Datums()| == n
    ensures |Selected(cols[c].Datums(), results, n)| == |Selected(Records(cols, n), results, n)|
    ensures forall k :: 0 <= k < |Selected(Records(cols, n), results, n)| ==>
      Selected(cols[c].Datums(), results, n)[k] == CellAt(Selected(Records(cols, n), results, n)[k], c)
  {
    hide InnerColumn.Get, InnerColumn.Ok;
    SelectedMap(Records(cols, n), cols[c].Datums(), (r: Row) => CellAt(r, c), results, n);
  }

  lemma SameCount(cols: seq<InnerColumn>, n: nat, results: seq<U8>, c: nat, d: nat)
    requires ColumnsOk(cols, n) && c < |cols| && d < |cols| && |results| == BitmapSize(n)
    ensures |cols[c].Datums()| == n == |cols[d].Datums()|
    ensures |Selected(cols[c].Datums(), results, n)| == |Selected(cols[d].Datums(), results, n)|
  {
    ColumnSelects(cols, n, results, c);
    ColumnSelects(cols, n, results, d);
  }

  lemma {:induction false} SelectedWidth(cols: seq<InnerColumn>, n: nat, results: seq<U8>, k: nat)
    requires ColumnsOk(cols, n) && k <= n && |results| == BitmapSize(n)
    ensures forall r :: 0 <= r < |Selected(Records(cols, n), results, k)| ==>
      |Selected(Records(cols, n), results, k)[r]| == |cols|
  {
    hide InnerColumn.Get, InnerColumn.Ok;
    if k > 0 { SelectedWidth(cols, n, results, k - 1); }
  }
}

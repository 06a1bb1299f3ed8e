/** The loader's uncompressed table: records are appended field by field to typed columns. */
module InnerTables {
  import opened Scan
  import opened Relations
  import opened InnerColumns
  import opened Filters
  import opened Loader

  datatype AnyColumn = Ints(ints: InnerInts) | Strings(strings: InnerStrings)
  {
    function Object(): object {
      if Ints? then ints else strings
    }

    function Type(): DataType {
      if Ints? then INT32 else VARCHAR
    }

    function Value(): InnerColumn
      reads Object()
    {
      if Ints? then ints.Value() else strings.Value()
    }

    ghost predicate Valid()
      reads Object()
    {
      Value().Ok() && (Strings? ==> strings.Valid())
    }
  }

  /** What a column of this type keeps of a field: a value of another type becomes null. */
  function Kept(dtype: DataType, d: Datum): Datum {
    if (if dtype == INT32 then d.Int? else d.Text?) then d else Null
  }

  function KeptRecord(types: seq<DataType>, record: Row): Row
    requires |record| == |types|
  {
    seq(|record|, (c: int) requires 0 <= c < |record| => Kept(types[c], record[c]))
  }

  method PushField(column: AnyColumn, d: Datum)
    requires column.Valid()
    modifies column.Object()
    ensures column.Valid() && column.Value().Datums() == old(column.Value().Datums()) + [Kept(column.Type(), d)]
  {
    hide InnerColumn.Ok, InnerColumn.Datums, InnerStrings.Valid;
    match column {
      case Ints(ints) => if d.Int? { ints.PushBack(d.i); } else { ints.PushBackNull(); }
      case Strings(strings) =>
        StringsValid(strings);
        if d.Text? { strings.PushBack(d.s); } else { strings.PushBackNull(); }
        StringsValid(strings);
    }
  }

  lemma StringsValid(strings: InnerStrings)
    ensures strings.Valid() ==> strings.Value().Ok()
  {
  }

  /** Column c of the records. */
  function Cells(records: seq<Row>, c: nat): seq<Datum> {
    seq(|records|, (r: int) requires 0 <= r < |records| => CellAt(records[r], c))
  }

  lemma CellsNext(records: seq<Row>, record: Row, c: nat)
    ensures Cells(records + [record], c) == Cells(records, c) + [CellAt(record, c)]
  {
  }

  ghost predicate Distinct(columns: seq<AnyColumn>) {
    forall c, d :: 0 <= c < d < |columns| ==> columns[c].Object() != columns[d].Object()
  }

  class InnerTable {
    const columns: seq<AnyColumn>
    var rows: nat
    ghost var records: seq<Row>                 // the records added so far

    ghost function Objects(): set<object> {
      set c | c in columns :: c.Object()
    }

    function Types(): (types: seq<DataType>)
      ensures |types| == |columns|
    {
      seq(|columns|, (c: int) requires 0 <= c < |columns| => columns[c].Type())
    }

    ghost predicate Valid()
      reads this, Objects()
    {
      && rows == |records| && Distinct(columns)
      && (forall r :: 0 <= r < rows ==> |records[r]| == |columns|)
      && forall c :: 0 <= c < |columns| ==> columns[c].Valid() && columns[c].Value().Datums() == Cells(records, c)
    }

    constructor (types: seq<DataType>)
      ensures Valid() && fresh(Objects()) && Types() == types && records == []
    {
      hide InnerColumn.Ok, InnerColumn.Datums, InnerStrings.Valid;
      var cols: seq<AnyColumn> := [];
      for c := 0 to |types|
        invariant |cols| == c && Distinct(cols)
        invariant forall k :: 0 <= k < c ==> cols[k].Type() == types[k] && fresh(cols[k].Object()) && cols[k].Valid()
        invariant forall k :: 0 <= k < c ==> cols[k].Value().Datums() == []
      {
        var column;
        if types[c] == INT32 {
          var ints := new InnerInts();
          column := Ints(ints);
        } else {
          var strings := new InnerStrings();
          StringsValid(strings);
          column := Strings(strings);
        }
        cols := cols + [column];
      }
      columns, rows, records := cols, 0, [];
    }

    /** Every field goes to its column. */
    method AddRecord(record: Row)
      requires Valid() && |record| == |columns|
      modifies this, Objects()
      ensures Valid() && records == old(records) + [KeptRecord(Types(), record)]
    {
      hide AnyColumn.Value, InnerColumn.Ok, InnerColumn.Datums, InnerStrings.Valid, AnyColumn.Type, Kept, Cells;
      ghost var kept := KeptRecord(Types(), record);
      ghost var before := records;
      rows := rows + 1;
      for c := 0 to |columns|
        invariant rows == |before| + 1 && records == before
        invariant forall k :: 0 <= k < |columns| ==> columns[k].Valid()
        invariant forall k :: 0 <= k < |columns| ==>
          columns[k].Value().Datums() == Cells(if k < c then before + [kept] else before, k)
      {
        CellsNext(before, kept, c);
        PushField(columns[c], record[c]);
      }
      records := records + [kept];
    }

    /** The columns as values, for the filter and the page writers. */
    method View() returns (cols: seq<InnerColumn>)
      requires Valid()
      ensures ColumnsOk(cols, rows) && ColumnTypes(cols) == Types() && Records(cols, rows) == records
    {
      hide InnerColumn.Ok, InnerColumn.Get;
      cols := [];
      for c := 0 to |columns|
        invariant |cols| == c && forall k :: 0 <= k < c ==> cols[k].Ok() && cols[k] == columns[k].Value()
      {
        cols := cols + [columns[c].Value()];
      }
      forall c | 0 <= c < |cols|
        ensures cols[c].Rows() == rows && forall r :: 0 <= r < rows ==> cols[c].Get(r) == records[r][c]
      {
        assert cols[c].Datums() == Cells(records, c);
        assert |cols[c].Datums()| == rows;
        forall r | 0 <= r < rows ensures cols[c].Get(r) == records[r][c] {
          assert cols[c].Datums()[r] == Cells(records, c)[r];
        }
      }
      forall r | 0 <= r < rows ensures RecordAt(cols, rows, r) == records[r] {}
    }
  }
}

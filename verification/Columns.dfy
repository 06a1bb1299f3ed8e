/** The engine's columns: 8-byte values in buffers of 1024, or an INT32 table column read page by page. */
module Columns {
  import opened Bags
  import opened Bits
  import opened Options
  import opened Pages

  const BUFFER_SIZE: nat := 1024                // MAX_PER_BUFFER_ENTRY

  /** value_t: two 32-bit halves.  An integer keeps its value in lo and a non-null flag in hi; a string reference
      keeps table and column in lo, page and offset in hi. */
  datatype Value = Value(lo: U32, hi: U32) {
    function IntVal(): I32 {
      if lo < 0x8000_0000 then lo else lo - 0x1_0000_0000
    }
    function Status(): U32 { hi }
    function TableId(): U16 { lo % 0x1_0000 }
    function ColId(): U16 { lo / 0x1_0000 }
    function PageId(): U16 { hi % 0x1_0000 }
    function Offset(): U16 { hi / 0x1_0000 }

    /** The null test that materialisation applies to both types. */
    predicate IsNull() {
      Offset() == 0xFFFF || Status() == 0
    }
  }

  function IntValue(v: I32): Value {
    Value(if v < 0 then v + 0x1_0000_0000 else v, 1)
  }

  /** What an integer slot holds. */
  function IntRow(v: Value): Option<I32> {
    if v.Status() != 0 then Some(v.IntVal()) else None
  }

  /** A null integer; the value half is never initialised. */
  function NullInt(garbage: U32): Value {
    Value(garbage, 0)
  }

  function StringRef(table: U16, col: U16, page: U16, offset: U16): Value {
    Value(table + 0x1_0000 * col, page + 0x1_0000 * offset)
  }

  lemma OverlayIsRight(v: I32, garbage: U32, table: U16, col: U16, page: U16, offset: U16)
    ensures !IntValue(v).IsNull() && IntValue(v).IntVal() == v && IntValue(v).Status() != 0
    ensures NullInt(garbage).IsNull() && NullInt(garbage).Status() == 0
    ensures var r := StringRef(table, col, page, offset);
      && r.TableId() == table && r.ColId() == col && r.PageId() == page && r.Offset() == offset
      && (4 <= offset ==> (r.IsNull() <==> offset == 0xFFFF))
  {
  }

  /** All buffers but the last are full, and the last is not empty. */
  ghost predicate Packed(buffers: seq<seq<Value>>) {
    && (forall b :: 0 <= b < |buffers| - 1 ==> |buffers[b]| == BUFFER_SIZE)
    && (buffers != [] ==> 0 < |buffers[|buffers| - 1]| <= BUFFER_SIZE)
  }

  /** Appending a value, in a new buffer if there is none with room. */
  function Push(buffers: seq<seq<Value>>, v: Value): seq<seq<Value>> {
    if buffers == [] || |buffers[|buffers| - 1]| == BUFFER_SIZE then buffers + [[v]]
    else buffers[|buffers| - 1 := buffers[|buffers| - 1] + [v]]
  }

  lemma PushAppends(buffers: seq<seq<Value>>, v: Value)
    requires Packed(buffers)
    ensures Packed(Push(buffers, v)) && Flatten(Push(buffers, v)) == Flatten(buffers) + [v]
  {
    var n := |buffers|;
    if buffers == [] || |buffers[n - 1]| == BUFFER_SIZE {
      FlattenCat(buffers, [[v]]);
      assert Flatten([[v]]) == [v];
    } else {
      assert Push(buffers, v)[..n - 1] == buffers[..n - 1];
    }
  }

  /** Buffer b of a packed column starts at row b * 1024. */
  lemma {:induction false} PackedSize(buffers: seq<seq<Value>>, b: nat)
    requires Packed(buffers) && b < |buffers|
    ensures |Flatten(buffers[..b])| == b * BUFFER_SIZE
  {
    if b > 0 {
      PackedSize(buffers, b - 1);
      FlattenNext(buffers, b - 1);
    }
  }

  lemma PackedAt(buffers: seq<seq<Value>>, row: nat)
    requires Packed(buffers) && row < |Flatten(buffers)|
    ensures row / BUFFER_SIZE < |buffers| && row % BUFFER_SIZE < |buffers[row / BUFFER_SIZE]|
    ensures Flatten(buffers)[row] == buffers[row / BUFFER_SIZE][row % BUFFER_SIZE]
  {
    var n := |buffers|;
    PackedSize(buffers, n - 1);
    FlattenNext(buffers, n - 1);
    assert buffers[..n] == buffers;
    var b := row / BUFFER_SIZE;
    assert b < n;
    PackedSize(buffers, b);
    FlattenAt(buffers, b, row % BUFFER_SIZE);
  }

  /** column_t. */
  datatype Column =
    | Buffered(buffers: seq<seq<Value>>, numRows: nat)
    | Direct(pages: seq<Page>, rowsPerPage: nat, pageRowIds: seq<nat>, numRows: nat)
  {
    function GetValue(row: nat): Value
      requires Ok() && row < numRows
    {
      if Buffered? then BufferedValue(buffers, row) else DirectValue(this, row)
    }

    ghost predicate Ok() {
      if Buffered? then Packed(buffers) && numRows == |Flatten(buffers)| else DirectOk(this)
    }

    /** The units of work that probing threads claim: pages, or buffers. */
    function Units(): seq<seq<Value>> {
      if Buffered? then buffers else seq(|pages|, (u: int) requires 0 <= u < |pages| => PageValues(pages[u]))
    }
  }

  function BufferedValue(buffers: seq<seq<Value>>, row: nat): Value
    requires Packed(buffers) && row < |Flatten(buffers)|
  {
    PackedAt(buffers, row);
    buffers[row / BUFFER_SIZE][row % BUFFER_SIZE]
  }

  function DirectValue(c: Column, row: nat): Value
    requires c.Direct? && DirectOk(c) && row < c.numRows
  {
    hide DirectOk, Flatten, ReadU16, IntAt;
    DirectAt(c, row);
    IntValue(IntAt(c.pages[row / c.rowsPerPage], row % c.rowsPerPage))
  }

  /** get_value finds row number `row` of the column's units, whichever representation the column has. */
  lemma GetValueIs(c: Column, row: nat)
    requires c.Ok() && row < c.numRows
    ensures |Flatten(c.Units())| == c.numRows && c.GetValue(row) == Flatten(c.Units())[row]
  {
    if c.Buffered? {
      PackedAt(c.buffers, row);
    } else {
      DirectAt(c, row);
      PageStart(c, |c.pages|);
      assert c.Units()[..|c.pages|] == c.Units();
    }
  }

  function PageValues(page: Page): seq<Value> {
    seq(ReadU16(page, 0), (i: int) requires 0 <= i => IntValue(IntAt(page, i)))
  }

  /** The pages of an INT32 column without nulls: as many rows on every page but the last, and the running totals. */
  ghost predicate DirectOk(c: Column)
    requires c.Direct?
  {
    && 0 < c.rowsPerPage && |c.pageRowIds| == |c.pages| + 1 && c.pageRowIds[0] == 0
    && (forall u :: 0 <= u < |c.pages| ==> c.pageRowIds[u + 1] == c.pageRowIds[u] + ReadU16(c.pages[u], 0))
    && (forall u :: 0 <= u < |c.pages| - 1 ==> ReadU16(c.pages[u], 0) == c.rowsPerPage)
    && (c.pages != [] ==> ReadU16(c.pages[|c.pages| - 1], 0) <= c.rowsPerPage)
    && c.numRows == c.pageRowIds[|c.pages|]
  }

  /** Page u starts at row pageRowIds[u], which is u * rowsPerPage. */
  lemma {:induction false} PageStart(c: Column, u: nat)
    requires c.Direct? && DirectOk(c) && u <= |c.pages|
    ensures c.pageRowIds[u] == |Flatten(c.Units()[..u])|
    ensures u < |c.pages| ==> c.pageRowIds[u] == u * c.rowsPerPage
  {
    hide Flatten, ReadU16, IntAt;
    if u > 0 {
      PageStart(c, u - 1);
      FlattenNext(c.Units(), u - 1);
      OneMore(u - 1, c.rowsPerPage);
    } else {
      NoUnits(c.Units());
    }
  }

  lemma OneMore(x: nat, k: nat)
    ensures (x + 1) * k == x * k + k
  {
  }

  lemma NoUnits(units: seq<seq<Value>>)
    ensures Flatten(units[..0]) == []
  {
  }

  /** Dividing by rowsPerPage finds the page and the place of a row. */
  lemma DirectAt(c: Column, row: nat)
    requires c.Direct? && DirectOk(c) && row < c.numRows
    ensures c.rowsPerPage > 0 && 0 <= row / c.rowsPerPage < |c.pages|
    ensures 0 <= row % c.rowsPerPage < ReadU16(c.pages[row / c.rowsPerPage], 0)
    ensures row < |Flatten(c.Units())|
    ensures Flatten(c.Units())[row] == IntValue(IntAt(c.pages[row / c.rowsPerPage], row % c.rowsPerPage))
  {
    hide ReadU16, IntAt, Flatten;
    var n, k := |c.pages|, c.rowsPerPage;
    var u, i := row / k, row % k;
    DivMod(row, k);
    PageStart(c, n - 1);
    if u >= n { MulMono(n, u, k); }
    PageStart(c, u);
    if u < n - 1 { } else { PageStart(c, n); }
    assert i < ReadU16(c.pages[u], 0);
    hide DirectOk;
    FlattenAt(c.Units(), u, i);
  }

  lemma DivMod(x: nat, k: nat)
    requires k > 0
    ensures x == (x / k) * k + x % k && x % k < k && 0 <= x / k
  {
  }
}

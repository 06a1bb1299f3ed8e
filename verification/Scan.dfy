/** build_column_inserter: turning a table column, stored as pages, into an engine column.  Integers are copied, or
    read in place if there are no nulls; strings become references that are resolved only when results are written. */
module Scan {
  import opened Bags
  import opened Bits
  import opened Bitmaps
  import opened Options
  import opened Pages
  import opened StringPages
  import opened Columns

  datatype DataType = INT32 | VARCHAR

  datatype TableColumn = TableColumn(dtype: DataType, pages: seq<Page>)

  // Integer columns.

  ghost predicate NullFree(page: Page) {
    ReadU16(page, 2) == ReadU16(page, 0)
  }

  /** What the INT32 codec guarantees of a column's pages: each is laid out for its rows, none is empty, and if
      none has a null then all but the last have equally many rows and the last has no more. */
  ghost predicate IntColumnOk(pages: seq<Page>) {
    && (forall p :: 0 <= p < |pages| ==> IntPageOk(pages[p]))
    && ((forall p :: 0 <= p < |pages| ==> NullFree(pages[p])) ==> SameSizes(pages))
  }

  ghost predicate IntPageOk(page: Page) {
    ReadU16(page, 0) > 0 && IntPageFor(page, DecodeIntPage(page))
  }

  ghost predicate SameSizes(pages: seq<Page>) {
    && (forall p :: 0 <= p < |pages| ==> ReadU16(pages[p], 0) <= ReadU16(pages[0], 0))
    && (forall p :: 0 <= p < |pages| - 1 ==> ReadU16(pages[p], 0) == ReadU16(pages[0], 0))
  }

  /** The value denotes the row. */
  predicate IsInt(v: Value, row: Option<I32>) {
    if row.Some? then v.Status() == 1 && v.IntVal() == row.value else v.Status() == 0
  }

  ghost predicate AreInts(values: seq<Value>, rows: seq<Option<I32>>) {
    |values| == |rows| && forall i :: 0 <= i < |rows| ==> IsInt(values[i], rows[i])
  }

  /** A page without nulls holds its values in row order. */
  lemma NullFreePage(page: Page)
    requires IntPageFor(page, DecodeIntPage(page)) && NullFree(page)
    ensures AreInts(PageValues(page), DecodeIntPage(page))
  {
    var rows := DecodeIntPage(page);
    NonNullsBound(rows);
    forall i | 0 <= i < |rows| ensures IsInt(PageValues(page)[i], rows[i]) {
      assert rows[i].Some?;
      NonNullsAll(rows, i);
      assert IntAt(page, i) == rows[i].value;
      OverlayIsRight(IntAt(page, i), 0, 0, 0, 0, 0);
    }
  }

  lemma NonNullsAll<T>(rows: seq<Option<T>>, i: nat)
    requires i < |rows| && forall k :: 0 <= k < |rows| ==> rows[k].Some?
    ensures |NonNulls(rows)| == |rows| && NonNulls(rows)[i] == rows[i].value
  {
    NonNullsBound(rows[..i]);
    NthNonNull(rows, i);
    NonNullsBound(rows);
  }

  /** The buffers filled so far, and the one being filled. */
  ghost predicate Filling(buffers: seq<seq<Value>>, current: seq<Value>) {
    (forall b :: 0 <= b < |buffers| ==> |buffers[b]| == BUFFER_SIZE) && |current| < BUFFER_SIZE
  }

  method Append(buffers: seq<seq<Value>>, current: seq<Value>, v: Value)
      returns (buffers': seq<seq<Value>>, current': seq<Value>)
    requires Filling(buffers, current)
    ensures Filling(buffers', current')
    ensures Flatten(buffers') + current' == Flatten(buffers) + current + [v]
  {
    buffers', current' := buffers, current + [v];
    if |current'| == BUFFER_SIZE {
      buffers' := buffers + [current'];
      FlattenNext(buffers', |buffers|);
      assert buffers'[..|buffers|] == buffers && buffers'[..|buffers| + 1] == buffers';
      current' := [];
    }
  }

  method Finish(buffers: seq<seq<Value>>, current: seq<Value>) returns (c: Column)
    requires Filling(buffers, current)
    ensures c.Ok() && c.Buffered? && Flatten(c.buffers) == Flatten(buffers) + current
  {
    var all := buffers;
    if |current| > 0 {
      all := buffers + [current];
      FlattenNext(all, |buffers|);
      assert all[..|buffers|] == buffers && all[..|buffers| + 1] == all;
    }
    if all == [] {
      return Buffered([], 0);
    }
    PackedSize(all, |all| - 1);
    FlattenNext(all, |all| - 1);
    assert all[..|all|] == all;
    return Buffered(all, (|all| - 1) * BUFFER_SIZE + |all[|all| - 1]|);
  }

  method BuildIntColumn(pages: seq<Page>) returns (c: Column)
    requires IntColumnOk(pages)
    ensures c.Ok() && AreInts(Flatten(c.Units()), DecodeIntPages(pages))
    ensures c.Direct? <==> pages != [] && forall p :: 0 <= p < |pages| ==> NullFree(pages[p])
    ensures c.Direct? ==> c.pages == pages
  {
    hide IntPageFor, DecodeIntPage, DecodeIntPages, ReadU16, Flatten, SameSizes;
    var hasNulls, firstPageRows := false, 0;
    for p := 0 to |pages|
      invariant !hasNulls && (forall q :: 0 <= q < p ==> NullFree(pages[q]))
      invariant firstPageRows == if p == 0 then 0 else ReadU16(pages[0], 0)
    {
      var nr, nv := ReadU16(pages[p], 0), ReadU16(pages[p], 2);
      if firstPageRows == 0 { firstPageRows := nr; }
      if nv != nr {
        hasNulls := true;
        break;
      }
    }
    if !hasNulls && firstPageRows > 0 {
      c := DirectColumn(pages, firstPageRows);
    } else {
      c := CopyInts(pages);
    }
  }

  /** Reading in place: the pages stay where they are; only the running row counts are computed. */
  method DirectColumn(pages: seq<Page>, firstPageRows: nat) returns (c: Column)
    requires IntColumnOk(pages) && pages != [] && forall p :: 0 <= p < |pages| ==> NullFree(pages[p])
    requires 0 < firstPageRows == ReadU16(pages[0], 0)
    ensures c.Ok() && AreInts(Flatten(c.Units()), DecodeIntPages(pages)) && c.Direct? && c.pages == pages
  {
    hide IntPageFor, DecodeIntPage, DecodeIntPages, ReadU16, Flatten, AreInts, NullFree;
    var rowIds: seq<nat>, numRows := [0], 0;
    for p := 0 to |pages|
      invariant |rowIds| == p + 1 && rowIds[0] == 0 && rowIds[p] == numRows
      invariant forall u :: 0 <= u < p ==> rowIds[u + 1] == rowIds[u] + ReadU16(pages[u], 0)
    {
      numRows := numRows + ReadU16(pages[p], 0);
      rowIds := rowIds + [numRows];
    }
    c := Direct(pages, firstPageRows, rowIds, numRows);
    assert DirectOk(c);
    forall u | 0 <= u < |pages| ensures AreInts(PageValues(pages[u]), DecodeIntPage(pages[u])) {
      NullFreePage(pages[u]);
    }
    UnitsDecode(pages, c.Units());
  }

  lemma {:induction false} UnitsDecode(pages: seq<Page>, units: seq<seq<Value>>)
    requires |units| == |pages| && forall u :: 0 <= u < |pages| ==> AreInts(units[u], DecodeIntPage(pages[u]))
    ensures AreInts(Flatten(units), DecodeIntPages(pages))
  {
    if pages != [] {
      var n := |pages| - 1;
      UnitsDecode(pages[..n], units[..n]);
      assert AreInts(units[n], DecodeIntPage(pages[n]));
    }
  }

  /** Every row is copied into buffers; a null row's value half keeps whatever was in memory. */
  method CopyInts(pages: seq<Page>) returns (c: Column)
    ensures c.Ok() && c.Buffered? && AreInts(Flatten(c.Units()), DecodeIntPages(pages))
  {
    var buffers, current: seq<Value> := [], [];
    for p := 0 to |pages|
      invariant Filling(buffers, current) && AreInts(Flatten(buffers) + current, DecodeIntPages(pages[..p]))
    {
      buffers, current := CopyIntPage(buffers, current, pages[p], DecodeIntPages(pages[..p]));
      DecodeIntPagesNext(pages[..p], pages[p]);
      assert pages[..p + 1] == pages[..p] + [pages[p]];
    }
    assert pages[..|pages|] == pages;
    c := Finish(buffers, current);
  }

  method CopyIntPage(buffers: seq<seq<Value>>, current: seq<Value>, page: Page, ghost before: seq<Option<I32>>)
      returns (buffers': seq<seq<Value>>, current': seq<Value>)
    requires Filling(buffers, current) && AreInts(Flatten(buffers) + current, before)
    ensures Filling(buffers', current') && AreInts(Flatten(buffers') + current', before + DecodeIntPage(page))
  {
    hide DecodeInts, IntAt, TestBit, IntValue, NullInt, IsInt, AreInts, Filling, Flatten, PageBitmap, NonNulls, ReadU16;
    buffers', current' := buffers, current;
    var nr, curNvRow := ReadU16(page, 0), 0;
    DecodeIntsNone(page);
    assert before + [] == before;
    for i := 0 to nr
      invariant Filling(buffers', current') && curNvRow == |NonNulls(DecodeInts(page, i))|
      invariant AreInts(Flatten(buffers') + current', before + DecodeInts(page, i))
    {
      DecodeIntsNext(page, i);
      ghost var rows, row :=
        DecodeInts(page, i), if TestBit(PageBitmap(page, nr), i) then Some(IntAt(page, curNvRow)) else None;
      NonNullsNext(rows, row);
      var garbage: U32 := *;
      var v := NullInt(garbage);
      NullIsInt(garbage);
      if TestBit(PageBitmap(page, nr), i) {
        v := IntValue(IntAt(page, curNvRow));
        ValueIsInt(IntAt(page, curNvRow));
        curNvRow := curNvRow + 1;
      }
      AreIntsNext(Flatten(buffers') + current', before, rows, v, row);
      buffers', current' := Append(buffers', current', v);
    }
  }

  lemma NullIsInt(garbage: U32)
    ensures IsInt(NullInt(garbage), None)
  {
  }

  lemma ValueIsInt(v: I32)
    ensures IsInt(IntValue(v), Some(v))
  {
  }

  lemma AreIntsNext(values: seq<Value>, before: seq<Option<I32>>, rows: seq<Option<I32>>, v: Value, row: Option<I32>)
    requires AreInts(values, before + rows) && IsInt(v, row)
    ensures AreInts(values + [v], before + (rows + [row]))
  {
    assert before + (rows + [row]) == (before + rows) + [row];
  }

  // String columns.

  /** The string that a reference stands for. */
  function Resolve(pages: seq<Page>, v: Value): Option<Str>
    requires v.PageId() < |pages| && v.Offset() >= 4
  {
    if v.Offset() == 0xFFFF then None
    else if IsFirst(pages[v.PageId()]) then Some(LongAt(pages, v.PageId()))
    else Some(StringAt(pages[v.PageId()], (v.Offset() - 4) / 2))
  }

  /** The reference names its row's string in the pages of column (t, c). */
  ghost predicate Refers(t: U16, c: U16, pages: seq<Page>, v: Value, row: Option<Str>) {
    && v.TableId() == t && v.ColId() == c && v.PageId() < |pages| && v.Offset() >= 4
    && !IsNext(pages[v.PageId()]) && InPage(pages[v.PageId()], v.Offset())
    && Resolve(pages, v) == row
  }

  /** On a regular page the reference gives the place of one of the end offsets. */
  predicate InPage(page: Page, offset: U16)
    requires offset >= 4
  {
    offset == 0xFFFF || IsFirst(page) || (offset % 2 == 0 && (offset - 4) / 2 < ReadU16(page, 2))
  }

  ghost predicate AreRefs(t: U16, c: U16, pages: seq<Page>, values: seq<Value>, rows: seq<Option<Str>>) {
    |values| == |rows| && forall i :: 0 <= i < |rows| ==> Refers(t, c, pages, values[i], rows[i])
  }

  /** A page that continues no string changes no string before it. */
  lemma {:induction false} LongAtSame(pages: seq<Page>, page: Page, p: nat)
    requires p < |pages| && !IsNext(page)
    ensures LongAt(pages + [page], p) == LongAt(pages, p)
    decreases |pages| - p
  {
    if p + 1 < |pages| {
      assert (pages + [page])[p + 1] == pages[p + 1];
      if IsNext(pages[p + 1]) { LongAtSame(pages, page, p + 1); }
    }
  }

  /** A continuation page extends the string whose pages reach up to it ... */
  lemma {:induction false} LongAtGrows(pages: seq<Page>, page: Page, p: nat)
    requires p < |pages| && IsNext(page) && forall q :: p < q < |pages| ==> IsNext(pages[q])
    ensures LongAt(pages + [page], p) == LongAt(pages, p) + LongChars(page)
    decreases |pages| - p
  {
    hide LongAt, LongChars, IsNext;
    var all := pages + [page];
    LongAtNext(all, p);
    LongAtNext(pages, p);
    assert all[p] == pages[p];
    if p + 1 < |pages| {
      assert all[p + 1] == pages[p + 1];
      LongAtGrows(pages, page, p + 1);
      assert (LongChars(pages[p]) + LongAt(pages, p + 1)) + LongChars(page)
          == LongChars(pages[p]) + (LongAt(pages, p + 1) + LongChars(page));
    } else {
      assert all[p + 1] == page;
      LongAtNext(all, p + 1);
    }
  }

  lemma LongAtNext(pages: seq<Page>, p: nat)
    requires p < |pages|
    ensures LongAt(pages, p) == if p + 1 < |pages| && IsNext(pages[p + 1])
                                then LongChars(pages[p]) + LongAt(pages, p + 1) else LongChars(pages[p])
  {
    hide LongChars, IsNext;
  }

  /** ... and no other. */
  lemma {:induction false} LongAtStops(pages: seq<Page>, page: Page, p: nat, q: nat)
    requires p < q < |pages| && !IsNext(pages[q])
    ensures LongAt(pages + [page], p) == LongAt(pages, p)
    decreases |pages| - p
  {
    hide LongAt, LongChars, IsNext;
    LongAtNext(pages + [page], p);
    LongAtNext(pages, p);
    assert (pages + [page])[p + 1] == pages[p + 1];
    if IsNext(pages[p + 1]) { LongAtStops(pages, page, p + 1, q); }
  }

  /** The last page that starts something is f; if it starts a long string, the last reference is to it, and no
      other reference is. */
  ghost predicate TailAt(pages: seq<Page>, values: seq<Value>, f: nat) {
    && f < |pages| && !IsNext(pages[f]) && (forall q :: f < q < |pages| ==> IsNext(pages[q]))
    && (IsFirst(pages[f]) ==>
          && values != [] && values[|values| - 1].PageId() == f && values[|values| - 1].Offset() == 4
          && forall i :: 0 <= i < |values| - 1 ==> values[i].PageId() < f)
  }

  /** References stay right when a page follows that starts something new. */
  lemma RefsKept(t: U16, c: U16, pages: seq<Page>, page: Page, values: seq<Value>, rows: seq<Option<Str>>)
    requires AreRefs(t, c, pages, values, rows) && !IsNext(page)
    ensures AreRefs(t, c, pages + [page], values, rows)
  {
    forall i | 0 <= i < |rows| ensures Refers(t, c, pages + [page], values[i], rows[i]) {
      assert Refers(t, c, pages, values[i], rows[i]);
      LongAtSame(pages, page, values[i].PageId());
      hide StringAt, LongAt, IsNext, IsFirst;
    }
  }

  /** When a continuation page follows, the last reference stands for the longer string. */
  lemma RefsContinued(t: U16, c: U16, pages: seq<Page>, page: Page, values: seq<Value>, rows: seq<Option<Str>>, f: nat)
    requires AreRefs(t, c, pages, values, rows) && TailAt(pages, values, f) && IsNext(page) && IsFirst(pages[f])
    ensures rows != [] && rows[|rows| - 1].Some?
    ensures AreRefs(t, c, pages + [page], values, rows[..|rows| - 1] + [Some(rows[|rows| - 1].value + LongChars(page))])
    ensures TailAt(pages + [page], values, f)
  {
    var n := |rows| - 1;
    assert Refers(t, c, pages, values[n], rows[n]);
    var rows' := rows[..n] + [Some(rows[n].value + LongChars(page))];
    forall i | 0 <= i < |rows'| ensures Refers(t, c, pages + [page], values[i], rows'[i]) {
      assert Refers(t, c, pages, values[i], rows[i]);
      if i == n { LongAtGrows(pages, page, f); } else { LongAtStops(pages, page, values[i].PageId(), f); }
      hide StringAt, LongAt, IsNext, IsFirst, LongChars;
    }
  }

  lemma RefsNext(t: U16, c: U16, pages: seq<Page>, values: seq<Value>, rows: seq<Option<Str>>, v: Value,
                 row: Option<Str>)
    requires AreRefs(t, c, pages, values, rows) && Refers(t, c, pages, v, row)
    ensures AreRefs(t, c, pages, values + [v], rows + [row])
  {
    hide Refers;
  }

  lemma FirstTail(t: U16, c: U16, pages: seq<Page>, page: Page, values: seq<Value>, rows: seq<Option<Str>>, v: Value)
    requires AreRefs(t, c, pages, values, rows) && !IsNext(page) && v.PageId() == |pages| && v.Offset() == 4
    ensures TailAt(pages + [page], values + [v], |pages|)
  {
    forall i | 0 <= i < |values| ensures (values + [v])[i].PageId() < |pages| {
      assert Refers(t, c, pages, values[i], rows[i]);
    }
  }

  lemma FirstRefers(t: U16, c: U16, pages: seq<Page>, page: Page)
    requires |pages| < 0x1_0000 && IsFirst(page)
    ensures var v := StringRef(t, c, |pages|, 4);
      Refers(t, c, pages + [page], v, Some(LongChars(page))) && v.PageId() == |pages| && v.Offset() == 4
  {
    OverlayIsRight(0, 0, t, c, |pages|, 4);
    assert (pages + [page])[|pages|] == page && LongAt(pages + [page], |pages|) == LongChars(page);
  }

  lemma NextFollowsLong(pages: seq<Page>, page: Page, values: seq<Value>, f: nat)
    requires StringColumnOk(pages + [page]) && IsNext(page) && (pages != [] ==> TailAt(pages, values, f))
    ensures pages != [] && IsFirst(pages[f])
  {
    var all := pages + [page];
    assert StringPageOk(all, |pages|) && all[|pages|] == page;
    assert StringPageOk(all, f + 1) && all[f] == pages[f];
  }

  /** References for a VARCHAR column.  Table, column and page numbers are 16 bits wide. */
  method BuildStringColumn(t: nat, c: nat, pages: seq<Page>) returns (col: Column)
    requires t < 0x1_0000 && c < 0x1_0000 && |pages| <= 0x1_0000
    requires StringColumnOk(pages) && DecodeStringPages(pages).Some?
    ensures col.Ok() && AreRefs(t, c, pages, Flatten(col.Units()), DecodeStringPages(pages).value)
  {
    hide AreRefs, TailAt, DecodeOnePage, DecodeStringPages, Flatten;
    var buffers, current: seq<Value> := [], [];
    ghost var f := 0;
    NoRefs(t, c, pages);
    assert Flatten(buffers) + current == [];
    for idx := 0 to |pages|
      invariant Filling(buffers, current) && DecodeStringPages(pages[..idx]).Some?
      invariant AreRefs(t, c, pages[..idx], Flatten(buffers) + current, DecodeStringPages(pages[..idx]).value)
      invariant idx > 0 ==> TailAt(pages[..idx], Flatten(buffers) + current, f)
    {
      assert pages[..idx + 1] == pages[..idx] + [pages[idx]];
      PrefixDecodes(pages, idx + 1);
      DecodeStringPagesNext(pages[..idx], pages[idx]);
      StringPagePrefix(pages, idx);
      buffers, current, f :=
        AddPage(t, c, idx, pages[..idx], pages[idx], buffers, current, DecodeStringPages(pages[..idx]).value, f);
    }
    assert pages[..|pages|] == pages;
    col := Finish(buffers, current);
  }

  lemma NoRefs(t: U16, c: U16, pages: seq<Page>)
    ensures DecodeStringPages(pages[..0]) == Some([]) && AreRefs(t, c, pages[..0], [], []) && Flatten<Value>([]) == []
  {
  }

  lemma StringPagePrefix(pages: seq<Page>, idx: nat)
    requires StringColumnOk(pages) && idx < |pages|
    ensures StringColumnOk(pages[..idx] + [pages[idx]])
  {
    forall p | 0 <= p <= idx ensures StringPageOk(pages[..idx] + [pages[idx]], p) { assert StringPageOk(pages, p); }
  }

  method AddPage(t: U16, c: U16, idx: U16, ghost prefix: seq<Page>, page: Page, buffers: seq<seq<Value>>,
                 current: seq<Value>, ghost rows: seq<Option<Str>>, ghost f: nat)
      returns (buffers': seq<seq<Value>>, current': seq<Value>, ghost f': nat)
    requires idx == |prefix| && StringColumnOk(prefix + [page]) && Filling(buffers, current)
    requires AreRefs(t, c, prefix, Flatten(buffers) + current, rows) && DecodeOnePage(rows, page).Some?
    requires prefix != [] ==> TailAt(prefix, Flatten(buffers) + current, f)
    ensures Filling(buffers', current')
    ensures AreRefs(t, c, prefix + [page], Flatten(buffers') + current', DecodeOnePage(rows, page).value)
    ensures TailAt(prefix + [page], Flatten(buffers') + current', f')
  {
    hide AreRefs, Refers, LongAt, LongChars, Flatten, StringPageFor, DecodeStrings, StringRef, ReadU16;
    buffers', current', f' := buffers, current, f;
    ghost var values := Flatten(buffers) + current;
    if ReadU16(page, 0) == LONG_FIRST {
      RefsKept(t, c, prefix, page, values, rows);
      FirstRefers(t, c, prefix, page);
      var v := StringRef(t, c, idx, 4);
      FirstTail(t, c, prefix, page, values, rows, v);
      RefsNext(t, c, prefix + [page], values, rows, v, Some(LongChars(page)));
      buffers', current' := Append(buffers, current, v);
      f' := idx;
    } else if ReadU16(page, 0) == LONG_NEXT {
      NextFollowsLong(prefix, page, values, f);
      RefsContinued(t, c, prefix, page, values, rows, f);
    } else {
      RefsKept(t, c, prefix, page, values, rows);
      assert (prefix + [page])[idx] == page && StringPageOk(prefix + [page], idx);
      buffers', current' := CopyRefs(t, c, idx, prefix, page, buffers, current, rows);
      f' := idx;
    }
  }

  lemma {:induction false} PrefixDecodes(pages: seq<Page>, k: nat)
    requires DecodeStringPages(pages).Some? && k <= |pages|
    ensures DecodeStringPages(pages[..k]).Some?
  {
    if k < |pages| {
      PrefixDecodes(pages[..|pages| - 1], k);
      assert pages[..|pages| - 1][..k] == pages[..k];
    } else {
      assert pages[..k] == pages;
    }
  }

  /** The reference made for row i of a regular page. */
  function RowRef(t: U16, c: U16, p: U16, page: Page, i: nat): Value
    requires i < ReadU16(page, 0) < LONG_NEXT
  {
    if TestBit(PageBitmap(page, ReadU16(page, 0)), i)
    then StringRef(t, c, p, (4 + 2 * |NonNulls(DecodeStrings(page, i))|) % 0x1_0000)
    else StringRef(t, c, p, 0xFFFF)
  }

  lemma RowRefRefers(t: U16, c: U16, prefix: seq<Page>, page: Page, i: nat)
    requires |prefix| < 0x1_0000 && !IsNext(page) && !IsFirst(page) && i < ReadU16(page, 0)
    requires StringPageFor(page, DecodeStrings(page, ReadU16(page, 0)))
    ensures ReadU16(page, 0) < LONG_NEXT && 4 + 2 * |NonNulls(DecodeStrings(page, i))| <= PAGE_SIZE
    ensures Refers(t, c, prefix + [page], RowRef(t, c, |prefix|, page, i), DecodeStrings(page, i + 1)[i])
  {
    hide NonNulls, DecodeStrings, StringAt, TestBit, StringPageFor, StringRef, LongAt, Refers, ReadU16, PageBitmap;
    hide IsNext, IsFirst;
    RefBound(page, i);
    DecodeStringsNext(page, i);
    var k, bit := |NonNulls(DecodeStrings(page, i))|, TestBit(PageBitmap(page, ReadU16(page, 0)), i);
    var offset := if bit then (4 + 2 * k) % 0x1_0000 else 0xFFFF;
    if bit { RowCounted(page, i); }
    assert InPage(page, offset) by { assert offset != 0xFFFF ==> offset == 4 + 2 * k; }
    RefTo(t, c, prefix, page, offset);
  }

  lemma RefTo(t: U16, c: U16, prefix: seq<Page>, page: Page, offset: U16)
    requires |prefix| < 0x1_0000 && !IsNext(page) && !IsFirst(page) && offset >= 4 && InPage(page, offset)
    ensures Refers(t, c, prefix + [page], StringRef(t, c, |prefix|, offset),
                   if offset == 0xFFFF then None else Some(StringAt(page, (offset - 4) / 2)))
  {
    hide StringAt, LongAt;
    OverlayIsRight(0, 0, t, c, |prefix|, offset);
    assert (prefix + [page])[|prefix|] == page;
  }

  lemma RefBound(page: Page, i: nat)
    requires StringPageFor(page, DecodeStrings(page, ReadU16(page, 0))) && i < ReadU16(page, 0)
    ensures ReadU16(page, 0) < LONG_NEXT && 4 + 2 * |NonNulls(DecodeStrings(page, i))| <= PAGE_SIZE
  {
    hide DecodeStrings, NonNulls, ReadU16, OffsetsAre, BitsAre, Joined;
    var all := DecodeStrings(page, ReadU16(page, 0));
    DecodeStringsPrefix(page, i, |all|);
    assert all == all[..i] + all[i..];
    NonNullsCat(all[..i], all[i..]);
  }

  lemma RowCounted(page: Page, i: nat)
    requires StringPageFor(page, DecodeStrings(page, ReadU16(page, 0))) && i < ReadU16(page, 0)
    requires TestBit(PageBitmap(page, ReadU16(page, 0)), i)
    ensures |NonNulls(DecodeStrings(page, i))| < ReadU16(page, 2)
  {
    var all := DecodeStrings(page, ReadU16(page, 0));
    assert ReadU16(page, 2) == |NonNulls(all)| && all[i].Some?;
    DecodeStringsPrefix(page, i, |all|);
    hide StringPageFor, DecodeStrings, NonNulls, TestBit, ReadU16;
    NthNonNull(all, i);
  }

  /** The references of a regular page, which is page number p. */
  method CopyRefs(t: U16, c: U16, p: U16, ghost prefix: seq<Page>, page: Page, buffers: seq<seq<Value>>,
                  current: seq<Value>, ghost rows: seq<Option<Str>>)
      returns (buffers': seq<seq<Value>>, current': seq<Value>)
    requires Filling(buffers, current) && |prefix| == p && !IsNext(page) && !IsFirst(page)
    requires StringPageFor(page, DecodeStrings(page, ReadU16(page, 0)))
    requires AreRefs(t, c, prefix + [page], Flatten(buffers) + current, rows)
    ensures Filling(buffers', current')
    ensures AreRefs(t, c, prefix + [page], Flatten(buffers') + current', rows + DecodeStrings(page, ReadU16(page, 0)))
  {
    hide AreRefs, Refers, StringPageFor, NonNulls, DecodeStrings, IsNext, IsFirst, Flatten, TestBit, StringRef;
    buffers', current' := buffers, current;
    var nr, curNvRow := ReadU16(page, 0), 0;
    ghost var pages := prefix + [page];
    NoStrings(page);
    assert rows + [] == rows;
    for i := 0 to nr
      invariant Filling(buffers', current') && curNvRow == |NonNulls(DecodeStrings(page, i))|
      invariant AreRefs(t, c, pages, Flatten(buffers') + current', rows + DecodeStrings(page, i))
    {
      RowRefRefers(t, c, prefix, page, i);
      DecodeStringsNext(page, i);
      ghost var before, row := DecodeStrings(page, i), DecodeStrings(page, i + 1)[i];
      NonNullsNext(before, row);
      RefsNext(t, c, pages, Flatten(buffers') + current', rows + before, RowRef(t, c, p, page, i), row);
      assert (rows + before) + [row] == rows + DecodeStrings(page, i + 1);
      var v := StringRef(t, c, p, 0xFFFF);
      if TestBit(PageBitmap(page, nr), i) {
        v := StringRef(t, c, p, (4 + 2 * curNvRow) % 0x1_0000);
        curNvRow := curNvRow + 1;
      }
      buffers', current' := Append(buffers', current', v);
    }
  }
}

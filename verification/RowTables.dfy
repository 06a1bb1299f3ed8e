/** Table::to_columnar, from_columnar and copy_scan: tables of records to pages and back.  to_columnar has a page
    writer of its own, which gathers a page's values, offsets and bitmap in vectors. */
module RowTables {
  import opened Bits
  import opened Bitmaps
  import opened Options
  import opened Pages
  import opened IntCodec
  import opened StringPages
  import opened StringCodec
  import opened Scan
  import opened ColumnCodec
  import opened Relations

  // Bitmaps as vectors.

  /** set_bitmap or unset_bitmap on a bitmap for idx rows. */
  method PutBit(bitmap: seq<U8>, idx: nat, bit: bool) returns (r: seq<U8>)
    requires |bitmap| == BitmapSize(idx)
    ensures |r| == BitmapSize(idx + 1) && (forall i: nat :: i < idx ==> TestBit(r, i) == TestBit(bitmap, i))
    ensures TestBit(r, idx) == bit
  {
    r := bitmap;
    while |r| < idx / 8 + 1
      invariant BitmapSize(idx) <= |r| <= BitmapSize(idx + 1) && r[..|bitmap|] == bitmap
    {
      r := r + [0];
    }
    forall i: nat | i < idx ensures TestBit(r, i) == TestBit(bitmap, i) { assert r[..|bitmap|][i / 8] == r[i / 8]; }
    hide TestBit, SetBit, ClearBit;
    forall i: nat | i <= idx
      ensures TestBit(SetBit(r, idx), i) == (i == idx || TestBit(r, i))
      ensures TestBit(ClearBit(r, idx), i) == (i != idx && TestBit(r, i))
    {
      SetBitLaw(r, idx, i);
      ClearBitLaw(r, idx, i);
    }
    r := if bit then SetBit(r, idx) else ClearBit(r, idx);
  }

  lemma PutBitIs<T>(bitmap: seq<U8>, r: seq<U8>, rows: seq<Option<T>>, row: Option<T>)
    requires BitsAre(bitmap, rows) && |r| == BitmapSize(|rows| + 1)
    requires (forall i: nat :: i < |rows| ==> TestBit(r, i) == TestBit(bitmap, i)) && TestBit(r, |rows|) == row.Some?
    ensures BitsAre(r, rows + [row])
  {
    hide TestBit;
  }

  // INT32.

  lemma HeaderKept(page: Page, o: nat, v: I32)
    requires 4 <= o && o + 4 <= PAGE_SIZE
    ensures ReadU16(WriteI32(page, o, v), 0) == ReadU16(page, 0) && ReadU16(WriteI32(page, o, v), 2) == ReadU16(page, 2)
  {
  }

  /** memcpy of the gathered values behind the page's header. */
  method CopyValues(page: array<U8>, data: seq<I32>)
    requires page.Length == PAGE_SIZE && 4 + 4 * |data| <= PAGE_SIZE
    modifies page
    ensures IntsAre(page[..], data) && ReadU16(page[..], 0) == old(ReadU16(page[..], 0))
    ensures ReadU16(page[..], 2) == old(ReadU16(page[..], 2))
  {
    hide WriteI32, ReadU16, IntAt;
    for j := 0 to |data|
      invariant IntsAre(page[..], data[..j])
      invariant ReadU16(page[..], 0) == old(ReadU16(page[..], 0)) && ReadU16(page[..], 2) == old(ReadU16(page[..], 2))
    {
      IntsNext(page[..], data[..j], data[j]);
      HeaderKept(page[..], 4 + 4 * j, data[j]);
      StoreI32(page, 4 + 4 * j, data[j]);
      assert data[..j + 1] == data[..j] + [data[j]];
    }
    assert data[..|data|] == data;
  }

  /** The bytes below the bitmap do not change when the bitmap is written. */
  lemma TailWritten(page: Page, bitmap: seq<U8>, data: seq<I32>)
    requires 4 + 4 * |data| + |bitmap| <= PAGE_SIZE && IntsAre(page, data)
    ensures var p := page[..PAGE_SIZE - |bitmap|] + bitmap;
      IntsAre(p, data) && ReadU16(p, 0) == ReadU16(page, 0) && ReadU16(p, 2) == ReadU16(page, 2)
        && p[PAGE_SIZE - |bitmap|..] == bitmap
  {
    var p := page[..PAGE_SIZE - |bitmap|] + bitmap;
    forall j | 0 <= j < |data| ensures IntAt(p, j) == IntAt(page, j) { SealedInt(page, p, j, PAGE_SIZE - |bitmap|); }
  }

  method SaveIntPage(numRows: U16, data: seq<I32>, bitmap: seq<U8>, ghost rows: seq<Option<I32>>) returns (page: Page)
    requires numRows == |rows| && data == NonNulls(rows) && |bitmap| == BitmapSize(|rows|) && BitsAre(bitmap, rows)
    requires |data| < 0x1_0000 && 4 + 4 * |data| + |bitmap| <= PAGE_SIZE
    ensures IntPageFor(page, rows)
  {
    hide NonNulls, ReadU16, WriteU16, IntAt, TestBit;
    var p := new U8[PAGE_SIZE];
    U16RoundTrip(p[..], 0, numRows);
    U16RoundTrip(WriteU16(p[..], 0, numRows), 2, |data|);
    HeaderRead(p[..], numRows, |data|);
    StoreU16(p, 0, numRows);
    StoreU16(p, 2, |data|);
    CopyValues(p, data);
    TailWritten(p[..], bitmap, data);
    ghost var before := p[..];
    StoreBytes(p, PAGE_SIZE - |bitmap|, bitmap);
    page := p[..];
    assert page == before[..PAGE_SIZE - |bitmap|] + bitmap;
    PageIs(page, data, bitmap, rows);
  }

  lemma PageIs(page: Page, data: seq<I32>, bitmap: seq<U8>, rows: seq<Option<I32>>)
    requires |rows| < 0x1_0000 && ReadU16(page, 0) == |rows| && ReadU16(page, 2) == |data| && data == NonNulls(rows)
    requires IntsAre(page, data) && |bitmap| == BitmapSize(|rows|) && 4 + 4 * |data| + |bitmap| <= PAGE_SIZE
    requires page[PAGE_SIZE - |bitmap|..] == bitmap && BitsAre(bitmap, rows)
    ensures IntPageFor(page, rows)
  {
    hide NonNulls, ReadU16, IntAt, TestBit;
    assert PageBitmap(page, |rows|) == bitmap;
  }

  lemma HeaderRead(page: Page, rows: U16, values: U16)
    ensures var h := WriteU16(WriteU16(page, 0, rows), 2, values); ReadU16(h, 0) == rows && ReadU16(h, 2) == values
  {
    U16RoundTrip(page, 0, rows);
    U16RoundTrip(WriteU16(page, 0, rows), 2, values);
  }

  /** What has been gathered for the current page. */
  ghost predicate Gathered(numRows: nat, data: seq<I32>, bitmap: seq<U8>, rows: seq<Option<I32>>) {
    && numRows == |rows| && data == NonNulls(rows) && |bitmap| == BitmapSize(|rows|) && BitsAre(bitmap, rows)
    && 4 + 4 * |data| + |bitmap| <= PAGE_SIZE
  }

  lemma NothingGathered()
    ensures Gathered(0, [], [], []) && DecodeIntPages([]) == [] && PagesOk([])
  {
  }

  lemma GatheredNext(numRows: nat, data: seq<I32>, bitmap: seq<U8>, rows: seq<Option<I32>>, row: Option<I32>,
                     bitmap': seq<U8>)
    requires Gathered(numRows, data, bitmap, rows)
    requires 4 + 4 * (|data| + if row.Some? then 1 else 0) + BitmapSize(numRows + 1) <= PAGE_SIZE
    requires |bitmap'| == BitmapSize(numRows + 1)
    requires forall i: nat :: i < numRows ==> TestBit(bitmap', i) == TestBit(bitmap, i)
    requires TestBit(bitmap', numRows) == row.Some?
    ensures Gathered(numRows + 1, if row.Some? then data + [row.value] else data, bitmap', rows + [row])
  {
    hide TestBit, NonNulls;
    PutBitIs(bitmap, bitmap', rows, row);
    NonNullsNext(rows, row);
  }

  lemma PageSaved(pages: seq<Page>, page: Page, rows: seq<Option<I32>>)
    requires IntPageFor(page, rows)
    ensures DecodeIntPages(pages + [page]) == DecodeIntPages(pages) + rows
  {
    hide DecodeIntPage;
    IntPageDecodes(page, rows);
    DecodeIntPagesNext(pages, page);
  }

  /** to_columnar on an INT32 column. */
  method ToIntPages(column: seq<Option<I32>>) returns (pages: seq<Page>)
    ensures DecodeIntPages(pages) == column && IntColumnOk(pages)
  {
    hide DecodeIntPages, Gathered, IntPageFor, PagesOk, PageOk, NonNulls, TestBit, IntColumnOk, BitmapSize;
    pages := [];
    var numRows: nat, data: seq<I32>, bitmap: seq<U8> := 0, [], [];
    ghost var rows: seq<Option<I32>> := [];
    NothingGathered();
    for i := 0 to |column|
      invariant Gathered(numRows, data, bitmap, rows) && PagesOk(pages)
      invariant DecodeIntPages(pages) + rows == column[..i]
      invariant rows == [] ==> i == 0
    {
      GatheredSizes(numRows, data, bitmap, rows);
      if 4 + (|data| + if column[i].Some? then 1 else 0) * 4 + (numRows / 8 + 1) > PAGE_SIZE {
        var page := SaveIntPage(numRows, data, bitmap, rows);
        SavedPageOk(page, rows, column[i]);
        PageSaved(pages, page, rows);
        MorePagesOk(pages, page);
        pages := pages + [page];
        numRows, data, bitmap, rows := 0, [], [], [];
        NothingGathered();
      }
      GatheredSizes(numRows, data, bitmap, rows);
      var bitmap' := PutBit(bitmap, numRows, column[i].Some?);
      GatheredNext(numRows, data, bitmap, rows, column[i], bitmap');
      bitmap := bitmap';
      if column[i].Some? { data := data + [column[i].value]; }
      numRows := numRows + 1;
      rows := rows + [column[i]];
    }
    if numRows != 0 {
      GatheredSizes(numRows, data, bitmap, rows);
      var page := SaveIntPage(numRows, data, bitmap, rows);
      PageSaved(pages, page, rows);
      LastPageOk(pages, rows, page);
      pages := pages + [page];
    } else {
      GatheredSizes(numRows, data, bitmap, rows);
      ColumnOk(pages);
    }
  }

  lemma MorePagesOk(pages: seq<Page>, page: Page)
    requires PagesOk(pages) && PageOk(page)
    ensures PagesOk(pages + [page])
  {
  }

  lemma GatheredSizes(numRows: nat, data: seq<I32>, bitmap: seq<U8>, rows: seq<Option<I32>>)
    requires Gathered(numRows, data, bitmap, rows)
    ensures numRows == |rows| < 0x1_0000 && data == NonNulls(rows) && |data| < 0x1_0000 && BitsAre(bitmap, rows)
    ensures |bitmap| == BitmapSize(|rows|) && 4 + 4 * |data| + |bitmap| <= PAGE_SIZE
    ensures BitmapSize(numRows + 1) == numRows / 8 + 1
  {
    hide BitsAre, NonNulls;
  }

  // VARCHAR.

  /** memcpy of the gathered offsets behind the page's header; offset j is where string j ends. */
  method CopyOffsets(page: array<U8>, offsets: seq<U16>, ghost strings: seq<Str>)
    requires page.Length == PAGE_SIZE && 4 + 2 * |offsets| <= PAGE_SIZE && |offsets| == |strings|
    requires |Joined(strings)| < 0x1_0000
    requires forall j :: 0 <= j < |offsets| ==> offsets[j] == EndOf(strings, j)
    modifies page
    ensures OffsetsAre(page[..], strings)
    ensures ReadU16(page[..], 0) == old(ReadU16(page[..], 0)) && ReadU16(page[..], 2) == old(ReadU16(page[..], 2))
  {
    hide WriteU16, ReadU16, OffsetAt, Joined;
    NoOffsets(page[..]);
    for j := 0 to |offsets|
      invariant OffsetsAre(page[..], strings[..j])
      invariant ReadU16(page[..], 0) == old(ReadU16(page[..], 0)) && ReadU16(page[..], 2) == old(ReadU16(page[..], 2))
    {
      assert strings[..j + 1] == strings[..j] + [strings[j]];
      JoinNext(strings[..j], strings[j]);
      JoinSplit(strings, j);
      OffsetsNext(page[..], strings[..j], strings[j]);
      OffsetHeaderKept(page[..], 4 + 2 * j, offsets[j]);
      StoreU16(page, 4 + 2 * j, offsets[j]);
    }
    assert strings[..|offsets|] == strings;
  }

  lemma NoOffsets(page: Page)
    ensures OffsetsAre(page, [])
  {
  }

  lemma OffsetHeaderKept(page: Page, o: nat, v: U16)
    requires 4 <= o && o + 2 <= PAGE_SIZE
    ensures ReadU16(WriteU16(page, o, v), 0) == ReadU16(page, 0) && ReadU16(WriteU16(page, o, v), 2) == ReadU16(page, 2)
  {
  }

  /** What has been gathered for the current page. */
  ghost predicate GatheredStrings(numRows: nat, data: Str, offsets: seq<U16>, bitmap: seq<U8>, rows: seq<Option<Str>>) {
    && numRows == |rows| && data == Joined(NonNulls(rows)) && |offsets| == |NonNulls(rows)|
    && (forall j :: 0 <= j < |offsets| ==> offsets[j] == EndOf(NonNulls(rows), j))
    && |bitmap| == BitmapSize(|rows|) && BitsAre(bitmap, rows)
    && 4 + 2 * |offsets| + |data| + |bitmap| <= PAGE_SIZE
  }

  lemma StringSizes(numRows: nat, data: Str, offsets: seq<U16>, bitmap: seq<U8>, rows: seq<Option<Str>>)
    requires GatheredStrings(numRows, data, offsets, bitmap, rows)
    ensures numRows == |rows| < LONG_NEXT && |offsets| < 0x1_0000 && 4 + 2 * |offsets| + |data| + |bitmap| <= PAGE_SIZE
    ensures |bitmap| == BitmapSize(|rows|) && BitmapSize(numRows + 1) == numRows / 8 + 1
  {
    hide BitsAre, NonNulls, Joined, EndOf;
  }

  lemma NoStringsGathered()
    ensures GatheredStrings(0, [], [], [], []) && Decodes([], [])
  {
  }

  lemma StringGathered(numRows: nat, data: Str, offsets: seq<U16>, bitmap: seq<U8>, rows: seq<Option<Str>>,
                       row: Option<Str>, bitmap': seq<U8>)
    requires GatheredStrings(numRows, data, offsets, bitmap, rows)
    requires 4 + 2 * |offsets| + (if row.Some? then 2 + |row.value| else 0) + |data|
      + BitmapSize(numRows + 1) <= PAGE_SIZE
    requires |bitmap'| == BitmapSize(numRows + 1)
    requires forall i: nat :: i < numRows ==> TestBit(bitmap', i) == TestBit(bitmap, i)
    requires TestBit(bitmap', numRows) == row.Some?
    ensures row.Some? ==>
      GatheredStrings(numRows + 1, data + row.value, offsets + [|data| + |row.value|], bitmap', rows + [row])
    ensures row.None? ==> GatheredStrings(numRows + 1, data, offsets, bitmap', rows + [row])
  {
    hide TestBit, NonNulls, Joined, BitsAre;
    PutBitIs(bitmap, bitmap', rows, row);
    NonNullsNext(rows, row);
    if row.Some? {
      EndsNext(NonNulls(rows), row.value);
      hide EndOf;
      JoinNext(NonNulls(rows), row.value);
    } else {
      assert NonNulls(rows) + [] == NonNulls(rows);
    }
  }

  lemma EndsNext(strings: seq<Str>, s: Str)
    ensures forall j :: 0 <= j < |strings| ==> EndOf(strings + [s], j) == EndOf(strings, j)
    ensures EndOf(strings + [s], |strings|) == |Joined(strings)| + |s|
  {
    forall j | 0 <= j < |strings| ensures EndOf(strings + [s], j) == EndOf(strings, j) {
      assert (strings + [s])[..j + 1] == strings[..j + 1];
    }
    assert (strings + [s])[..|strings| + 1] == strings + [s];
    JoinNext(strings, s);
    hide Joined;
  }

  /** String bytes stored in the middle of a page, then a bitmap at its end. */
  lemma StoredTwice(headed: Page, chars: Str, a: nat, tail: seq<U8>)
    requires 4 <= a && a + |chars| + |tail| <= PAGE_SIZE
    ensures var filled, b := headed[..a] + chars + headed[a + |chars|..], PAGE_SIZE - |tail|;
      && |filled| == PAGE_SIZE
      && var s := filled[..b] + tail + filled[b + |tail|..];
      && |s| == PAGE_SIZE && s[a..a + |chars|] == chars && s[PAGE_SIZE - |tail|..] == tail
      && (forall k :: 4 <= k < a ==> s[k] == headed[k]) && ReadU16(s, 0) == ReadU16(headed, 0)
        && ReadU16(s, 2) == ReadU16(headed, 2)
  {
    FilledParts(headed, chars, a, tail);
    hide ReadU16;
    var filled, b := headed[..a] + chars + headed[a + |chars|..], PAGE_SIZE - |tail|;
    assert filled[..b] + tail + filled[b + |tail|..] == filled[..b] + tail;
  }

  method SaveStringPage(numRows: nat, data: Str, offsets: seq<U16>, bitmap: seq<U8>, ghost rows: seq<Option<Str>>)
      returns (page: Page)
    requires GatheredStrings(numRows, data, offsets, bitmap, rows)
    ensures StringPageFor(page, rows)
  {
    hide NonNulls, ReadU16, WriteU16, OffsetsAre, BitsAre, Joined, EndOf;
    StringSizes(numRows, data, offsets, bitmap, rows);
    var p := new U8[PAGE_SIZE];
    HeaderRead(p[..], numRows, |offsets|);
    StoreU16(p, 0, numRows);
    StoreU16(p, 2, |offsets|);
    CopyOffsets(p, offsets, NonNulls(rows));
    ghost var headed := p[..];
    StoreBytes(p, 4 + 2 * |offsets|, data);
    StoreBytes(p, PAGE_SIZE - |bitmap|, bitmap);
    page := p[..];
    StoredTwice(headed, data, 4 + 2 * |offsets|, bitmap);
    StringPageIs(headed, page, data, |offsets|, bitmap, rows);
  }

  /** save_long_string. */
  method LongStringPages(pages: seq<Page>, value: Str, ghost before: seq<Option<Str>>) returns (pages': seq<Page>)
    requires value != [] && Decodes(pages, before)
    ensures Decodes(pages', before + [Some(value)])
  {
    hide Decodes, LongPage;
    pages' := pages;
    var offset := 0;
    while offset < |value|
      invariant offset <= |value| && Decodes(pages', if offset == 0 then before else before + [Some(value[..offset])])
      invariant offset > 0 ==> pages' != [] && (IsFirst(pages'[|pages'| - 1]) || IsNext(pages'[|pages'| - 1]))
    {
      var p := new U8[PAGE_SIZE];
      var len := if |value| - offset < LONG_CHUNK then |value| - offset else LONG_CHUNK;
      DecodesLong(pages', before, value, offset, offset + len, p[..]);
      SealLong(p, if offset == 0 then LONG_FIRST else LONG_NEXT, value[offset..offset + len]);
      pages' := pages' + [p[..]];
      offset := offset + len;
    }
    assert value[..|value|] == value;
  }

  /** to_columnar on a VARCHAR column. */
  method ToStringPages(column: seq<Option<Str>>) returns (pages: seq<Page>)
    ensures DecodeStringPages(pages) == Some(column) && StringColumnOk(pages)
  {
    hide Decodes, GatheredStrings, StringPageFor, NonNulls, TestBit, BitmapSize;
    pages := [];
    var numRows: nat, data: Str, offsets: seq<U16>, bitmap: seq<U8> := 0, [], [], [];
    ghost var saved: seq<Option<Str>>, rows: seq<Option<Str>> := [], [];
    NoStringsGathered();
    for i := 0 to |column|
      invariant GatheredStrings(numRows, data, offsets, bitmap, rows) && Decodes(pages, saved)
      invariant saved + rows == column[..i]
    {
      StringSizes(numRows, data, offsets, bitmap, rows);
      var row := column[i];
      if row.Some? && |row.value| > LONG_LIMIT {
        if numRows > 0 {
          var page := SaveStringPage(numRows, data, offsets, bitmap, rows);
          DecodesRegular(pages, saved, page, rows);
          pages, saved := pages + [page], saved + rows;
          numRows, data, offsets, bitmap, rows := 0, [], [], [], [];
          NoStringsGathered();
        }
        pages := LongStringPages(pages, row.value, saved);
        saved := saved + [row];
      } else {
        if 4 + 2 * (|offsets| + if row.Some? then 1 else 0) + (|data| + if row.Some? then |row.value| else 0)
          + (numRows / 8 + 1) > PAGE_SIZE {
          var page := SaveStringPage(numRows, data, offsets, bitmap, rows);
          DecodesRegular(pages, saved, page, rows);
          pages, saved := pages + [page], saved + rows;
          numRows, data, offsets, bitmap, rows := 0, [], [], [], [];
          NoStringsGathered();
        }
        StringSizes(numRows, data, offsets, bitmap, rows);
        var bitmap' := PutBit(bitmap, numRows, row.Some?);
        StringGathered(numRows, data, offsets, bitmap, rows, row, bitmap');
        bitmap := bitmap';
        if row.Some? {
          data := data + row.value;
          offsets := offsets + [|data|];
        }
        numRows := numRows + 1;
        rows := rows + [row];
      }
    }
    assert column[..|column|] == column;
    if numRows != 0 {
      var page := SaveStringPage(numRows, data, offsets, bitmap, rows);
      DecodesRegular(pages, saved, page, rows);
      pages := pages + [page];
    } else {
      StringSizes(numRows, data, offsets, bitmap, rows);
      assert saved + [] == saved;
    }
    DecodesIs(pages, column);
  }

  lemma DecodesIs(pages: seq<Page>, rows: seq<Option<Str>>)
    requires Decodes(pages, rows)
    ensures DecodeStringPages(pages) == Some(rows) && StringColumnOk(pages)
  {
  }

  // Whole tables.

  /** A record has a value of the column's type, or null, in every column. */
  predicate RecordTyped(record: Row, types: seq<DataType>) {
    |record| == |types| && forall c :: 0 <= c < |types| ==>
      record[c].Null? || (if types[c] == INT32 then record[c].Int? else record[c].Text?)
  }

  predicate RecordsTyped(records: seq<Row>, types: seq<DataType>) {
    forall r :: 0 <= r < |records| ==> RecordTyped(records[r], types)
  }

  function ColumnOf(records: seq<Row>, c: nat): seq<Datum> {
    seq(|records|, (r: int) requires 0 <= r < |records| => if c < |records[r]| then records[r][c] else Null)
  }

  function IntsOf(datums: seq<Datum>): seq<Option<I32>> {
    seq(|datums|, (r: int) requires 0 <= r < |datums| => if datums[r].Int? then Some(datums[r].i) else None)
  }

  function StringsOf(datums: seq<Datum>): seq<Option<Str>> {
    seq(|datums|, (r: int) requires 0 <= r < |datums| => if datums[r].Text? then Some(datums[r].s) else None)
  }

  /** The column is written as the executor and the readers need it. */
  ghost predicate Holding(col: TableColumn, dtype: DataType, datums: seq<Datum>) {
    && col.dtype == dtype && Decoded(col) == datums
    && match dtype {
         case INT32 => IntColumnOk(col.pages) && DecodeIntPages(col.pages) == IntsOf(datums)
         case VARCHAR => StringColumnOk(col.pages) && DecodeStringPages(col.pages) == Some(StringsOf(datums))
       }
  }

  method ToColumn(records: seq<Row>, types: seq<DataType>, c: nat) returns (col: TableColumn)
    requires RecordsTyped(records, types) && c < |types|
    ensures Holding(col, types[c], ColumnOf(records, c))
  {
    hide IntColumnOk, StringColumnOk, DecodeIntPages, DecodeStringPages;
    ghost var datums := ColumnOf(records, c);
    ColumnTyped(records, types, c);
    if types[c] == INT32 {
      var pages := ToIntPages(IntsOf(ColumnOf(records, c)));
      col := TableColumn(INT32, pages);
      assert Decoded(col) == datums;
    } else {
      var pages := ToStringPages(StringsOf(ColumnOf(records, c)));
      col := TableColumn(VARCHAR, pages);
      assert Decoded(col) == datums;
    }
  }

  lemma ColumnTyped(records: seq<Row>, types: seq<DataType>, c: nat)
    requires RecordsTyped(records, types) && c < |types|
    ensures forall r :: 0 <= r < |records| ==>
      var d := ColumnOf(records, c)[r]; d.Null? || (if types[c] == INT32 then d.Int? else d.Text?)
  {
    forall r | 0 <= r < |records|
      ensures var d := ColumnOf(records, c)[r]; d.Null? || (if types[c] == INT32 then d.Int? else d.Text?)
    {
      assert RecordTyped(records[r], types);
    }
  }

  method ToColumnar(records: seq<Row>, types: seq<DataType>) returns (table: Table)
    requires RecordsTyped(records, types)
    ensures |table| == |types| && forall c :: 0 <= c < |types| ==> Holding(table[c], types[c], ColumnOf(records, c))
  {
    hide Holding, ColumnOf, RecordsTyped;
    table := [];
    for c := 0 to |types|
      invariant |table| == c && forall k :: 0 <= k < c ==> Holding(table[k], types[k], ColumnOf(records, k))
    {
      var col := ToColumn(records, types, c);
      table := table + [col];
    }
  }

  /** A column read into numRows cells; None stands for the reader's exception. */
  ghost function ReadInto(col: TableColumn, numRows: nat): Option<seq<Datum>> {
    match col.dtype
    case INT32 =>
      if Overflows(DecodeIntPages(col.pages), numRows) then None
      else
        Some(seq(numRows, (r: int) requires 0 <= r < numRows =>
          IntDatum(Placed(DecodeIntPages(col.pages), numRows)[r])))
    case VARCHAR =>
      if Refused(DecodeStringPages(col.pages), numRows) then None
      else Some(seq(numRows, (r: int) requires 0 <= r < numRows =>
             StringDatum(Placed(DecodeStringPages(col.pages).value, numRows)[r])))
  }

  method ReadColumn(col: TableColumn, numRows: nat) returns (r: Option<seq<Datum>>)
    ensures r == ReadInto(col, numRows)
  {
    hide DecodeIntPages, DecodeStringPages, Placed, Overflows;
    if col.dtype == INT32 {
      var ints := FromIntPages(col.pages, numRows);
      if ints == None { return None; }
      r := Some(seq(numRows, (i: int) requires 0 <= i < numRows => IntDatum(ints.value[i])));
    } else {
      var strings := FromStringPages(col.pages, numRows);
      if strings == None { return None; }
      r := Some(seq(numRows, (i: int) requires 0 <= i < numRows => StringDatum(strings.value[i])));
    }
  }

  /** The records whose columns are the given columns as read. */
  ghost predicate Scanned(rows: seq<Row>, cols: seq<TableColumn>, numRows: nat) {
    && |rows| == numRows && (forall i :: 0 <= i < numRows ==> |rows[i]| == |cols|)
    && forall a :: 0 <= a < |cols| ==> ReadInto(cols[a], numRows) == Some(ColumnOf(rows, a))
  }

  function Chosen(table: Table, attrs: seq<nat>): seq<TableColumn>
    requires forall a :: 0 <= a < |attrs| ==> attrs[a] < |table|
  {
    seq(|attrs|, (a: int) requires 0 <= a < |attrs| => table[attrs[a]])
  }

  /** copy_scan: the chosen columns of a table as records. */
  method CopyScan(table: Table, numRows: nat, attrs: seq<nat>) returns (r: Option<seq<Row>>)
    requires forall a :: 0 <= a < |attrs| ==> attrs[a] < |table|
    ensures r == None <==> exists a :: 0 <= a < |attrs| && ReadInto(Chosen(table, attrs)[a], numRows) == None
    ensures r.Some? ==> Scanned(r.value, Chosen(table, attrs), numRows)
  {
    hide ReadInto;
    ghost var chosen := Chosen(table, attrs);
    var cols: seq<seq<Datum>> := [];
    for a := 0 to |attrs|
      invariant |cols| == a
      invariant forall k :: 0 <= k < a ==> ReadInto(chosen[k], numRows) == Some(cols[k]) && |cols[k]| == numRows
    {
      var col := ReadColumn(table[attrs[a]], numRows);
      assert chosen[a] == table[attrs[a]];
      if col == None { return None; }
      ReadSize(table[attrs[a]], numRows);
      cols := cols + [col.value];
    }
    var rows := seq(numRows, (i: int) requires 0 <= i < numRows =>
           seq(|attrs|, (a: int) requires 0 <= a < |attrs| && |cols| == |attrs| && |cols[a]| == numRows => cols[a][i]));
    forall a | 0 <= a < |attrs| ensures ReadInto(chosen[a], numRows) == Some(ColumnOf(rows, a)) {
      assert ColumnOf(rows, a) == cols[a];
    }
    r := Some(rows);
  }

  lemma ReadSize(col: TableColumn, numRows: nat)
    ensures ReadInto(col, numRows).Some? ==> |ReadInto(col, numRows).value| == numRows
  {
  }

  /** from_columnar: all columns, in order. */
  method FromColumnar(table: Table, numRows: nat) returns (r: Option<seq<Row>>)
    ensures r == None <==> exists c :: 0 <= c < |table| && ReadInto(table[c], numRows) == None
    ensures r.Some? ==> Scanned(r.value, table, numRows)
  {
    hide ReadInto;
    var all: seq<nat> := seq(|table|, (c: int) requires 0 <= c < |table| => c);
    assert Chosen(table, all) == table;
    r := CopyScan(table, numRows, all);
  }

  lemma HoldingReads(col: TableColumn, dtype: DataType, datums: seq<Datum>)
    requires Holding(col, dtype, datums)
    ensures ReadInto(col, |datums|) == Some(datums)
  {
    hide IntColumnOk, StringColumnOk, DecodeIntPages, DecodeStringPages;
    if dtype == INT32 {
      var rows := DecodeIntPages(col.pages);
      NoOverflow<I32>(rows);
      assert Placed(rows, |datums|) == rows;
      forall r | 0 <= r < |datums| ensures IntDatum(rows[r]) == datums[r] {
        assert Decoded(col)[r] == IntDatum(rows[r]);
      }
    } else {
      var rows := DecodeStringPages(col.pages).value;
      NoOverflow<Str>(rows);
      assert Placed(rows, |datums|) == rows;
      forall r | 0 <= r < |datums| ensures StringDatum(rows[r]) == datums[r] {
        assert Decoded(col)[r] == StringDatum(rows[r]);
      }
    }
  }

  /** Any table of records survives being written as pages and read back. */
  method RoundTrip(records: seq<Row>, types: seq<DataType>) returns (r: Option<seq<Row>>)
    requires RecordsTyped(records, types)
    ensures r == Some(records)
  {
    hide Holding, ReadInto;
    var table := ToColumnar(records, types);
    forall c | 0 <= c < |table| ensures ReadInto(table[c], |records|) == Some(ColumnOf(records, c)) {
      HoldingReads(table[c], types[c], ColumnOf(records, c));
    }
    r := FromColumnar(table, |records|);
    SameColumns(r.value, records, types);
  }

  lemma SameColumns(a: seq<Row>, b: seq<Row>, types: seq<DataType>)
    requires |a| == |b| && (forall i :: 0 <= i < |a| ==> |a[i]| == |types|) && RecordsTyped(b, types)
    requires forall c :: 0 <= c < |types| ==> ColumnOf(a, c) == ColumnOf(b, c)
    ensures a == b
  {
    forall i | 0 <= i < |a| ensures a[i] == b[i] {
      assert RecordTyped(b[i], types);
      forall c | 0 <= c < |types| ensures a[i][c] == b[i][c] { assert ColumnOf(a, c)[i] == ColumnOf(b, c)[i]; }
    }
  }
}

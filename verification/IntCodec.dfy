/** ColumnInserter<int32_t>: values grow from the front of a page, the null bitmap from its back. */
module IntCodec {
  import opened Bits
  import opened Bitmaps
  import opened Options
  import opened Pages

  /** The rows of the page being filled, in its own bytes: values in page, null bits in bitmap. */
  ghost predicate Holds(page: seq<U8>, bitmap: seq<U8>, rows: seq<Option<I32>>) {
    && |page| == |bitmap| == PAGE_SIZE
    && 4 + 4 * |NonNulls(rows)| + BitmapSize(|rows|) <= PAGE_SIZE
    && BitsAre(bitmap, rows)
    && IntsAre(page, NonNulls(rows))
  }

  ghost predicate IntsAre(page: Page, values: seq<I32>) {
    forall j :: 0 <= j < |values| ==> IntAt(page, j) == values[j]
  }

  /** Writing the next value and setting its bit. */
  lemma HoldsValue(page: seq<U8>, bitmap: seq<U8>, rows: seq<Option<I32>>, v: I32)
    requires Holds(page, bitmap, rows)
    requires 4 + 4 * |NonNulls(rows)| + 4 + |rows| / 8 + 1 <= PAGE_SIZE
    ensures |rows| / 8 < PAGE_SIZE
    ensures Holds(WriteI32(page, 4 + 4 * |NonNulls(rows)|, v), SetBit(bitmap, |rows|), rows + [Some(v)])
  {
    hide NonNulls, BitsAre, IntsAre, WriteI32, SetBit;
    NonNullsNext(rows, Some(v));
    IntsNext(page, NonNulls(rows), v);
    BitsNext(bitmap, rows, Some(v));
  }

  lemma IntsNext(page: Page, values: seq<I32>, v: I32)
    requires IntsAre(page, values) && 4 + 4 * |values| + 4 <= PAGE_SIZE
    ensures IntsAre(WriteI32(page, 4 + 4 * |values|, v), values + [v])
  {
    var n := |values|;
    I32RoundTrip(page, 4 + 4 * n, v);
    forall j | 0 <= j < n + 1 ensures IntAt(WriteI32(page, 4 + 4 * n, v), j) == (values + [v])[j] {
      if j < n { IntFrame(page, 4 + 4 * n, v, j); }
    }
  }

  lemma IntFrame(page: Page, o: nat, v: I32, j: nat)
    requires o + 4 <= PAGE_SIZE && 4 + 4 * j + 4 <= o
    ensures IntAt(WriteI32(page, o, v), j) == IntAt(page, j)
  {
  }

  /** Clearing the bit of the next row, which is null; a stale bit from an earlier page is overwritten here. */
  lemma HoldsNull(page: seq<U8>, bitmap: seq<U8>, rows: seq<Option<I32>>)
    requires Holds(page, bitmap, rows)
    requires 4 + 4 * |NonNulls(rows)| + |rows| / 8 + 1 <= PAGE_SIZE
    ensures |rows| / 8 < PAGE_SIZE
    ensures Holds(page, ClearBit(bitmap, |rows|), rows + [None])
  {
    hide NonNulls, BitsAre, IntsAre, ClearBit;
    NonNullsNext(rows, None);
    assert NonNulls(rows) + [] == NonNulls(rows);
    BitsNext(bitmap, rows, None);
  }

  /** The header and the bitmap are written around the values. */
  function Sealed(page: Page, bitmap: seq<U8>, rows: U16, values: U16): Page
    requires |bitmap| == PAGE_SIZE
  {
    WriteU16(WriteU16(page, 0, rows), 2, values)[..PAGE_SIZE - BitmapSize(rows)] + bitmap[..BitmapSize(rows)]
  }

  lemma SealedParts(page: Page, bitmap: seq<U8>, rows: U16, values: U16)
    requires |bitmap| == PAGE_SIZE && 4 + 4 * values + BitmapSize(rows) <= PAGE_SIZE
    ensures var s := Sealed(page, bitmap, rows, values);
      && ReadU16(s, 0) == rows && ReadU16(s, 2) == values && PageBitmap(s, rows) == bitmap[..BitmapSize(rows)]
      && forall k :: 4 <= k < PAGE_SIZE - BitmapSize(rows) ==> s[k] == page[k]
  {
    U16RoundTrip(page, 0, rows);
    U16RoundTrip(WriteU16(page, 0, rows), 2, values);
  }

  lemma SealedInt(page: Page, s: Page, j: nat, end: nat)
    requires 4 + 4 * j + 4 <= end <= PAGE_SIZE && forall k :: 4 <= k < end ==> s[k] == page[k]
    ensures IntAt(s, j) == IntAt(page, j)
  {
  }

  lemma SealedDecodes(page: Page, bitmap: seq<U8>, rows: seq<Option<I32>>)
    requires Holds(page, bitmap, rows)
    ensures |rows| < 0x1_0000 && |NonNulls(rows)| < 0x1_0000
    ensures var s := Sealed(page, bitmap, |rows|, |NonNulls(rows)|); IntPageFor(s, rows) && DecodeIntPage(s) == rows
  {
    hide NonNulls, ReadU16, WriteU16, Sealed, IntAt, TestBit;
    var n, s := |NonNulls(rows)|, Sealed(page, bitmap, |rows|, |NonNulls(rows)|);
    SealedParts(page, bitmap, |rows|, n);
    forall j | 0 <= j < n ensures IntAt(s, j) == IntAt(page, j) {
      SealedInt(page, s, j, PAGE_SIZE - BitmapSize(|rows|));
    }
    assert IntsAre(page, NonNulls(rows));
    BitsKept(bitmap, bitmap[..BitmapSize(|rows|)], rows);
    IntPageDecodes(s, rows);
  }

  class IntInserter {
    var pages: seq<Page>                        // the pages saved so far
    var page: array<U8>                         // the page being filled
    var numRows: nat
    var dataEnd: nat
    const bitmap: array<U8>
    ghost var rows: seq<Option<I32>>            // the rows of the page being filled

    ghost predicate Valid()
      reads this, page, bitmap
    {
      && page != bitmap && page.Length == bitmap.Length == PAGE_SIZE
      && numRows == |rows| && dataEnd == 4 + 4 * |NonNulls(rows)|
      && Holds(page[..], bitmap[..], rows)
    }

    /** Every row inserted so far. */
    ghost function Contents(): seq<Option<I32>>
      reads this
    {
      DecodeIntPages(pages) + rows
    }

    constructor ()
      ensures Valid() && fresh(page) && fresh(bitmap) && pages == [] && rows == [] && Contents() == []
    {
      pages, rows := [], [];
      page := new U8[PAGE_SIZE];
      bitmap := new U8[PAGE_SIZE](i => 0);
      numRows, dataEnd := 0, 4;
    }

    method SavePage()
      requires Valid()
      modifies this, page
      ensures Valid() && fresh(page) && rows == [] && Contents() == old(Contents())
      ensures |pages| == |old(pages)| + 1 && pages[..|old(pages)|] == old(pages)
      ensures IntPageFor(pages[|old(pages)|], old(rows))
    {
      hide Holds, DecodeIntPage, DecodeIntPages, NonNulls, Sealed, IntPageFor;
      SealedDecodes(page[..], bitmap[..], rows);
      Seal(page, bitmap[..], numRows, (dataEnd - 4) / 4);
      DecodeIntPagesNext(pages, page[..]);
      pages := pages + [page[..]];
      page := new U8[PAGE_SIZE];
      HoldsNothing(page[..], bitmap[..]);
      numRows, dataEnd, rows := 0, 4, [];
    }

    method Insert(value: I32)
      requires Valid()
      modifies this, page, bitmap
      ensures Valid() && (page == old(page) || fresh(page))
      ensures Contents() == old(Contents()) + [Some(value)]
      ensures Grown(old(pages), old(rows), pages, rows, Some(value), 4)
    {
      hide Holds, DecodeIntPages, NonNulls, WriteI32, SetBit, IntPageFor;
      HoldsBound(page[..], bitmap[..], rows);
      if dataEnd + 4 + numRows / 8 + 1 > PAGE_SIZE {
        SavePage();
      }
      HoldsValue(page[..], bitmap[..], rows, value);
      NonNullsNext(rows, Some(value));
      StoreI32(page, dataEnd, value);
      dataEnd := dataEnd + 4;
      SetBitmap(bitmap, numRows);
      numRows := numRows + 1;
      rows := rows + [Some(value)];
    }

    method InsertNull()
      requires Valid()
      modifies this, page, bitmap
      ensures Valid() && (page == old(page) || fresh(page))
      ensures Contents() == old(Contents()) + [None]
      ensures Grown(old(pages), old(rows), pages, rows, None, 0)
    {
      hide Holds, DecodeIntPages, NonNulls, ClearBit, IntPageFor;
      HoldsBound(page[..], bitmap[..], rows);
      if dataEnd + numRows / 8 + 1 > PAGE_SIZE {
        SavePage();
      }
      HoldsNull(page[..], bitmap[..], rows);
      NonNullsNext<I32>(rows, None);
      UnsetBitmap(bitmap, numRows);
      numRows := numRows + 1;
      rows := rows + [None];
    }

    method Finalize()
      requires Valid()
      modifies this, page
      ensures Valid() && (page == old(page) || fresh(page))
      ensures rows == [] && DecodeIntPages(pages) == Contents() == old(Contents())
      ensures if old(rows) == [] then pages == old(pages) else
        |pages| == |old(pages)| + 1 && pages[..|old(pages)|] == old(pages) && IntPageFor(pages[|old(pages)|], old(rows))
    {
      hide Holds, DecodeIntPages, NonNulls, IntPageFor;
      if numRows != 0 {
        SavePage();
      }
    }
  }

  /** The header and the null bitmap go around the values. */
  method Seal(page: array<U8>, bitmap: seq<U8>, rows: U16, values: U16)
    requires page.Length == PAGE_SIZE && |bitmap| == PAGE_SIZE
    modifies page
    ensures page[..] == Sealed(old(page[..]), bitmap, rows, values)
  {
    hide WriteU16;
    StoreU16(page, 0, rows);
    StoreU16(page, 2, values);
    var bitmapSize := (rows + 7) / 8;
    StoreBytes(page, PAGE_SIZE - bitmapSize, bitmap[..bitmapSize]);
  }

  lemma HoldsNothing(page: seq<U8>, bitmap: seq<U8>)
    requires |page| == |bitmap| == PAGE_SIZE
    ensures Holds(page, bitmap, []) && NonNulls<I32>([]) == []
  {
  }

  lemma HoldsBound(page: seq<U8>, bitmap: seq<U8>, rows: seq<Option<I32>>)
    requires Holds(page, bitmap, rows)
    ensures 4 + 4 * |NonNulls(rows)| + BitmapSize(|rows|) <= PAGE_SIZE
    ensures NonNulls<I32>([]) == []
  {
  }

  /** One insertion appends a row to the page being filled, after saving that page first exactly when the row's
      `size` bytes and its null bit would not have fitted. */
  ghost predicate Grown(pages: seq<Page>, rows: seq<Option<I32>>, pages': seq<Page>, rows': seq<Option<I32>>,
                        row: Option<I32>, size: nat)
  {
    if 4 + 4 * |NonNulls(rows)| + size + BitmapSize(|rows| + 1) > PAGE_SIZE then
      && |pages'| == |pages| + 1 && pages'[..|pages|] == pages && IntPageFor(pages'[|pages|], rows) && rows' == [row]
    else pages' == pages && rows' == rows + [row]
  }

  // Decoding a column of pages, as from_columnar does.

  lemma {:induction false} DecodeIntsPrefix(page: Page, k: nat, n: nat)
    requires k <= n <= ReadU16(page, 0)
    ensures DecodeInts(page, n)[..k] == DecodeInts(page, k)
    decreases n - k
  {
    if k < n { DecodeIntsPrefix(page, k, n - 1); }
  }

  /** Decoding one page into the result column; not ok stands for the exception. */
  method FromIntPage(page: Page, results: array<Option<I32>>, rowIdx: nat, ghost before: seq<Option<I32>>)
      returns (ok: bool, rowIdx': nat)
    requires results[..] == Placed(before, results.Length) && rowIdx == |before| && !Overflows(before, results.Length)
    modifies results
    ensures ok <==> !Overflows(before + DecodeIntPage(page), results.Length)
    ensures ok ==> results[..] == Placed(before + DecodeIntPage(page), results.Length)
    ensures ok ==> rowIdx' == |before + DecodeIntPage(page)|
  {
    hide DecodeInts, TestBit, Overflows, Placed, NonNulls, IntAt, ReadU16, PageBitmap;
    rowIdx' := rowIdx;
    var n, dataIdx := ReadU16(page, 0), 0;
    DecodeIntsNone(page);
    assert before + [] == before;
    for i := 0 to n
      invariant dataIdx == |NonNulls(DecodeInts(page, i))| && rowIdx' == |before| + i
      invariant !Overflows(before + DecodeInts(page, i), results.Length)
      invariant results[..] == Placed(before + DecodeInts(page, i), results.Length)
    {
      DecodeIntsNext(page, i);
      ghost var rows, row :=
        DecodeInts(page, i), if TestBit(PageBitmap(page, n), i) then Some(IntAt(page, dataIdx)) else None;
      RowBehind(before, rows, row);
      NonNullsNext(rows, row);
      PlacedNext(before + rows, row, results.Length);
      if TestBit(PageBitmap(page, n), i) {
        if rowIdx' >= results.Length {
          DecodeIntsPrefix(page, i + 1, n);
          OverflowsLater(before, DecodeInts(page, n), i + 1, results.Length);
          return false, rowIdx';
        }
        results[rowIdx'] := Some(IntAt(page, dataIdx));
        dataIdx := dataIdx + 1;
      }
      rowIdx' := rowIdx' + 1;
    }
    ok := true;
  }

  lemma NoIntsPlaced(pages: seq<Page>, results: seq<Option<I32>>)
    requires forall i :: 0 <= i < |results| ==> results[i] == None
    ensures DecodeIntPages(pages[..0]) == [] && results == Placed<I32>([], |results|) && !Overflows<I32>([], |results|)
  {
  }

  method FromIntPages(pages: seq<Page>, numRows: nat) returns (r: Option<seq<Option<I32>>>)
    ensures r == None <==> Overflows(DecodeIntPages(pages), numRows)
    ensures r.Some? ==> r.value == Placed(DecodeIntPages(pages), numRows)
  {
    hide DecodeIntPages, Overflows, Placed;
    var results := new Option<I32>[numRows](i => None);
    var rowIdx := 0;
    NoIntsPlaced(pages, results[..]);
    for k := 0 to |pages|
      invariant rowIdx == |DecodeIntPages(pages[..k])| && !Overflows(DecodeIntPages(pages[..k]), numRows)
      invariant results[..] == Placed(DecodeIntPages(pages[..k]), numRows)
    {
      DecodeIntPagesNext(pages[..k], pages[k]);
      assert pages[..k + 1] == pages[..k] + [pages[k]];
      var ok;
      ok, rowIdx := FromIntPage(pages[k], results, rowIdx, DecodeIntPages(pages[..k]));
      if !ok {
        DecodeIntPagesCat(pages[..k + 1], pages[k + 1..]);
        assert pages[..k + 1] + pages[k + 1..] == pages;
        OverflowsMore(DecodeIntPages(pages[..k + 1]), DecodeIntPages(pages[k + 1..]), numRows);
        return None;
      }
    }
    assert pages[..|pages|] == pages;
    return Some(results[..]);
  }
}

/** What written pages hold, byte by byte: where each row's null bit, value, end offset and characters are. */
module PageBytes {
  import opened Bits
  import opened Bitmaps
  import opened Options
  import opened Pages
  import opened StringPages
  import opened StringCodec
  import opened Scan
  import opened Relations

  /** How many of the first n rows are not null. */
  function Somes<T>(rows: seq<Option<T>>, n: nat): nat
    requires n <= |rows|
  {
    |set k: nat | k < n && rows[k].Some?|
  }

  lemma {:induction false} SomesIs<T>(rows: seq<Option<T>>, n: nat)
    requires n <= |rows|
    ensures Somes(rows, n) == |NonNulls(rows[..n])|
  {
    hide Somes, NonNulls;
    if n > 0 {
      SomesIs(rows, n - 1);
      SomesNext(rows, n - 1);
      NonNullsNext(rows[..n - 1], rows[n - 1]);
      assert rows[..n - 1] + [rows[n - 1]] == rows[..n];
    } else {
      NoSomes(rows);
    }
  }

  lemma NoSomes<T>(rows: seq<Option<T>>)
    ensures Somes(rows, 0) == 0 == |NonNulls(rows[..0])|
  {
  }

  lemma SomesNext<T>(rows: seq<Option<T>>, n: nat)
    requires n < |rows|
    ensures Somes(rows, n + 1) == Somes(rows, n) + if rows[n].Some? then 1 else 0
  {
    var before, all := set k: nat | k < n && rows[k].Some?, set k: nat | k < n + 1 && rows[k].Some?;
    assert all == if rows[n].Some? then before + {n} else before;
  }

  /** Bit i % 8 of byte i / 8 of the null bitmap, which is as long as it needs to be and ends with the page. */
  predicate NullBit(page: Page, rows: nat, i: nat)
    requires i < rows < 0x1_0000
  {
    Bit(page[8192 - (rows + 7) / 8 + i / 8], i % 8)
  }

  lemma NullBitIs(page: Page, rows: nat, i: nat)
    requires i < rows < 0x1_0000
    ensures NullBit(page, rows, i) <==> TestBit(PageBitmap(page, rows), i)
  {
    TestIsBit(PageBitmap(page, rows), i);
  }

  /** The number whose lower byte comes first. */
  function TwoBytes(page: Page, o: nat): nat
    requires o + 2 <= 8192
  {
    var low: nat, high: nat := page[o], page[o + 1];
    low + 0x100 * high
  }

  function FourBytes(page: Page, o: nat): nat
    requires o + 4 <= 8192
  {
    TwoBytes(page, o) + 0x1_0000 * TwoBytes(page, o + 2)
  }

  /** An INT32 page: two bytes for the number of rows, two for the number of values, four for each value. */
  lemma IntPageBytes(page: Page, rows: seq<Option<I32>>, i: nat)
    requires IntPageFor(page, rows) && i < |rows|
    ensures TwoBytes(page, 0) == |rows| && TwoBytes(page, 2) == Somes(rows, |rows|)
    ensures NullBit(page, |rows|, i) <==> rows[i].Some?
    ensures rows[i].Some? ==>
      var v: int := rows[i].value;
      && 4 + 4 * Somes(rows, i) + 4 <= 8192 - (|rows| + 7) / 8
      && FourBytes(page, 4 + 4 * Somes(rows, i)) == if v < 0 then v + 0x1_0000_0000 else v
  {
    hide TestBit, PageBitmap, NonNulls, Somes, NullBit;
    NullBitIs(page, |rows|, i);
    SomesIs(rows, |rows|);
    assert rows[..|rows|] == rows;
    if rows[i].Some? {
      SomesIs(rows, i);
      NthNonNull(rows, i);
    }
  }

  /** The bytes of string number m of n, on a page that has the n end offsets before the strings and ends with a
      bitmap of the given size.  An end offset counts from where the first string starts. */
  predicate StringLies(page: Page, n: nat, m: nat, bitmap: nat, s: Str)
    requires m < n && 4 + 2 * n <= 8192 && bitmap <= 8192
  {
    var start, end := if m == 0 then 0 else TwoBytes(page, 2 + 2 * m), TwoBytes(page, 4 + 2 * m);
    start <= end && 4 + 2 * n + end <= 8192 - bitmap && page[4 + 2 * n + start..4 + 2 * n + end] == s
  }

  /** A regular VARCHAR page: the numbers of rows and of strings, the end offsets, and the strings one behind the
      other. */
  lemma StringPageBytes(page: Page, rows: seq<Option<Str>>, i: nat)
    requires StringPageFor(page, rows) && i < |rows| && rows[i].Some?
    ensures TwoBytes(page, 0) == |rows| < 0xfffe && TwoBytes(page, 2) == Somes(rows, |rows|)
    ensures Somes(rows, i) < Somes(rows, |rows|) && 4 + 2 * Somes(rows, |rows|) <= 8192 && (|rows| + 7) / 8 <= 8192
    ensures StringLies(page, Somes(rows, |rows|), Somes(rows, i), (|rows| + 7) / 8, rows[i].value)
  {
    hide TestBit, PageBitmap, NonNulls, Joined, EndOf, Somes, BitsAre, OffsetsAre, StringLies;
    SomesIs(rows, |rows|);
    assert rows[..|rows|] == rows;
    SomesIs(rows, i);
    NthNonNull(rows, i);
    StringBytes(page, rows, |NonNulls(rows[..i])|);
  }

  lemma StringBytes(page: Page, rows: seq<Option<Str>>, m: nat)
    requires StringPageFor(page, rows) && m < |NonNulls(rows)|
    ensures StringLies(page, |NonNulls(rows)|, m, BitmapSize(|rows|), NonNulls(rows)[m])
  {
    hide NonNulls, Joined, EndOf, BitsAre, ReadU16, TwoBytes;
    var strings := NonNulls(rows);
    JoinSplit(strings, m);
    assert OffsetAt(page, m) == EndOf(strings, m);
    OffsetBytes(page, m);
    if m > 0 {
      assert OffsetAt(page, m - 1) == EndOf(strings, m - 1);
      OffsetBytes(page, m - 1);
    }
    hide OffsetsAre, OffsetAt;
    var a := if m == 0 then 0 else EndOf(strings, m - 1);
    InnerSlice(page, 4 + 2 * |strings|, |Joined(strings)|, a, EndOf(strings, m));
  }

  lemma OffsetBytes(page: Page, j: nat)
    requires 4 + 2 * j + 2 <= PAGE_SIZE
    ensures OffsetAt(page, j) == TwoBytes(page, 4 + 2 * j)
  {
  }

  lemma StringNullBits(page: Page, rows: seq<Option<Str>>, i: nat)
    requires StringPageFor(page, rows) && i < |rows|
    ensures NullBit(page, |rows|, i) <==> rows[i].Some?
  {
    hide TestBit, PageBitmap, NonNulls, Joined, OffsetsAre, NullBit;
    NullBitIs(page, |rows|, i);
  }

  /** A page of a long string: ff ff on the first and fe ff on the others, the number of characters, and these. */
  lemma LongPageBytes(page: Page, first: bool, chars: Str)
    requires |chars| <= 8188
    ensures var p := LongPage(page, if first then LONG_FIRST else LONG_NEXT, chars);
      && p[0] == (if first then 0xff else 0xfe) && p[1] == 0xff
      && TwoBytes(p, 2) == |chars| && p[4..4 + |chars|] == chars
  {
    var kind: U16 := if first then LONG_FIRST else LONG_NEXT;
    LongPageDecodes(page, kind, chars);
    var p := LongPage(page, kind, chars);
    assert p[2] == WriteU16(WriteU16(page, 0, kind), 2, |chars|)[2];
  }

  /** A decoded column tells null from every value. */
  lemma DecodedCell(col: TableColumn, r: nat)
    requires r < |Decoded(col)|
    ensures col.dtype == INT32 ==> r < |DecodeIntPages(col.pages)| && match DecodeIntPages(col.pages)[r]
      case None => Decoded(col)[r] == Null
      case Some(v) => Decoded(col)[r] == Int(v)
    ensures col.dtype == VARCHAR ==> DecodeStringPages(col.pages).Some?
    ensures col.dtype == VARCHAR ==>
      r < |DecodeStringPages(col.pages).value| && match DecodeStringPages(col.pages).value[r]
      case None => Decoded(col)[r] == Null
      case Some(s) => Decoded(col)[r] == Text(s)
  {
    hide DecodeIntPages, DecodeStringPages;
  }
}

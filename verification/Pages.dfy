/** Pages as bytes: little-endian fields, the header, the null bitmap at the back, and the INT32 page layout. */
module Pages {
  import opened Bits
  import opened Bitmaps
  import opened Options

  const PAGE_SIZE: nat := 8192

  type Page = p: seq<U8> | |p| == 8192 witness seq(8192, i => 0)
  type I32 = x: int | -0x8000_0000 <= x < 0x8000_0000

  function ReadU16(p: seq<U8>, o: nat): U16
    requires o + 2 <= |p|
  {
    p[o] as nat + 0x100 * p[o + 1] as nat
  }

  function WriteU16(p: seq<U8>, o: nat, v: U16): (r: seq<U8>)
    requires o + 2 <= |p|
    ensures |r| == |p|
  {
    p[o := v % 0x100][o + 1 := v / 0x100]
  }

  function ReadI32(p: seq<U8>, o: nat): I32
    requires o + 4 <= |p|
  {
    var u := p[o] as nat + 0x100 * p[o + 1] as nat + 0x1_0000 * p[o + 2] as nat + 0x100_0000 * p[o + 3] as nat;
    if u < 0x8000_0000 then u else u - 0x1_0000_0000
  }

  function WriteI32(p: seq<U8>, o: nat, v: I32): (r: seq<U8>)
    requires o + 4 <= |p|
    ensures |r| == |p|
  {
    var u := if v < 0 then v + 0x1_0000_0000 else v;
    p[o := u % 0x100][o + 1 := u / 0x100 % 0x100][o + 2 := u / 0x1_0000 % 0x100][o + 3 := u / 0x100_0000]
  }

  lemma U16RoundTrip(p: seq<U8>, o: nat, v: U16)
    requires o + 2 <= |p|
    ensures ReadU16(WriteU16(p, o, v), o) == v
  {
  }

  lemma I32RoundTrip(p: seq<U8>, o: nat, v: I32)
    requires o + 4 <= |p|
    ensures ReadI32(WriteI32(p, o, v), o) == v
  {
    var u := if v < 0 then v + 0x1_0000_0000 else v;
    FourBytes(u);
  }

  lemma FourBytes(u: nat)
    requires u < 0x1_0000_0000
    ensures u == u % 0x100 + 0x100 * (u / 0x100 % 0x100) + 0x1_0000 * (u / 0x1_0000 % 0x100)
      + 0x100_0000 * (u / 0x100_0000)
    ensures u / 0x100_0000 < 0x100
  {
    assert u / 0x1_0000 == u / 0x100 / 0x100 && u / 0x100_0000 == u / 0x1_0000 / 0x100;
  }

  function BitmapSize(rows: nat): nat {
    (rows + 7) / 8
  }

  /** The null bitmap occupies the last BitmapSize(rows) bytes. */
  function PageBitmap(page: Page, rows: U16): (b: seq<U8>)
    ensures |b| == BitmapSize(rows)
  {
    page[PAGE_SIZE - BitmapSize(rows)..]
  }

  function NonNulls<T>(rows: seq<Option<T>>): seq<T> {
    if rows == [] then [] else
      NonNulls(rows[..|rows| - 1]) + (if rows[|rows| - 1].Some? then [rows[|rows| - 1].value] else [])
  }

  lemma NonNullsNext<T>(rows: seq<Option<T>>, row: Option<T>)
    ensures NonNulls(rows + [row]) == NonNulls(rows) + (if row.Some? then [row.value] else [])
  {
    assert (rows + [row])[..|rows + [row]| - 1] == rows;
  }

  lemma {:induction false} NonNullsCat<T>(a: seq<Option<T>>, b: seq<Option<T>>)
    ensures NonNulls(a + b) == NonNulls(a) + NonNulls(b)
  {
    if b == [] {
      assert a + b == a;
    } else {
      NonNullsCat(a, b[..|b| - 1]);
      assert (a + b)[..|a + b| - 1] == a + b[..|b| - 1];
    }
  }

  lemma {:induction false} NonNullsBound<T>(rows: seq<Option<T>>)
    ensures |NonNulls(rows)| <= |rows|
    ensures |NonNulls(rows)| == |rows| <==> forall i :: 0 <= i < |rows| ==> rows[i].Some?
  {
    if rows != [] { NonNullsBound(rows[..|rows| - 1]); }
  }

  /** The bitmap of a page being filled marks exactly the non-null rows. */
  ghost predicate BitsAre<T>(bitmap: seq<U8>, rows: seq<Option<T>>) {
    BitmapSize(|rows|) <= |bitmap| && forall i :: 0 <= i < |rows| ==> TestBit(bitmap, i) == rows[i].Some?
  }

  lemma BitsKept<T>(bitmap: seq<U8>, b: seq<U8>, rows: seq<Option<T>>)
    requires BitsAre(bitmap, rows) && b == bitmap[..BitmapSize(|rows|)]
    ensures BitsAre(b, rows)
  {
    forall i | 0 <= i < |rows| ensures TestBit(b, i) == TestBit(bitmap, i) { assert b[i / 8] == bitmap[i / 8]; }
    hide TestBit;
  }

  lemma BitsNext<T>(bitmap: seq<U8>, rows: seq<Option<T>>, row: Option<T>)
    requires BitsAre(bitmap, rows) && |rows| / 8 < |bitmap|
    ensures BitsAre(if row.Some? then SetBit(bitmap, |rows|) else ClearBit(bitmap, |rows|), rows + [row])
  {
    hide TestBit, SetBit, ClearBit;
    var bitmap' := if row.Some? then SetBit(bitmap, |rows|) else ClearBit(bitmap, |rows|);
    forall i | 0 <= i < |rows| + 1 ensures TestBit(bitmap', i) == (rows + [row])[i].Some? {
      SetBitLaw(bitmap, |rows|, i);
      ClearBitLaw(bitmap, |rows|, i);
    }
  }

  // Decoding an INT32 page, as from_columnar does.

  /** Value number j of the page.  A value that would lie past the page's end reads as 0; on pages that the
      codec writes there is none. */
  function IntAt(page: Page, j: nat): I32 {
    if 4 + 4 * j + 4 <= PAGE_SIZE then ReadI32(page, 4 + 4 * j) else 0
  }

  /** The first k rows of the page. */
  function DecodeInts(page: Page, k: nat): (rows: seq<Option<I32>>)
    requires k <= ReadU16(page, 0)
    ensures |rows| == k
  {
    if k == 0 then [] else
      var rows := DecodeInts(page, k - 1);
      rows + [if TestBit(PageBitmap(page, ReadU16(page, 0)), k - 1) then Some(IntAt(page, |NonNulls(rows)|)) else None]
  }

  lemma DecodeIntsNone(page: Page)
    ensures DecodeInts(page, 0) == [] && NonNulls(DecodeInts(page, 0)) == []
  {
  }

  lemma DecodeIntsNext(page: Page, k: nat)
    requires k < ReadU16(page, 0)
    ensures DecodeInts(page, k + 1) == DecodeInts(page, k) +
      [if TestBit(PageBitmap(page, ReadU16(page, 0)), k) then Some(IntAt(page, |NonNulls(DecodeInts(page, k))|))
        else None]
  {
  }

  function DecodeIntPage(page: Page): seq<Option<I32>> {
    DecodeInts(page, ReadU16(page, 0))
  }

  function DecodeIntPages(pages: seq<Page>): seq<Option<I32>> {
    if pages == [] then [] else DecodeIntPages(pages[..|pages| - 1]) + DecodeIntPage(pages[|pages| - 1])
  }

  lemma DecodeIntPagesNext(pages: seq<Page>, page: Page)
    ensures DecodeIntPages(pages + [page]) == DecodeIntPages(pages) + DecodeIntPage(page)
  {
    assert (pages + [page])[..|pages + [page]| - 1] == pages;
  }

  lemma {:induction false} DecodeIntPagesCat(a: seq<Page>, b: seq<Page>)
    ensures DecodeIntPages(a + b) == DecodeIntPages(a) + DecodeIntPages(b)
  {
    hide DecodeIntPage;
    if b == [] {
      assert a + b == a && DecodeIntPages(a) + [] == DecodeIntPages(a);
    } else {
      hide DecodeIntPages;
      var b', page := b[..|b| - 1], b[|b| - 1];
      assert b == b' + [page] && a + b == (a + b') + [page];
      DecodeIntPagesCat(a, b');
      DecodeIntPagesNext(a + b', page);
      DecodeIntPagesNext(b', page);
      var x, y, z := DecodeIntPages(a), DecodeIntPages(b'), DecodeIntPage(page);
      assert (x + y) + z == x + (y + z);
    }
  }

  /** A page that was laid out for exactly these rows: header, values and bitmap, none overlapping another. */
  ghost predicate IntPageFor(page: Page, rows: seq<Option<I32>>) {
    && |rows| < 0x1_0000 && ReadU16(page, 0) == |rows| && ReadU16(page, 2) == |NonNulls(rows)|
    && 4 + 4 * |NonNulls(rows)| + BitmapSize(|rows|) <= PAGE_SIZE
    && (forall i :: 0 <= i < |rows| ==> TestBit(PageBitmap(page, |rows|), i) == rows[i].Some?)
    && (forall j :: 0 <= j < |NonNulls(rows)| ==> IntAt(page, j) == NonNulls(rows)[j])
  }

  lemma IntPageDecodes(page: Page, rows: seq<Option<I32>>)
    requires IntPageFor(page, rows)
    ensures DecodeIntPage(page) == rows
  {
    IntPrefixDecodes(page, rows, |rows|);
  }

  lemma {:induction false} IntPrefixDecodes(page: Page, rows: seq<Option<I32>>, k: nat)
    requires IntPageFor(page, rows) && k <= |rows|
    ensures DecodeInts(page, k) == rows[..k]
  {
    hide DecodeInts, NonNulls, IntAt, TestBit, PageBitmap, ReadU16;
    if k > 0 {
      IntPrefixDecodes(page, rows, k - 1);
      assert rows[..k] == rows[..k - 1] + [rows[k - 1]];
      IntRowIs(page, rows, k - 1);
      DecodeIntsNext(page, k - 1);
    } else {
      DecodeIntsNone(page);
    }
  }

  /** Row k is decoded from its bit and the value that its non-null predecessors lead to. */
  lemma IntRowIs(page: Page, rows: seq<Option<I32>>, k: nat)
    requires IntPageFor(page, rows) && k < |rows|
    ensures TestBit(PageBitmap(page, |rows|), k) == rows[k].Some?
    ensures rows[k].Some? ==> IntAt(page, |NonNulls(rows[..k])|) == rows[k].value
  {
    hide NonNulls, IntAt, TestBit;
    assert rows == rows[..k] + [rows[k]] + rows[k + 1..];
    NonNullsCat(rows[..k] + [rows[k]], rows[k + 1..]);
    NonNullsNext(rows[..k], rows[k]);
    if rows[k].Some? {
      var j := |NonNulls(rows[..k])|;
      assert NonNulls(rows)[j] == rows[k].value && IntAt(page, j) == NonNulls(rows)[j];
    }
  }

  // Writing into a page in memory.

  method StoreU16(a: array<U8>, o: nat, v: U16)
    requires o + 2 <= a.Length
    modifies a
    ensures a[..] == WriteU16(old(a[..]), o, v)
  {
    a[o] := v % 0x100;
    a[o + 1] := v / 0x100;
  }

  method StoreI32(a: array<U8>, o: nat, v: I32)
    requires o + 4 <= a.Length
    modifies a
    ensures a[..] == WriteI32(old(a[..]), o, v)
  {
    var u := if v < 0 then v + 0x1_0000_0000 else v;
    a[o] := u % 0x100;
    a[o + 1] := u / 0x100 % 0x100;
    a[o + 2] := u / 0x1_0000 % 0x100;
    a[o + 3] := u / 0x100_0000;
  }

  /** memcpy(a + o, src, |src|). */
  method StoreBytes(a: array<U8>, o: nat, src: seq<U8>)
    requires o + |src| <= a.Length
    modifies a
    ensures a[..] == old(a[..o]) + src + old(a[o + |src|..])
  {
    for i := 0 to |src|
      invariant a[..] == Stored(old(a[..]), o, src[..i])
    {
      StoredNext(old(a[..]), o, src, i);
      a[o + i] := src[i];
    }
    assert src[..|src|] == src && old(a[..])[..o] == old(a[..o]) && old(a[..])[o + |src|..] == old(a[o + |src|..]);
  }

  ghost function Stored(bytes: seq<U8>, o: nat, src: seq<U8>): seq<U8>
    requires o + |src| <= |bytes|
  {
    bytes[..o] + src + bytes[o + |src|..]
  }

  lemma StoredNext(bytes: seq<U8>, o: nat, src: seq<U8>, i: nat)
    requires i < |src| && o + |src| <= |bytes|
    ensures Stored(bytes, o, src[..i + 1]) == Stored(bytes, o, src[..i])[o + i := src[i]]
  {
  }

  // The decoder's result: a column of cells that are null until a decoded row is put there.

  /** A value beyond the table's row count, which the decoder refuses. */
  ghost predicate Overflows<T>(decoded: seq<Option<T>>, numRows: nat) {
    exists i :: numRows <= i < |decoded| && decoded[i].Some?
  }

  /** The decoded rows as a column of numRows cells that were null before. */
  function Placed<T>(decoded: seq<Option<T>>, numRows: nat): (r: seq<Option<T>>)
    ensures |r| == numRows && (|decoded| == numRows ==> r == decoded)
  {
    seq(numRows, i => if 0 <= i < |decoded| then decoded[i] else None)
  }

  lemma PlacedNext<T>(decoded: seq<Option<T>>, row: Option<T>, numRows: nat)
    ensures Placed(decoded + [row], numRows)
         == if |decoded| < numRows then Placed(decoded, numRows)[|decoded| := row] else Placed(decoded, numRows)
    ensures |decoded| < numRows ==> Placed(decoded, numRows)[|decoded|] == None
    ensures Overflows(decoded + [row], numRows) <==> Overflows(decoded, numRows) || (numRows <= |decoded| && row.Some?)
  {
    var next := decoded + [row];
    if Overflows(decoded, numRows) {
      var i :| numRows <= i < |decoded| && decoded[i].Some?;
      assert next[i].Some?;
    }
    if numRows <= |decoded| && row.Some? { assert next[|decoded|].Some?; }
  }

  lemma RowBehind<T>(before: seq<Option<T>>, rows: seq<Option<T>>, row: Option<T>)
    ensures before + (rows + [row]) == (before + rows) + [row]
  {
  }

  lemma OverflowsLater<T>(before: seq<Option<T>>, rows: seq<Option<T>>, k: nat, numRows: nat)
    requires k <= |rows| && Overflows(before + rows[..k], numRows)
    ensures Overflows(before + rows, numRows)
  {
    OverflowsMore(before + rows[..k], rows[k..], numRows);
    assert before + rows[..k] + rows[k..] == before + rows;
  }

  lemma OverflowsMore<T>(a: seq<Option<T>>, b: seq<Option<T>>, numRows: nat)
    requires Overflows(a, numRows)
    ensures Overflows(a + b, numRows)
  {
    var i :| numRows <= i < |a| && a[i].Some?;
    assert (a + b)[i].Some?;
  }
}

/** VARCHAR pages.  A regular page has an offset array, the string bytes and a null bitmap; a long string is a chain
    of pages of its own, marked 0xffff (first) and 0xfffe (next) where a regular page has its row count. */
module StringPages {
  import opened Bits
  import opened Bitmaps
  import opened Options
  import opened Pages

  const LONG_FIRST: U16 := 0xffff
  const LONG_NEXT: U16 := 0xfffe

  type Str = seq<U8>

  function Joined(strings: seq<Str>): Str {
    if strings == [] then [] else Joined(strings[..|strings| - 1]) + strings[|strings| - 1]
  }

  lemma JoinNext(strings: seq<Str>, s: Str)
    ensures Joined(strings + [s]) == Joined(strings) + s
  {
    assert (strings + [s])[..|strings + [s]| - 1] == strings;
  }

  lemma {:induction false} JoinCat(a: seq<Str>, b: seq<Str>)
    ensures Joined(a + b) == Joined(a) + Joined(b)
  {
    if b == [] {
      assert a + b == a;
    } else {
      JoinCat(a, b[..|b| - 1]);
      assert (a + b)[..|a + b| - 1] == a + b[..|b| - 1];
    }
  }

  /** Bytes a up to b of the page; outside the page the program's read is undefined and the model's is empty. */
  function Slice(page: Page, a: nat, b: nat): Str {
    if a <= b <= PAGE_SIZE then page[a..b] else []
  }

  function OffsetAt(page: Page, j: nat): U16 {
    if 4 + 2 * j + 2 <= PAGE_SIZE then ReadU16(page, 4 + 2 * j) else 0
  }

  /** Where string j starts and ends among the page's string bytes. */
  function StartOffset(page: Page, j: nat): U16 {
    if j == 0 then 0 else OffsetAt(page, j - 1)
  }

  /** String number j of a regular page: the bytes start behind the offsets of its non-null rows. */
  function StringAt(page: Page, j: nat): Str {
    var dataBegin := 4 + ReadU16(page, 2) * 2;
    Slice(page, dataBegin + StartOffset(page, j), dataBegin + OffsetAt(page, j))
  }

  function DecodeStrings(page: Page, k: nat): (rows: seq<Option<Str>>)
    requires k <= ReadU16(page, 0)
    ensures |rows| == k
  {
    if k == 0 then [] else
      var rows := DecodeStrings(page, k - 1);
      rows + [if TestBit(PageBitmap(page, ReadU16(page, 0)), k - 1) then Some(StringAt(page, |NonNulls(rows)|))
        else None]
  }

  /** The characters of a page of a long string. */
  function LongChars(page: Page): Str {
    Slice(page, 4, 4 + ReadU16(page, 2))
  }

  /** What one more page adds to the rows decoded so far; None stands for the decoder's exception. */
  function DecodeOnePage(rows: seq<Option<Str>>, page: Page): Option<seq<Option<Str>>> {
    if ReadU16(page, 0) == LONG_FIRST then Some(rows + [Some(LongChars(page))])
    else if ReadU16(page, 0) == LONG_NEXT then
      if rows != [] && rows[|rows| - 1].Some?
      then Some(rows[..|rows| - 1] + [Some(rows[|rows| - 1].value + LongChars(page))])
      else None
    else Some(rows + DecodeStrings(page, ReadU16(page, 0)))
  }

  function DecodeStringPages(pages: seq<Page>): Option<seq<Option<Str>>> {
    if pages == [] then Some([]) else
      match DecodeStringPages(pages[..|pages| - 1])
      case Some(rows) => DecodeOnePage(rows, pages[|pages| - 1])
      case None => None
  }

  lemma DecodeStringPagesNext(pages: seq<Page>, page: Page)
    ensures DecodeStringPages(pages + [page]) ==
      (match DecodeStringPages(pages) case Some(rows) => DecodeOnePage(rows, page) case None => None)
  {
    assert (pages + [page])[..|pages + [page]| - 1] == pages;
  }

  /** Pages that do not begin inside a long string decode the same after any other pages. */
  lemma {:induction false} DecodeStringPagesCat(a: seq<Page>, b: seq<Page>)
    requires DecodeStringPages(a).Some? && DecodeStringPages(b).Some?
    ensures DecodeStringPages(a + b) == Some(DecodeStringPages(a).value + DecodeStringPages(b).value)
  {
    hide DecodeOnePage;
    if b == [] {
      assert a + b == a && DecodeStringPages(a).value + [] == DecodeStringPages(a).value;
    } else {
      var b', page := b[..|b| - 1], b[|b| - 1];
      assert b == b' + [page] && a + b == (a + b') + [page];
      DecodeStringPagesCat(a, b');
      DecodeStringPagesNext(a + b', page);
      DecodeStringPagesNext(b', page);
      DecodeOneMore(DecodeStringPages(a).value, DecodeStringPages(b').value, page);
    }
  }

  lemma DecodeOneMore(a: seq<Option<Str>>, b: seq<Option<Str>>, page: Page)
    requires DecodeOnePage(b, page).Some?
    ensures DecodeOnePage(a + b, page) == Some(a + DecodeOnePage(b, page).value)
  {
    hide DecodeStrings, LongChars;
    if ReadU16(page, 0) == LONG_NEXT {
      var last := b[|b| - 1].value + LongChars(page);
      assert (a + b)[..|a + b| - 1] + [Some(last)] == a + (b[..|b| - 1] + [Some(last)]);
    } else {
      var more :=
        if ReadU16(page, 0) == LONG_FIRST then [Some(LongChars(page))] else DecodeStrings(page, ReadU16(page, 0));
      assert (a + b) + more == a + (b + more);
    }
  }

  /** A regular page that was laid out for exactly these rows; offsets, string bytes and bitmap do not overlap. */
  ghost predicate StringPageFor(page: Page, rows: seq<Option<Str>>) {
    var n, size := |NonNulls(rows)|, |Joined(NonNulls(rows))|;
    && |rows| < LONG_NEXT && ReadU16(page, 0) == |rows| && n < 0x1_0000 && ReadU16(page, 2) == n
    && 4 + 2 * n + size + BitmapSize(|rows|) <= PAGE_SIZE
    && BitsAre(PageBitmap(page, |rows|), rows)
    && OffsetsAre(page, NonNulls(rows))
    && page[4 + 2 * n..4 + 2 * n + size] == Joined(NonNulls(rows))
  }

  /** Offset j is where string j ends. */
  ghost predicate OffsetsAre(page: Page, strings: seq<Str>) {
    forall j :: 0 <= j < |strings| ==> OffsetAt(page, j) == EndOf(strings, j)
  }

  /** Where string j ends when the strings are written one behind the other. */
  function EndOf(strings: seq<Str>, j: nat): nat
    requires j < |strings|
  {
    |Joined(strings[..j + 1])|
  }

  /** A page with these parts, and with the offsets of another, is laid out for the rows. */
  lemma StringPageIs(headed: Page, page: Page, data: Str, n: nat, bitmap: seq<U8>, rows: seq<Option<Str>>)
    requires |rows| < LONG_NEXT && n == |NonNulls(rows)| < 0x1_0000 && data == Joined(NonNulls(rows))
    requires BitsAre(bitmap, rows)
    requires |bitmap| == BitmapSize(|rows|) && 4 + 2 * n + |data| + |bitmap| <= PAGE_SIZE
    requires ReadU16(page, 0) == |rows| && ReadU16(page, 2) == n && OffsetsAre(headed, NonNulls(rows))
    requires page[4 + 2 * n..4 + 2 * n + |data|] == data && page[PAGE_SIZE - |bitmap|..] == bitmap
    requires forall k :: 4 <= k < 4 + 2 * n ==> page[k] == headed[k]
    ensures StringPageFor(page, rows)
  {
    hide NonNulls, BitsAre, Joined, EndOf;
    forall j | 0 <= j < n ensures OffsetAt(page, j) == OffsetAt(headed, j) {}
    hide OffsetAt, ReadU16;
    assert PageBitmap(page, |rows|) == bitmap;
  }

  lemma StringPageDecodes(page: Page, rows: seq<Option<Str>>)
    requires StringPageFor(page, rows)
    ensures DecodeStrings(page, |rows|) == rows
    ensures forall before :: DecodeOnePage(before, page) == Some(before + rows)
  {
    StringPrefixDecodes(page, rows, |rows|);
    assert rows[..|rows|] == rows;
  }

  /** String j of the page is the j-th non-null row. */
  lemma StringAtIs(page: Page, rows: seq<Option<Str>>, j: nat)
    requires StringPageFor(page, rows) && j < |NonNulls(rows)|
    ensures StringAt(page, j) == NonNulls(rows)[j]
  {
    hide NonNulls, BitsAre, OffsetAt, Joined, EndOf, ReadU16;
    var strings := NonNulls(rows);
    JoinSplit(strings, j);
    assert OffsetAt(page, j) == EndOf(strings, j);
    if j > 0 { assert OffsetAt(page, j - 1) == EndOf(strings, j - 1); }
    hide OffsetsAre;
    var a := if j == 0 then 0 else EndOf(strings, j - 1);
    InnerSlice(page, 4 + 2 * |strings|, |Joined(strings)|, a, EndOf(strings, j));
  }

  lemma InnerSlice(page: Page, base: nat, size: nat, a: nat, b: nat)
    requires a <= b <= size && base + size <= PAGE_SIZE
    ensures page[base..base + size][a..b] == page[base + a..base + b]
  {
    var inner := page[base..base + size];
    forall k | 0 <= k < b - a ensures inner[a..b][k] == page[base + a..base + b][k] {
      assert inner[a + k] == page[base + (a + k)];
    }
  }

  lemma JoinSplit(strings: seq<Str>, j: nat)
    requires j < |strings|
    ensures var a := if j == 0 then 0 else EndOf(strings, j - 1);
      a <= EndOf(strings, j) <= |Joined(strings)| && Joined(strings)[a..EndOf(strings, j)] == strings[j]
  {
    assert strings == strings[..j + 1] + strings[j + 1..] && strings[..j + 1] == strings[..j] + [strings[j]];
    JoinCat(strings[..j + 1], strings[j + 1..]);
    JoinNext(strings[..j], strings[j]);
    if j == 0 { NothingJoined(strings); }
    hide Joined;
  }

  lemma NothingJoined(strings: seq<Str>)
    ensures Joined(strings[..0]) == []
  {
  }

  lemma {:induction false} StringPrefixDecodes(page: Page, rows: seq<Option<Str>>, k: nat)
    requires StringPageFor(page, rows) && k <= |rows|
    ensures k <= ReadU16(page, 0) && DecodeStrings(page, k) == rows[..k]
  {
    hide DecodeStrings, NonNulls, StringAt, TestBit, StringPageFor, ReadU16, PageBitmap;
    StringRowCount(page, rows);
    if k > 0 {
      StringPrefixDecodes(page, rows, k - 1);
      StringRowIs(page, rows, k - 1);
      DecodeStringsNext(page, k - 1);
      assert rows[..k] == rows[..k - 1] + [rows[k - 1]];
    } else {
      NoStrings(page);
    }
  }

  lemma StringRowCount(page: Page, rows: seq<Option<Str>>)
    requires StringPageFor(page, rows)
    ensures ReadU16(page, 0) == |rows|
  {
    hide ReadU16, NonNulls, Joined, BitsAre, OffsetsAre;
  }

  /** Row k is decoded from its bit and the string that its non-null predecessors lead to. */
  lemma StringRowIs(page: Page, rows: seq<Option<Str>>, k: nat)
    requires StringPageFor(page, rows) && k < |rows|
    ensures ReadU16(page, 0) == |rows| && TestBit(PageBitmap(page, |rows|), k) == rows[k].Some?
    ensures rows[k].Some? ==> StringAt(page, |NonNulls(rows[..k])|) == rows[k].value
  {
    hide ReadU16, NonNulls, StringAt, TestBit, Joined, OffsetsAre;
    if rows[k].Some? {
      NthNonNull(rows, k);
      StringAtIs(page, rows, |NonNulls(rows[..k])|);
    }
  }

  lemma NthNonNull<T>(rows: seq<Option<T>>, k: nat)
    requires k < |rows| && rows[k].Some?
    ensures |NonNulls(rows[..k])| < |NonNulls(rows)| && NonNulls(rows)[|NonNulls(rows[..k])|] == rows[k].value
  {
    assert rows == (rows[..k] + [rows[k]]) + rows[k + 1..];
    NonNullsCat(rows[..k] + [rows[k]], rows[k + 1..]);
    NonNullsNext(rows[..k], rows[k]);
  }

  lemma {:induction false} DecodeStringsPrefix(page: Page, k: nat, n: nat)
    requires k <= n <= ReadU16(page, 0)
    ensures DecodeStrings(page, n)[..k] == DecodeStrings(page, k)
    decreases n - k
  {
    if k < n { DecodeStringsPrefix(page, k, n - 1); }
  }

  lemma DecodeStringsNext(page: Page, k: nat)
    requires k < ReadU16(page, 0)
    ensures DecodeStrings(page, k + 1) == DecodeStrings(page, k) +
      [if TestBit(PageBitmap(page, ReadU16(page, 0)),
        k) then Some(StringAt(page, |NonNulls(DecodeStrings(page, k))|)) else None]
  {
  }

  lemma NoStrings(page: Page)
    ensures DecodeStrings(page, 0) == [] && NonNulls(DecodeStrings(page, 0)) == []
  {
  }

  // Whole columns.

  predicate IsNext(page: Page) {
    ReadU16(page, 0) == LONG_NEXT
  }

  predicate IsFirst(page: Page) {
    ReadU16(page, 0) == LONG_FIRST
  }

  /** The string that starts on page p, if it is a long one, as far as the pages go. */
  function LongAt(pages: seq<Page>, p: nat): Str
    requires p < |pages|
    decreases |pages| - p
  {
    LongChars(pages[p]) + (if p + 1 < |pages| && IsNext(pages[p + 1]) then LongAt(pages, p + 1) else [])
  }

  /** What the VARCHAR codec guarantees of a column's pages: a long string's pages follow each other, and every
      other page is laid out for its rows. */
  ghost predicate StringColumnOk(pages: seq<Page>) {
    forall p :: 0 <= p < |pages| ==> StringPageOk(pages, p)
  }

  ghost predicate StringPageOk(pages: seq<Page>, p: nat)
    requires p < |pages|
  {
    && (IsNext(pages[p]) ==> p > 0 && (IsFirst(pages[p - 1]) || IsNext(pages[p - 1])))
    && (!IsNext(pages[p]) && !IsFirst(pages[p]) ==> StringPageFor(pages[p],
      DecodeStrings(pages[p], ReadU16(pages[p], 0))))
  }
}

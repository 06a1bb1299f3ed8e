/** Reading strings back through references, as the materialiser does, and when that gives what was stored. */
module StringReads {
  import opened Bits
  import opened Bitmaps
  import opened Options
  import opened Pages
  import opened StringPages
  import opened StringCodec
  import opened Columns
  import opened Scan

  // Short strings.

  /** The 16-bit position at which the materialiser takes the string bytes of a page to begin. */
  function BaseOffset(page: Page): U16 {
    (4 + ReadU16(page, 0) * 2) % 0x1_0000
  }

  function ReadAt(page: Page, o: nat): U16 {
    if o + 2 <= PAGE_SIZE then ReadU16(page, o) else 0
  }

  function ShortStart(page: Page, offset: U16): U16 {
    if offset > 4 then (ReadAt(page, offset - 2) + BaseOffset(page)) % 0x1_0000 else BaseOffset(page)
  }

  function ShortEnd(page: Page, offset: U16): U16 {
    (ReadAt(page, if offset > 4 then offset else 4) + BaseOffset(page)) % 0x1_0000
  }

  /** The decoder counts the offsets of the non-null rows, the materialiser the rows.  The two meet exactly if the
      page has no nulls, or 32768 of them, when the 16-bit sum comes round. */
  predicate BaseAgrees(page: Page) {
    (ReadU16(page, 0) - ReadU16(page, 2)) % 0x8000 == 0
  }

  /** The materialiser starts reading string j where the codec put it if and only if the bases agree. */
  lemma ShortStartIs(page: Page, rows: seq<Option<Str>>, j: nat)
    requires StringPageFor(page, rows) && j < |NonNulls(rows)|
    ensures ShortStart(page, 4 + 2 * j) == 4 + 2 * ReadU16(page, 2) + StartOffset(page, j) <==> BaseAgrees(page)
    ensures BaseAgrees(page) ==> ShortEnd(page, 4 + 2 * j) == 4 + 2 * ReadU16(page, 2) + OffsetAt(page, j)
    ensures 4 + 2 * ReadU16(page, 2) + StartOffset(page, j) <= 4 + 2 * ReadU16(page, 2) + OffsetAt(page, j) <= PAGE_SIZE
  {
    OffsetsBound(page, rows, j);
    ReadAtIs(page, j);
    hide StringPageFor, NonNulls, ReadU16, ReadAt, OffsetAt, BaseOffset, BaseAgrees;
    BaseWraps(page, StartOffset(page, j));
    BaseWraps(page, OffsetAt(page, j));
  }

  lemma ReadAtIs(page: Page, j: nat)
    ensures ReadAt(page, 4 + 2 * j) == OffsetAt(page, j)
    ensures j > 0 ==> ReadAt(page, (4 + 2 * j) - 2) == OffsetAt(page, j - 1)
  {
  }

  lemma OffsetsBound(page: Page, rows: seq<Option<Str>>, j: nat)
    requires StringPageFor(page, rows) && j < |NonNulls(rows)|
    ensures ReadU16(page, 2) == |NonNulls(rows)| && 4 + 2 * j + 2 <= PAGE_SIZE
    ensures StartOffset(page, j) <= OffsetAt(page, j) && 4 + 2 * ReadU16(page, 2) + OffsetAt(page, j) <= PAGE_SIZE
  {
    hide NonNulls, BitsAre, Joined, EndOf, OffsetAt, ReadU16;
    JoinSplit(NonNulls(rows), j);
    assert OffsetAt(page, j) == EndOf(NonNulls(rows), j);
    if j > 0 { assert OffsetAt(page, j - 1) == EndOf(NonNulls(rows), j - 1); }
  }

  lemma WrapsTogether(nr: U16, nv: U16, o: U16)
    requires 4 + 2 * nv + o <= PAGE_SIZE
    ensures (o + (4 + nr * 2) % 0x1_0000) % 0x1_0000 == 4 + 2 * nv + o <==> (nr - nv) % 0x8000 == 0
    ensures o == 0 ==> ((4 + nr * 2) % 0x1_0000 == 4 + 2 * nv <==> (nr - nv) % 0x8000 == 0)
  {
  }

  lemma BaseWraps(page: Page, o: nat)
    requires 4 + 2 * ReadU16(page, 2) + o <= PAGE_SIZE
    ensures (o + BaseOffset(page)) % 0x1_0000 == 4 + 2 * ReadU16(page, 2) + o <==> BaseAgrees(page)
    ensures o == 0 ==> (BaseOffset(page) == 4 + 2 * ReadU16(page, 2) <==> BaseAgrees(page))
  {
    WrapsTogether(ReadU16(page, 0), ReadU16(page, 2), o);
  }

  /** What is read for string j of a page. */
  function ReadShort(page: Page, j: nat): Str
    requires 4 + 2 * j < 0x1_0000
  {
    Slice(page, ShortStart(page, 4 + 2 * j), ShortEnd(page, 4 + 2 * j))
  }

  lemma ShortIsRight(page: Page, rows: seq<Option<Str>>, j: nat)
    requires StringPageFor(page, rows) && j < |NonNulls(rows)| && BaseAgrees(page)
    ensures 4 + 2 * j < 0x1_0000 && ReadShort(page, j) == StringAt(page, j) == NonNulls(rows)[j]
  {
    ShortStartIs(page, rows, j);
    StringAtIs(page, rows, j);
  }

  /** One null row on the page is enough: the string "a" is read back as a zero byte. */
  lemma NullsShiftStrings() returns (page: Page, rows: seq<Option<Str>>)
    ensures StringPageFor(page, rows) && rows == [Some([97]), None]
    ensures ReadShort(page, 0) == [0] && NonNulls(rows) == [[97]]
  {
    rows := [Some([97]), None];
    OneAndNull(rows);
    hide TestBit, NonNulls, Joined, EndOf, BitsAre, ReadU16, PageBitmap;
    page := OneAndNullPage();
    assert OffsetsAre(page, [[97]]);
  }

  /** Two rows, one value, which ends behind its first byte, that byte, and the bitmap. */
  lemma OneAndNullPage() returns (page: Page)
    ensures ReadU16(page, 0) == 2 && ReadU16(page, 2) == 1 && ReadU16(page, 4) == 1
    ensures page[6..7] == [97] && Slice(page, 8, 9) == [0] && PageBitmap(page, 2) == [1]
  {
    var zeros: seq<U8> := seq(8184, i => 0);
    page := [2, 0, 1, 0, 1, 0, 97] + zeros + [1];
  }

  lemma OneAndNull(rows: seq<Option<Str>>)
    requires rows == [Some([97]), None]
    ensures NonNulls(rows) == [[97]] && Joined([[97]]) == [97] && EndOf([[97]], 0) == 1 && BitsAre([1], rows)
  {
    hide NonNulls, Joined, TestBit;
    var one: seq<Option<Str>> := [Some([97])];
    assert one == [] + [Some([97])] && rows == one + [None];
    NonNullsNext<Str>([], Some([97]));
    NonNullsNext<Str>(one, None);
    var strings: seq<Str> := [[97]];
    assert strings == [] + [[97]] && strings[..1] == strings;
    NothingJoined();
    JoinNext([], [97]);
    FirstBitOnly();
  }

  lemma NothingJoined()
    ensures Joined([]) == [] && NonNulls<Str>([]) == []
  {
  }

  lemma FirstBitOnly()
    ensures TestBit([1], 0) && !TestBit([1], 1)
  {
  }

  // Which pages are read right, told from their header.

  /** The null count is a multiple of 32768, or there is nothing to get wrong: no string, or no room for a byte. */
  predicate HeaderReadable(nr: nat, nv: nat) {
    (nr - nv) % 0x8000 == 0 || nv == 0 || 4 + 2 * nv + 1 + BitmapSize(nr) > PAGE_SIZE
  }

  /** Whatever strings a page with this header holds, each of them is read right. */
  ghost predicate ReadsRight(nr: nat, nv: nat) {
    forall page, rows, j: nat :: StringPageFor(page, rows) && |rows| == nr && |NonNulls(rows)| == nv && j < nv ==>
      IsReadRight(page, rows, j)
  }

  ghost predicate IsReadRight(page: Page, rows: seq<Option<Str>>, j: nat) {
    j < |NonNulls(rows)| && 4 + 2 * j < 0x1_0000 && ReadShort(page, j) == NonNulls(rows)[j]
  }

  /** Pages with nr rows, nv of them not null, are all read right if and only if their header is readable, or there is
      no such page. */
  lemma HeaderIff(nr: nat, nv: nat)
    ensures ReadsRight(nr, nv) <==> HeaderReadable(nr, nv) || nv > nr
  {
    if HeaderReadable(nr, nv) || nv > nr {
      hide StringPageFor, NonNulls, IsReadRight;
      forall page, rows, j: nat | StringPageFor(page, rows) && |rows| == nr && |NonNulls(rows)| == nv && j < nv
        ensures IsReadRight(page, rows, j)
      {
        HeaderSuffices(page, rows, j);
      }
    } else {
      var first, second, rows, rows' := WrongPages(nr, nv);
      hide StringPageFor, NonNulls, IsReadRight;
    }
  }

  lemma HeaderSuffices(page: Page, rows: seq<Option<Str>>, j: nat)
    requires StringPageFor(page, rows) && j < |NonNulls(rows)|
    requires HeaderReadable(|rows|, |NonNulls(rows)|) || |NonNulls(rows)| > |rows|
    ensures IsReadRight(page, rows, j)
  {
    NonNullsBound(rows);
    OffsetsBound(page, rows, j);
    if (|rows| - |NonNulls(rows)|) % 0x8000 == 0 {
      ShortIsRight(page, rows, j);
    } else {
      NoBytes(page, rows, j);
    }
  }

  /** Without string bytes all strings are empty, and so is what is read, from wherever. */
  lemma NoBytes(page: Page, rows: seq<Option<Str>>, j: nat)
    requires StringPageFor(page, rows) && j < |NonNulls(rows)|
    requires 4 + 2 * |NonNulls(rows)| + 1 + BitmapSize(|rows|) > PAGE_SIZE
    ensures IsReadRight(page, rows, j)
  {
    hide StringPageFor, NonNulls, Joined, OffsetAt, ReadAt, ReadShort, BitmapSize;
    NothingOnPage(page, rows, j);
    ZeroOffsets(page, rows, j);
    ReadAtIs(page, j);
    ReadsNothing(page, j);
  }

  lemma ReadsNothing(page: Page, j: nat)
    requires 4 + 2 * j < 0x1_0000 && ReadAt(page, 4 + 2 * j) == 0 && (j > 0 ==> ReadAt(page, (4 + 2 * j) - 2) == 0)
    ensures ReadShort(page, j) == []
  {
    hide ReadAt, BaseOffset;
  }

  lemma NothingOnPage(page: Page, rows: seq<Option<Str>>, j: nat)
    requires StringPageFor(page, rows) && j < |NonNulls(rows)|
    requires 4 + 2 * |NonNulls(rows)| + 1 + BitmapSize(|rows|) > PAGE_SIZE
    ensures 4 + 2 * j < 0x1_0000 && Joined(NonNulls(rows)) == [] && NonNulls(rows)[j] == []
  {
    hide NonNulls, BitsAre, OffsetsAre, Joined, ReadU16;
    assert Joined(NonNulls(rows)) == [];
    JoinSplit(NonNulls(rows), j);
  }

  lemma ZeroOffsets(page: Page, rows: seq<Option<Str>>, j: nat)
    requires StringPageFor(page, rows) && j < |NonNulls(rows)| && Joined(NonNulls(rows)) == []
    ensures OffsetAt(page, j) == 0 && (j > 0 ==> OffsetAt(page, j - 1) == 0)
  {
    hide NonNulls, BitsAre, Joined, EndOf, OffsetAt, ReadU16;
    JoinSplit(NonNulls(rows), j);
    assert OffsetAt(page, j) == EndOf(NonNulls(rows), j);
    if j > 0 { assert OffsetAt(page, j - 1) == EndOf(NonNulls(rows), j - 1); }
  }

  /** A string of one byte, empty strings, and nulls. */
  function ByteRows(nr: nat, nv: nat, b: U8): (rows: seq<Option<Str>>)
    ensures |rows| == nr
  {
    seq(nr, i => if i >= nv then None else if i == 0 then Some([b]) else Some([]))
  }

  /** Both rows lists can be on a page being filled, with the same offsets and null bits. */
  lemma {:induction false} BytePages(nr: nat, nv: nat)
      returns (page: Page, zero: seq<U8>, one: seq<U8>, bitmap: seq<U8>)
    requires 0 < nv <= nr && 4 + 2 * nv + 1 + BitmapSize(nr) <= PAGE_SIZE
    ensures |zero| == |one| == |bitmap| == PAGE_SIZE
    ensures Holds(page, zero, bitmap, ByteRows(nr, nv, 0)) && Holds(page, one, bitmap, ByteRows(nr, nv, 1))
    ensures forall b: U8 :: b <= 1 ==> |NonNulls(ByteRows(nr, nv, b))| == nv && NonNulls(ByteRows(nr, nv, b))[0] == [b]
    ensures forall b: U8 :: b <= 1 ==> Joined(NonNulls(ByteRows(nr, nv, b))) == [b]
    decreases nr
  {
    hide NonNulls, Joined, Holds, WriteU16, SetBit, ClearBit;
    if nr == 1 {
      var zeros: seq<U8> := seq(PAGE_SIZE, i => 0);
      HoldsNothing(zeros, zeros, zeros);
      HoldsString(zeros, zeros, zeros, [], [0]);
      HoldsString(zeros, zeros, zeros, [], [1]);
      assert forall b: U8 :: ByteRows(1, 1, b) == [] + [Some([b])];
      page, bitmap := WriteU16(zeros, 4, 1), SetBit(zeros, 0);
      zero, one := zeros[..0] + [0] + zeros[1..], zeros[..0] + [1] + zeros[1..];
    } else if nv == nr {
      page, zero, one, bitmap := BytePages(nr - 1, nv - 1);
      var rows, rows' := ByteRows(nr - 1, nv - 1, 0), ByteRows(nr - 1, nv - 1, 1);
      HoldsString(page, zero, bitmap, rows, []);
      HoldsString(page, one, bitmap, rows', []);
      assert ByteRows(nr, nv, 0) == rows + [Some([])] && ByteRows(nr, nv, 1) == rows' + [Some([])];
      page, bitmap := WriteU16(page, 4 + 2 * (nv - 1), 1), SetBit(bitmap, nr - 1);
      zero, one := zero[..1] + [] + zero[1..], one[..1] + [] + one[1..];
    } else {
      page, zero, one, bitmap := BytePages(nr - 1, nv);
      var rows, rows' := ByteRows(nr - 1, nv, 0), ByteRows(nr - 1, nv, 1);
      HoldsNull(page, zero, bitmap, rows);
      HoldsNull(page, one, bitmap, rows');
      assert ByteRows(nr, nv, 0) == rows + [None] && ByteRows(nr, nv, 1) == rows' + [None];
      bitmap := ClearBit(bitmap, nr - 1);
    }
  }

  /** Two pages that differ only in the byte of their first string; the byte read in its place is the same on both,
      so on one of them it is wrong. */
  lemma WrongPages(nr: nat, nv: nat)
      returns (first: Page, second: Page, rows: seq<Option<Str>>, rows': seq<Option<Str>>)
    requires 0 < nv <= nr && 4 + 2 * nv + 1 + BitmapSize(nr) <= PAGE_SIZE && (nr - nv) % 0x8000 != 0
    ensures StringPageFor(first, rows) && |rows| == nr && |NonNulls(rows)| == nv
    ensures StringPageFor(second, rows') && |rows'| == nr && |NonNulls(rows')| == nv
    ensures !IsReadRight(first, rows, 0) || !IsReadRight(second, rows', 0)
  {
    hide NonNulls, Joined, Holds, StringPageFor, Sealed, ReadU16, Slice;
    var page, zero, one, bitmap := BytePages(nr, nv);
    rows, rows' := ByteRows(nr, nv, 0), ByteRows(nr, nv, 1);
    SealedDecodes(page, zero, bitmap, rows);
    SealedDecodes(page, one, bitmap, rows');
    first, second := Sealed(page, zero, 1, bitmap, nr, nv), Sealed(page, one, 1, bitmap, nr, nv);
    SealedSame(page, zero, one, bitmap, nr, nv);
    ReadsOneByte(first, rows);
    ReadsOneByte(second, rows');
    WrapsTogether(nr, nv, 0);
    SameByteRead(first, second, BaseOffset(first), 4 + 2 * nv);
  }

  lemma SealedSame(page: Page, zero: seq<U8>, one: seq<U8>, bitmap: seq<U8>, nr: U16, nv: U16)
    requires 0 < |zero| == |one| && |bitmap| == PAGE_SIZE && 4 + 2 * nv + 1 + BitmapSize(nr) <= PAGE_SIZE
    ensures var first, second := Sealed(page, zero, 1, bitmap, nr, nv), Sealed(page, one, 1, bitmap, nr, nv);
      && ReadU16(first, 0) == ReadU16(second, 0) == nr && ReadU16(first, 2) == ReadU16(second, 2) == nv
      && forall k :: 0 <= k < PAGE_SIZE && k != 4 + 2 * nv ==> first[k] == second[k]
  {
    SealedParts(page, zero, 1, bitmap, nr, nv);
    SealedParts(page, one, 1, bitmap, nr, nv);
    hide WriteU16, ReadU16;
  }

  /** Of a first string of one byte, the byte at the base is read, if that lies on the page. */
  lemma ReadsOneByte(page: Page, rows: seq<Option<Str>>)
    requires StringPageFor(page, rows) && NonNulls(rows) != [] && |NonNulls(rows)[0]| == 1
    ensures ReadShort(page, 0) == Slice(page, BaseOffset(page), (1 + BaseOffset(page)) % 0x1_0000)
  {
    FirstOffset(page, rows);
    ReadAtIs(page, 0);
    hide StringPageFor, NonNulls, OffsetAt, ReadAt, BaseOffset, Slice;
  }

  lemma SameByteRead(first: Page, second: Page, base: U16, k: nat)
    requires base != k && forall i :: 0 <= i < PAGE_SIZE && i != k ==> first[i] == second[i]
    ensures Slice(first, base, (1 + base) % 0x1_0000) == Slice(second, base, (1 + base) % 0x1_0000)
  {
  }

  lemma FirstOffset(page: Page, rows: seq<Option<Str>>)
    requires StringPageFor(page, rows) && NonNulls(rows) != []
    ensures OffsetAt(page, 0) == |NonNulls(rows)[0]|
  {
    hide NonNulls, BitsAre, Joined, EndOf, OffsetAt, ReadU16;
    JoinSplit(NonNulls(rows), 0);
    assert OffsetAt(page, 0) == EndOf(NonNulls(rows), 0);
  }

  // Long strings.

  /** A page after p that does not continue the string which starts on p. */
  ghost predicate Followed(pages: seq<Page>, p: nat) {
    exists q :: p < q < |pages| && !IsNext(pages[q])
  }

  /** What of the string of page p lies on pages q and after. */
  ghost function Tail(pages: seq<Page>, q: nat): Str {
    if q < |pages| && IsNext(pages[q]) then LongAt(pages, q) else []
  }

  /** Page numbers are 16 bits wide, so behind page 65535 comes page 0.  None stands for a read past the column's
      last page, which happens exactly when the string is the last thing in the column. */
  method ReadLongString(pages: seq<Page>, p: U16) returns (r: Option<Str>)
    requires p < |pages| <= 0x1_0000 && StringColumnOk(pages)
    ensures r.Some? <==> Followed(pages, p) || |pages| == 0x1_0000
    ensures r.Some? ==> r.value == LongAt(pages, p)
  {
    hide LongChars, StringColumnOk, IsNext, LongAt, Tail;
    FirstIsNotNext(pages);
    var str, pageId: U16 := LongChars(pages[p]), (p + 1) % 0x1_0000;
    ghost var next := p + 1;
    LongAtTail(pages, p);
    if pageId >= |pages| {
      assert next >= |pages|;
      return None;
    }
    while IsNext(pages[pageId])
      invariant p < next <= |pages| && pageId == next % 0x1_0000 && pageId < |pages|
      invariant (forall q :: p < q < next ==> IsNext(pages[q])) && str + Tail(pages, next) == LongAt(pages, p)
      decreases |pages| - next
    {
      assert next < |pages|;
      TailNext(pages, next, str);
      str := str + LongChars(pages[pageId]);
      next := next + 1;
      pageId := (pageId + 1) % 0x1_0000;
      if pageId >= |pages| {
        return None;
      }
    }
    TailEnds(pages, next);
    assert str + [] == str;
    return Some(str);
  }

  /** A column that holds one string of 8186 bytes: the codec writes it on one page and decodes it, but the read
      leaves the column. */
  lemma LastLongUnread(value: Str) returns (pages: seq<Page>)
    requires |value| == LONG_LIMIT + 1
    ensures StringColumnOk(pages) && DecodeStringPages(pages) == Some([Some(value)]) && |pages| == 1
    ensures !Followed(pages, 0) && !ColumnReadable(pages)
  {
    hide LongPage, StringColumnOk, DecodeStringPages;
    var zeros: seq<U8> := seq(PAGE_SIZE, i => 0);
    pages := [LongPage(zeros, LONG_FIRST, value)];
    EmptyColumn();
    assert value[0..|value|] == value && value[..|value|] == value;
    DecodesLong([], [], value, 0, |value|, zeros);
    assert [] + pages == pages && [] + [Some(value)] == [Some(value)];
    LongPageDecodes(zeros, LONG_FIRST, value);
  }

  lemma EmptyColumn()
    ensures Decodes([], [])
  {
  }

  lemma FirstIsNotNext(pages: seq<Page>)
    requires pages != [] && StringColumnOk(pages)
    ensures !IsNext(pages[0])
  {
    assert StringPageOk(pages, 0);
  }

  lemma LongAtTail(pages: seq<Page>, p: nat)
    requires p < |pages|
    ensures LongAt(pages, p) == LongChars(pages[p]) + Tail(pages, p + 1)
  {
  }

  lemma TailNext(pages: seq<Page>, q: nat, str: Str)
    requires q < |pages| && IsNext(pages[q])
    ensures str + Tail(pages, q) == (str + LongChars(pages[q])) + Tail(pages, q + 1)
  {
    LongAtTail(pages, q);
    hide LongChars, LongAt;
  }

  lemma TailEnds(pages: seq<Page>, q: nat)
    requires q < |pages| ==> !IsNext(pages[q])
    ensures Tail(pages, q) == []
  {
  }

  predicate PageReadable(page: Page) {
    HeaderReadable(ReadU16(page, 0), ReadU16(page, 2))
  }

  /** The condition under which a column's strings are read back right: no page is misjudged by its null count, and
      no long string ends the column. */
  predicate ColumnReadable(pages: seq<Page>) {
    && (forall p :: 0 <= p < |pages| && !IsFirst(pages[p]) && !IsNext(pages[p]) ==> PageReadable(pages[p]))
    && (pages != [] && |pages| < 0x1_0000 ==> !IsFirst(pages[|pages| - 1]) && !IsNext(pages[|pages| - 1]))
  }

  /** The string of a reference that is not null. */
  method ReadString(pages: seq<Page>, v: Value) returns (s: Str)
    requires |pages| <= 0x1_0000 && StringColumnOk(pages) && ColumnReadable(pages)
    requires v.PageId() < |pages| && 4 <= v.Offset() < 0xFFFF
    requires Refers(v.TableId(), v.ColId(), pages, v, Resolve(pages, v))
    ensures Some(s) == Resolve(pages, v)
  {
    RefersTo(pages, v);
    hide StringAt, LongAt, Slice, ShortStart, ShortEnd, StringPageFor, PageReadable, StringColumnOk, Value.PageId,
      Value.Offset, Refers, Resolve, ReadU16, DecodeStrings, NonNulls;
    var p, offset := v.PageId(), v.Offset();
    var page := pages[p];
    if ReadU16(page, 0) == LONG_FIRST {
      LastIsRegular(pages, p);
      var r := ReadLongString(pages, p);
      s := r.value;
    } else {
      s := ReadShortString(pages, p, offset);
    }
  }

  method ReadShortString(pages: seq<Page>, p: nat, offset: U16) returns (s: Str)
    requires p < |pages| && StringColumnOk(pages) && !IsFirst(pages[p]) && !IsNext(pages[p]) && PageReadable(pages[p])
    requires offset >= 4 && offset % 2 == 0 && (offset - 4) / 2 < ReadU16(pages[p], 2)
    ensures s == StringAt(pages[p], (offset - 4) / 2)
  {
    hide StringAt, Slice, ShortStart, ShortEnd, StringPageFor, PageReadable, StringColumnOk, ReadU16, DecodeStrings,
      NonNulls;
    RegularPage(pages, p);
    var page, j := pages[p], (offset - 4) / 2;
    var rows := DecodeStrings(page, ReadU16(page, 0));
    HeaderOf(page, rows);
    HeaderSuffices(page, rows, j);
    StringAtIs(page, rows, j);
    assert offset == 4 + 2 * j;
    s := Slice(page, ShortStart(page, offset), ShortEnd(page, offset));
  }

  lemma HeaderOf(page: Page, rows: seq<Option<Str>>)
    requires StringPageFor(page, rows) && PageReadable(page)
    ensures HeaderReadable(|rows|, |NonNulls(rows)|)
  {
    hide HeaderReadable, BitsAre, OffsetsAre;
  }

  lemma LastIsRegular(pages: seq<Page>, p: nat)
    requires ColumnReadable(pages) && p < |pages| && IsFirst(pages[p])
    ensures Followed(pages, p) || |pages| >= 0x1_0000
  {
    if |pages| < 0x1_0000 { assert !IsNext(pages[|pages| - 1]) && !IsFirst(pages[|pages| - 1]); }
  }

  lemma RefersTo(pages: seq<Page>, v: Value)
    requires v.PageId() < |pages| && 4 <= v.Offset() < 0xFFFF
    requires Refers(v.TableId(), v.ColId(), pages, v, Resolve(pages, v))
    ensures var page := pages[v.PageId()];
      && !IsNext(page)
      && (IsFirst(page) ==> Resolve(pages, v) == Some(LongAt(pages, v.PageId())))
      && (IsFirst(page) || (v.Offset() % 2 == 0 && (v.Offset() - 4) / 2 < ReadU16(page, 2)))
      && (IsFirst(page) || Resolve(pages, v) == Some(StringAt(page, (v.Offset() - 4) / 2)))
  {
    hide LongAt, StringAt, ReadU16, Value.PageId, Value.Offset;
  }

  lemma RegularPage(pages: seq<Page>, p: nat)
    requires p < |pages| && StringColumnOk(pages) && !IsNext(pages[p]) && !IsFirst(pages[p])
    ensures StringPageFor(pages[p], DecodeStrings(pages[p], ReadU16(pages[p], 0)))
    ensures ReadU16(pages[p], 2) == |NonNulls(DecodeStrings(pages[p], ReadU16(pages[p], 0)))|
  {
    assert StringPageOk(pages, p);
  }
}

/** ColumnInserter<std::string>: offsets grow from the front of a page, string bytes wait in a side buffer, and the
    null bitmap sits at the back; strings that fit no page get a chain of pages of their own. */
module StringCodec {
  import opened Bits
  import opened Bitmaps
  import opened Options
  import opened Pages
  import opened StringPages

  const LONG_LIMIT: nat := 8185                 // PAGE_SIZE - 7
  const LONG_CHUNK: nat := 8188                 // PAGE_SIZE - 4

  /** The rows of the page being filled: offsets in page, string bytes in data, null bits in bitmap. */
  ghost predicate Holds(page: seq<U8>, data: seq<U8>, bitmap: seq<U8>, rows: seq<Option<Str>>) {
    && |page| == |data| == |bitmap| == PAGE_SIZE
    && 4 + 2 * |NonNulls(rows)| + |Joined(NonNulls(rows))| + BitmapSize(|rows|) <= PAGE_SIZE
    && data[..|Joined(NonNulls(rows))|] == Joined(NonNulls(rows))
    && BitsAre(bitmap, rows)
    && OffsetsAre(page, NonNulls(rows))
  }

  lemma HoldsNothing(page: seq<U8>, data: seq<U8>, bitmap: seq<U8>)
    requires |page| == |data| == |bitmap| == PAGE_SIZE
    ensures Holds(page, data, bitmap, []) && NonNulls<Str>([]) == [] && Joined([]) == []
  {
  }

  lemma HoldsBound(page: seq<U8>, data: seq<U8>, bitmap: seq<U8>, rows: seq<Option<Str>>)
    requires Holds(page, data, bitmap, rows)
    ensures 4 + 2 * |NonNulls(rows)| + |Joined(NonNulls(rows))| + BitmapSize(|rows|) <= PAGE_SIZE
    ensures NonNulls<Str>([]) == [] && Joined([]) == []
  {
  }

  /** Appending a string: its bytes go behind the others, its end offset behind the other offsets. */
  lemma HoldsString(page: seq<U8>, data: seq<U8>, bitmap: seq<U8>, rows: seq<Option<Str>>, v: Str)
    requires Holds(page, data, bitmap, rows)
    requires 4 + 2 * |NonNulls(rows)| + 2 + |Joined(NonNulls(rows))| + |v| + |rows| / 8 + 1 <= PAGE_SIZE
    ensures |rows| / 8 < PAGE_SIZE
    ensures NonNulls(rows + [Some(v)]) == NonNulls(rows) + [v]
    ensures Joined(NonNulls(rows) + [v]) == Joined(NonNulls(rows)) + v
    ensures var n, size := |NonNulls(rows)|, |Joined(NonNulls(rows))|;
      Holds(WriteU16(page, 4 + 2 * n, size + |v|), data[..size] + v
        + data[size + |v|..], SetBit(bitmap, |rows|), rows + [Some(v)])
  {
    hide NonNulls, BitsAre, OffsetsAre, WriteU16, SetBit, Joined;
    NonNullsNext(rows, Some(v));
    JoinNext(NonNulls(rows), v);
    OffsetsNext(page, NonNulls(rows), v);
    BitsNext(bitmap, rows, Some(v));
  }

  lemma OffsetsNext(page: Page, strings: seq<Str>, v: Str)
    requires OffsetsAre(page, strings) && 4 + 2 * |strings| + 2 <= PAGE_SIZE && |Joined(strings)| + |v| < 0x1_0000
    ensures OffsetsAre(WriteU16(page, 4 + 2 * |strings|, |Joined(strings)| + |v|), strings + [v])
  {
    hide Joined;
    var n, end := |strings|, |Joined(strings)| + |v|;
    var page' := WriteU16(page, 4 + 2 * n, end);
    U16RoundTrip(page, 4 + 2 * n, end);
    JoinNext(strings, v);
    forall j | 0 <= j < n + 1 ensures OffsetAt(page', j) == EndOf(strings + [v], j) {
      if j < n {
        assert (strings + [v])[..j + 1] == strings[..j + 1];
        assert OffsetAt(page, j) == EndOf(strings, j);
        OffsetFrame(page, 4 + 2 * n, end, j);
      } else {
        assert (strings + [v])[..j + 1] == strings + [v];
      }
    }
  }

  lemma OffsetFrame(page: Page, o: nat, v: U16, j: nat)
    requires o + 2 <= PAGE_SIZE && 4 + 2 * j + 2 <= o
    ensures OffsetAt(WriteU16(page, o, v), j) == OffsetAt(page, j)
  {
  }

  lemma HoldsNull(page: seq<U8>, data: seq<U8>, bitmap: seq<U8>, rows: seq<Option<Str>>)
    requires Holds(page, data, bitmap, rows)
    requires 4 + 2 * |NonNulls(rows)| + |Joined(NonNulls(rows))| + |rows| / 8 + 1 <= PAGE_SIZE
    ensures |rows| / 8 < PAGE_SIZE && NonNulls(rows + [None]) == NonNulls(rows)
    ensures Holds(page, data, ClearBit(bitmap, |rows|), rows + [None])
  {
    hide NonNulls, BitsAre, OffsetsAre, ClearBit, Joined;
    NonNullsNext(rows, None);
    assert NonNulls(rows) + [] == NonNulls(rows);
    BitsNext(bitmap, rows, None);
  }

  /** Header, string bytes and bitmap are written around the offsets. */
  function Sealed(page: Page, data: seq<U8>, size: nat, bitmap: seq<U8>, rows: U16, strings: U16): Page
    requires size <= |data| && |bitmap| == PAGE_SIZE && 4 + 2 * strings + size + BitmapSize(rows) <= PAGE_SIZE
  {
    var headed := WriteU16(WriteU16(page, 0, rows), 2, strings);
    var filled := headed[..4 + 2 * strings] + data[..size] + headed[4 + 2 * strings + size..];
    filled[..PAGE_SIZE - BitmapSize(rows)] + bitmap[..BitmapSize(rows)]
  }

  lemma SealedParts(page: Page, data: seq<U8>, size: nat, bitmap: seq<U8>, rows: U16, strings: U16)
    requires size <= |data| && |bitmap| == PAGE_SIZE && 4 + 2 * strings + size + BitmapSize(rows) <= PAGE_SIZE
    ensures var s := Sealed(page, data, size, bitmap, rows, strings);
      && ReadU16(s, 0) == rows && ReadU16(s, 2) == strings
      && PageBitmap(s, rows) == bitmap[..BitmapSize(rows)]
      && s[4 + 2 * strings..4 + 2 * strings + size] == data[..size]
      && forall k :: 4 <= k < 4 + 2 * strings ==> s[k] == page[k]
  {
    HeaderParts(page, rows, strings);
    hide WriteU16;
    var headed := WriteU16(WriteU16(page, 0, rows), 2, strings);
    var a := 4 + 2 * strings;
    FilledParts(headed, data[..size], a, bitmap[..BitmapSize(rows)]);
  }

  lemma HeaderParts(page: Page, rows: U16, strings: U16)
    ensures var headed := WriteU16(WriteU16(page, 0, rows), 2, strings);
      ReadU16(headed, 0) == rows && ReadU16(headed, 2) == strings && forall k :: 4 <= k < PAGE_SIZE ==>
        headed[k] == page[k]
  {
    U16RoundTrip(page, 0, rows);
    U16RoundTrip(WriteU16(page, 0, rows), 2, strings);
  }

  /** String bytes in the middle of a page and a bitmap at its end. */
  lemma FilledParts(headed: Page, chars: Str, a: nat, tail: seq<U8>)
    requires 4 <= a && a + |chars| + |tail| <= PAGE_SIZE
    ensures var s := (headed[..a] + chars + headed[a + |chars|..])[..PAGE_SIZE - |tail|] + tail;
      && |s| == PAGE_SIZE && s[a..a + |chars|] == chars && s[PAGE_SIZE - |tail|..] == tail
      && (forall k :: 0 <= k < a ==> s[k] == headed[k]) && ReadU16(s, 0) == ReadU16(headed, 0)
        && ReadU16(s, 2) == ReadU16(headed, 2)
  {
    var filled := headed[..a] + chars + headed[a + |chars|..];
    assert filled[a..a + |chars|] == chars;
    var s := filled[..PAGE_SIZE - |tail|] + tail;
    assert s[a..a + |chars|] == filled[a..a + |chars|];
  }

  lemma SealedDecodes(page: Page, data: seq<U8>, bitmap: seq<U8>, rows: seq<Option<Str>>)
    requires Holds(page, data, bitmap, rows)
    ensures |rows| < LONG_NEXT && |NonNulls(rows)| < 0x1_0000
    ensures StringPageFor(Sealed(page, data, |Joined(NonNulls(rows))|, bitmap, |rows|, |NonNulls(rows)|), rows)
  {
    hide NonNulls, Joined, OffsetsAre, BitsAre, Sealed, ReadU16;
    var n, size := |NonNulls(rows)|, |Joined(NonNulls(rows))|;
    SealedParts(page, data, size, bitmap, |rows|, n);
    BitsKept(bitmap, bitmap[..BitmapSize(|rows|)], rows);
    var s := Sealed(page, data, size, bitmap, |rows|, n);
    StringPageIs(page, s, Joined(NonNulls(rows)), n, bitmap[..BitmapSize(|rows|)], rows);
  }

  /** A page of a long string. */
  function LongPage(page: Page, kind: U16, chars: Str): Page
    requires |chars| <= LONG_CHUNK
  {
    var headed := WriteU16(WriteU16(page, 0, kind), 2, |chars|);
    headed[..4] + chars + headed[4 + |chars|..]
  }

  lemma LongPageDecodes(page: Page, kind: U16, chars: Str)
    requires |chars| <= LONG_CHUNK
    ensures ReadU16(LongPage(page, kind, chars), 0) == kind && LongChars(LongPage(page, kind, chars)) == chars
  {
    U16RoundTrip(page, 0, kind);
    U16RoundTrip(WriteU16(page, 0, kind), 2, |chars|);
    var p := LongPage(page, kind, chars);
    assert ReadU16(p, 2) == |chars| && p[4..4 + |chars|] == chars;
  }

  /** The pages are well-formed and decode to these rows. */
  ghost predicate Decodes(pages: seq<Page>, rows: seq<Option<Str>>) {
    StringColumnOk(pages) && DecodeStringPages(pages) == Some(rows)
  }

  /** A column may go on with a page that starts something, or continue a long string. */
  lemma ColumnNext(pages: seq<Page>, page: Page)
    requires StringColumnOk(pages)
    requires !IsNext(page) || (pages != [] && (IsFirst(pages[|pages| - 1]) || IsNext(pages[|pages| - 1])))
    requires !IsNext(page) && !IsFirst(page) ==> StringPageFor(page, DecodeStrings(page, ReadU16(page, 0)))
    ensures StringColumnOk(pages + [page])
  {
    hide StringPageFor, DecodeStrings;
    forall p | 0 <= p <= |pages| ensures StringPageOk(pages + [page], p) {
      if p < |pages| { assert StringPageOk(pages, p); }
    }
  }

  lemma DecodesRegular(pages: seq<Page>, before: seq<Option<Str>>, page: Page, rows: seq<Option<Str>>)
    requires Decodes(pages, before) && StringPageFor(page, rows)
    ensures Decodes(pages + [page], before + rows)
  {
    StringPageDecodes(page, rows);
    DecodeStringPagesNext(pages, page);
    ColumnNext(pages, page);
  }

  /** Adding the next piece of a long string. */
  lemma DecodesLong(pages: seq<Page>, before: seq<Option<Str>>, value: Str, offset: nat, next: nat, page: Page)
    requires offset < next <= |value| && next - offset <= LONG_CHUNK
    requires Decodes(pages, if offset == 0 then before else before + [Some(value[..offset])])
    requires offset > 0 ==> pages != [] && (IsFirst(pages[|pages| - 1]) || IsNext(pages[|pages| - 1]))
    ensures var p := LongPage(page, if offset == 0 then LONG_FIRST else LONG_NEXT, value[offset..next]);
            Decodes(pages + [p], before + [Some(value[..next])]) && (IsFirst(p) || IsNext(p))
  {
    var kind := if offset == 0 then LONG_FIRST else LONG_NEXT;
    var p := LongPage(page, kind, value[offset..next]);
    LongPageDecodes(page, kind, value[offset..next]);
    hide LongPage, LongChars, DecodeStrings, ReadU16, StringColumnOk;
    DecodeStringPagesNext(pages, p);
    LongRows(before, value, offset, next, p);
    ColumnNext(pages, p);
  }

  /** What the next piece makes of the rows before it. */
  lemma LongRows(before: seq<Option<Str>>, value: Str, offset: nat, next: nat, p: Page)
    requires offset < next <= |value| && LongChars(p) == value[offset..next]
    requires ReadU16(p, 0) == if offset == 0 then LONG_FIRST else LONG_NEXT
    ensures DecodeOnePage(if offset == 0 then before else before + [Some(value[..offset])], p)
      == Some(before + [Some(value[..next])])
  {
    hide LongChars, DecodeStrings, ReadU16;
    assert value[..offset] + value[offset..next] == value[..next];
    if offset > 0 {
      var rows := before + [Some(value[..offset])];
      assert rows[..|rows| - 1] == before;
    }
  }

  ghost predicate PageAdded(pages: seq<Page>, pages': seq<Page>) {
    |pages'| == |pages| + 1 && pages'[..|pages|] == pages
  }

  /** The pages of the first n characters of a long string; all but the last are full. */
  ghost predicate LongPieces(pieces: seq<Page>, value: Str, n: nat) {
    n <= |value| && |pieces| == (n + LONG_CHUNK - 1) / LONG_CHUNK
      && forall j :: 0 <= j < |pieces| ==> PieceIs(pieces[j], value, n, j)
  }

  ghost predicate PieceIs(piece: Page, value: Str, n: nat, j: nat)
    requires n <= |value|
  {
    var a, b := j * LONG_CHUNK, if (j + 1) * LONG_CHUNK < n then (j + 1) * LONG_CHUNK else n;
    && ReadU16(piece, 0) == (if j == 0 then LONG_FIRST else LONG_NEXT)
    && a <= b && LongChars(piece) == value[a..b]
  }

  lemma NoPieces(value: Str)
    ensures LongPieces([], value, 0)
  {
  }

  lemma NextPiece(pieces: seq<Page>, page: Page, value: Str, offset: nat, next: nat)
    requires LongPieces(pieces, value, offset) && offset < |value|
    requires next == if |value| - offset < LONG_CHUNK then |value| else offset + LONG_CHUNK
    requires offset % LONG_CHUNK == 0
    ensures LongPieces(pieces + [LongPage(page, if offset == 0 then LONG_FIRST else LONG_NEXT, value[offset..next])],
                       value, next)
  {
    var kind := if offset == 0 then LONG_FIRST else LONG_NEXT;
    hide LongPage, LongChars, ReadU16, PieceIs;
    LongPageDecodes(page, kind, value[offset..next]);
    var last := LongPage(page, kind, value[offset..next]);
    forall j | 0 <= j < |pieces| ensures PieceIs(pieces[j], value, next, j) {
      assert PieceIs(pieces[j], value, offset, j);
      PieceStays(pieces[j], value, offset, next, j);
    }
    LastPiece(last, value, offset, next, |pieces|);
  }

  lemma PieceStays(piece: Page, value: Str, n: nat, next: nat, j: nat)
    requires n <= next <= |value| && (j + 1) * LONG_CHUNK <= n && PieceIs(piece, value, n, j)
    ensures PieceIs(piece, value, next, j)
  {
    hide LongChars, ReadU16;
  }

  lemma LastPiece(piece: Page, value: Str, n: nat, next: nat, j: nat)
    requires n < next <= |value| && n == j * LONG_CHUNK && next <= n + LONG_CHUNK
    requires ReadU16(piece, 0) == (if j == 0 then LONG_FIRST else LONG_NEXT) && LongChars(piece) == value[n..next]
    ensures PieceIs(piece, value, next, j)
  {
    hide LongChars, ReadU16;
  }

  /** One insertion.  A string longer than a page can hold goes on pages of its own, behind the page being filled if
      that has rows.  Any other row is appended to the page being filled, after saving that page first exactly when
      the row's characters, its end offset and its null bit would not have fitted. */
  ghost predicate StringGrown(pages: seq<Page>, rows: seq<Option<Str>>, pages': seq<Page>, rows': seq<Option<Str>>,
                              row: Option<Str>)
  {
    var size := if row.Some? then 2 + |row.value| else 0;
    if row.Some? && |row.value| > LONG_LIMIT then
      var n := |pages| + if rows == [] then 0 else 1;
      && rows' == [] && |pages'| >= n && pages'[..|pages|] == pages
      && (rows != [] ==> StringPageFor(pages'[|pages|], rows))
      && LongPieces(pages'[n..], row.value, |row.value|)
    else if 4 + 2 * |NonNulls(rows)| + |Joined(NonNulls(rows))| + size + BitmapSize(|rows| + 1) > PAGE_SIZE then
      PageAdded(pages, pages') && StringPageFor(pages'[|pages|], rows) && rows' == [row]
    else pages' == pages && rows' == rows + [row]
  }

  class StringInserter {
    var pages: seq<Page>                        // the pages saved so far
    var page: array<U8>                         // the page being filled
    var numRows: nat
    var dataSize: nat
    var offsetEnd: nat
    const data: array<U8>
    const bitmap: array<U8>
    ghost var saved: seq<Option<Str>>           // the rows on the saved pages
    ghost var rows: seq<Option<Str>>            // the rows of the page being filled

    ghost predicate Valid()
      reads this, page, data, bitmap
    {
      && page != bitmap && page != data && data != bitmap
      && page.Length == data.Length == bitmap.Length == PAGE_SIZE
      && numRows == |rows| && offsetEnd == 4 + 2 * |NonNulls(rows)| && dataSize == |Joined(NonNulls(rows))|
      && Holds(page[..], data[..], bitmap[..], rows)
      && Decodes(pages, saved)
    }

    /** Every row inserted so far. */
    ghost function Contents(): seq<Option<Str>>
      reads this
    {
      saved + rows
    }

    constructor ()
      ensures Valid() && fresh(page) && fresh(data) && fresh(bitmap) && pages == [] && rows == [] && Contents() == []
    {
      pages, saved, rows := [], [], [];
      page := new U8[PAGE_SIZE];
      data := new U8[PAGE_SIZE](i => 0);
      bitmap := new U8[PAGE_SIZE](i => 0);
      numRows, dataSize, offsetEnd := 0, 0, 4;
    }

    method SavePage()
      requires Valid()
      modifies this, page
      ensures Valid() && fresh(page) && rows == [] && Contents() == old(Contents()) && saved == old(saved + rows)
      ensures PageAdded(old(pages), pages) && StringPageFor(pages[|old(pages)|], old(rows))
    {
      hide Holds, Decodes, NonNulls, Joined, Sealed, StringPageFor;
      HoldsBound(page[..], data[..], bitmap[..], rows);
      SealedDecodes(page[..], data[..], bitmap[..], rows);
      DecodesRegular(pages, saved, Sealed(page[..], data[..], dataSize, bitmap[..], numRows, (offsetEnd - 4) / 2),
        rows);
      Seal(page, data[..dataSize], data[..], bitmap[..], numRows, (offsetEnd - 4) / 2);
      pages := pages + [page[..]];
      saved := saved + rows;
      page := new U8[PAGE_SIZE];
      HoldsNothing(page[..], data[..], bitmap[..]);
      numRows, dataSize, offsetEnd, rows := 0, 0, 4, [];
    }

    /** Strings too long for a page go on pages of their own. */
    method SaveLongString(value: Str)
      requires Valid() && rows == [] && value != []
      modifies this, page
      ensures Valid() && fresh(page) && rows == [] && saved == old(saved) + [Some(value)]
      ensures |pages| >= |old(pages)| && pages[..|old(pages)|] == old(pages)
      ensures LongPieces(pages[|old(pages)|..], value, |value|)
    {
      hide Holds, Decodes, NonNulls, Joined, LongPage, LongPieces, ReadU16;
      NoPieces(value);
      ghost var before := saved;
      ghost var pieces: seq<Page> := [];
      var offset, firstPage := 0, true;
      while offset < |value|
        invariant offset <= |value| && (offset < |value| ==> offset % LONG_CHUNK == 0)
        invariant firstPage == (offset == 0) && (page == old(page) || fresh(page))
        invariant rows == [] && Valid() && (offset > 0 ==> fresh(page))
        invariant offset > 0 ==> pages != [] && (IsFirst(pages[|pages| - 1]) || IsNext(pages[|pages| - 1]))
        invariant saved == if offset == 0 then before else before + [Some(value[..offset])]
        invariant pages == old(pages) + pieces && LongPieces(pieces, value, offset)
      {
        var kind := if firstPage then LONG_FIRST else LONG_NEXT;
        firstPage := false;
        var len := if |value| - offset < LONG_CHUNK then |value| - offset else LONG_CHUNK;
        DecodesLong(pages, before, value, offset, offset + len, page[..]);
        NextPiece(pieces, page[..], value, offset, offset + len);
        pieces := pieces + [LongPage(page[..], kind, value[offset..offset + len])];
        SavePiece(kind, value[offset..offset + len], before + [Some(value[..offset + len])]);
        offset := offset + len;
      }
      assert value[..|value|] == value && pages[|old(pages)|..] == pieces;
    }

    /** One page of a long string; the rows decoded so far are now these. */
    method SavePiece(kind: U16, chars: Str, ghost decoded: seq<Option<Str>>)
      requires Valid() && rows == [] && |chars| <= LONG_CHUNK
      requires Decodes(pages + [LongPage(page[..], kind, chars)], decoded)
      modifies this, page
      ensures Valid() && fresh(page) && rows == [] && saved == decoded
      ensures pages == old(pages) + [old(LongPage(page[..], kind, chars))]
    {
      hide Holds, Decodes, NonNulls, Joined, LongPage;
      SealLong(page, kind, chars);
      pages, saved := pages + [page[..]], decoded;
      page := new U8[PAGE_SIZE];
      HoldsNothing(page[..], data[..], bitmap[..]);
    }

    method Insert(value: Str)
      requires Valid()
      modifies this, page, data, bitmap
      ensures Valid() && (page == old(page) || fresh(page))
      ensures Contents() == old(Contents()) + [Some(value)]
      ensures StringGrown(old(pages), old(rows), pages, rows, Some(value))
    {
      hide Holds, Decodes, NonNulls, Joined, WriteU16, SetBit, StringPageFor, LongPieces;
      HoldsBound(page[..], data[..], bitmap[..], rows);
      if |value| > LONG_LIMIT {
        if numRows > 0 {
          SavePage();
        }
        SaveLongString(value);
      } else {
        if offsetEnd + 2 + dataSize + |value| + numRows / 8 + 1 > PAGE_SIZE {
          SavePage();
        }
        InsertShort(value);
      }
    }

    method InsertShort(value: Str)
      requires Valid() && offsetEnd + 2 + dataSize + |value| + numRows / 8 + 1 <= PAGE_SIZE
      modifies this, page, data, bitmap
      ensures Valid() && page == old(page) && saved == old(saved) && rows == old(rows) + [Some(value)]
      ensures pages == old(pages)
    {
      hide Holds, Decodes, NonNulls, Joined, WriteU16, SetBit;
      HoldsString(page[..], data[..], bitmap[..], rows, value);
      StoreBytes(data, dataSize, value);
      dataSize := dataSize + |value|;
      StoreU16(page, offsetEnd, dataSize);
      offsetEnd := offsetEnd + 2;
      SetBitmap(bitmap, numRows);
      numRows := numRows + 1;
      rows := rows + [Some(value)];
    }

    method InsertNull()
      requires Valid()
      modifies this, page, bitmap
      ensures Valid() && (page == old(page) || fresh(page))
      ensures Contents() == old(Contents()) + [None]
      ensures StringGrown(old(pages), old(rows), pages, rows, None)
    {
      hide Holds, Decodes, NonNulls, Joined, ClearBit, StringPageFor, LongPieces;
      HoldsBound(page[..], data[..], bitmap[..], rows);
      if offsetEnd + dataSize + numRows / 8 + 1 > PAGE_SIZE {
        SavePage();
      }
      HoldsNull(page[..], data[..], bitmap[..], rows);
      UnsetBitmap(bitmap, numRows);
      numRows := numRows + 1;
      rows := rows + [None];
    }

    method Finalize()
      requires Valid()
      modifies this, page
      ensures Valid() && (page == old(page) || fresh(page))
      ensures rows == [] && StringColumnOk(pages) && DecodeStringPages(pages) == Some(Contents())
      ensures Contents() == old(Contents())
      ensures if old(rows) == [] then pages == old(pages) else
        PageAdded(old(pages), pages) && StringPageFor(pages[|old(pages)|], old(rows))
    {
      hide StringColumnOk, StringPageFor;
      if numRows != 0 {
        SavePage();
      }
      assert saved + [] == saved;
    }
  }

  method Seal(page: array<U8>, used: seq<U8>, ghost data: seq<U8>, bitmap: seq<U8>, rows: U16, strings: U16)
    requires page.Length == PAGE_SIZE && |bitmap| == PAGE_SIZE && |used| <= |data| && used == data[..|used|]
    requires 4 + 2 * strings + |used| + BitmapSize(rows) <= PAGE_SIZE
    modifies page
    ensures page[..] == Sealed(old(page[..]), data, |used|, bitmap, rows, strings)
  {
    hide WriteU16;
    StoreU16(page, 0, rows);
    StoreU16(page, 2, strings);
    StoreBytes(page, 4 + 2 * strings, used);
    var bitmapSize := (rows + 7) / 8;
    StoreBytes(page, PAGE_SIZE - bitmapSize, bitmap[..bitmapSize]);
  }

  method SealLong(page: array<U8>, kind: U16, chars: Str)
    requires page.Length == PAGE_SIZE && |chars| <= LONG_CHUNK
    modifies page
    ensures page[..] == LongPage(old(page[..]), kind, chars)
  {
    hide WriteU16;
    StoreU16(page, 0, kind);
    StoreU16(page, 2, |chars|);
    StoreBytes(page, 4, chars);
  }

  // Decoding a column of pages, as from_columnar does; None stands for an exception.

  ghost predicate Refused(decoded: Option<seq<Option<Str>>>, numRows: nat) {
    decoded == None || Overflows(decoded.value, numRows)
  }

  /** Once the decoder has refused, no further page makes it accept. */
  lemma {:induction false} RefusedMore(a: seq<Page>, b: seq<Page>, numRows: nat)
    requires Refused(DecodeStringPages(a), numRows)
    ensures Refused(DecodeStringPages(a + b), numRows)
    decreases |b|
  {
    if b == [] {
      assert a + b == a;
    } else {
      DecodeStringPagesNext(a, b[0]);
      assert a + b == (a + [b[0]]) + b[1..];
      if DecodeStringPages(a).Some? { RefusedStep(DecodeStringPages(a).value, b[0], numRows); }
      RefusedMore(a + [b[0]], b[1..], numRows);
    }
  }

  lemma RefusedStep(rows: seq<Option<Str>>, page: Page, numRows: nat)
    requires Overflows(rows, numRows)
    ensures Refused(DecodeOnePage(rows, page), numRows)
  {
    if DecodeOnePage(rows, page).Some? {
      var rows' := DecodeOnePage(rows, page).value;
      var i :| numRows <= i < |rows| && rows[i].Some?;
      assert i < |rows'| && rows'[i].Some?;
    }
  }

  /** The rows of a regular page. */
  method FromRegularPage(page: Page, results: array<Option<Str>>, rowIdx: nat, ghost before: seq<Option<Str>>)
      returns (ok: bool, rowIdx': nat)
    requires results[..] == Placed(before, results.Length) && rowIdx == |before| && !Overflows(before, results.Length)
    modifies results
    ensures var after := before + DecodeStrings(page, ReadU16(page, 0));
      && (ok <==> !Overflows(after, results.Length))
      && (ok ==> results[..] == Placed(after, results.Length) && rowIdx' == |after|)
  {
    hide DecodeStrings, TestBit, Overflows, Placed, NonNulls, StringAt, ReadU16, PageBitmap;
    rowIdx' := rowIdx;
    var n, dataIdx := ReadU16(page, 0), 0;
    NoStrings(page);
    assert before + [] == before;
    for i := 0 to n
      invariant dataIdx == |NonNulls(DecodeStrings(page, i))| && rowIdx' == |before| + i
      invariant !Overflows(before + DecodeStrings(page, i), results.Length)
      invariant results[..] == Placed(before + DecodeStrings(page, i), results.Length)
    {
      DecodeStringsNext(page, i);
      ghost var rows, row :=
        DecodeStrings(page, i), if TestBit(PageBitmap(page, n), i) then Some(StringAt(page, dataIdx)) else None;
      RowBehind(before, rows, row);
      NonNullsNext(rows, row);
      PlacedNext(before + rows, row, results.Length);
      if TestBit(PageBitmap(page, n), i) {
        if rowIdx' >= results.Length {
          DecodeStringsPrefix(page, i + 1, n);
          OverflowsLater(before, DecodeStrings(page, n), i + 1, results.Length);
          return false, rowIdx';
        }
        results[rowIdx'] := Some(StringAt(page, dataIdx));
        dataIdx := dataIdx + 1;
      }
      rowIdx' := rowIdx' + 1;
    }
    ok := true;
  }

  /** The last row read so far, as the column of cells shows it. */
  lemma LastRow(before: seq<Option<Str>>, numRows: nat)
    requires !Overflows(before, numRows)
    ensures before != [] && |before| <= numRows ==> Placed(before, numRows)[|before| - 1] == before[|before| - 1]
    ensures |before| > numRows ==> before[|before| - 1] == None
  {
  }

  lemma LastReplaced(before: seq<Option<Str>>, value: Str, numRows: nat)
    requires 0 < |before| <= numRows
    ensures var after := before[..|before| - 1] + [Some(value)];
      && Placed(after, numRows) == Placed(before, numRows)[|before| - 1 := Some(value)]
      && !Overflows(after, numRows)
  {
    var after := before[..|before| - 1] + [Some(value)];
    assert |after| == |before| && forall i :: 0 <= i < |before| - 1 ==> after[i] == before[i];
  }

  method FromStringPage(page: Page, results: array<Option<Str>>, rowIdx: nat, ghost before: seq<Option<Str>>)
      returns (ok: bool, rowIdx': nat)
    requires results[..] == Placed(before, results.Length) && rowIdx == |before| && !Overflows(before, results.Length)
    modifies results
    ensures ok <==> !Refused(DecodeOnePage(before, page), results.Length)
    ensures ok ==>
      DecodeOnePage(before, page).Some? && results[..] == Placed(DecodeOnePage(before, page).value, results.Length)
    ensures ok ==> rowIdx' == |DecodeOnePage(before, page).value|
  {
    hide DecodeStrings, LongChars, ReadU16, Placed, Overflows;
    rowIdx' := rowIdx;
    LastRow(before, results.Length);
    if ReadU16(page, 0) == LONG_FIRST {
      PlacedNext(before, Some(LongChars(page)), results.Length);
      if rowIdx >= results.Length {
        return false, rowIdx;
      }
      results[rowIdx] := Some(LongChars(page));
      return true, rowIdx + 1;
    } else if ReadU16(page, 0) == LONG_NEXT {
      if rowIdx == 0 || rowIdx > results.Length || results[rowIdx - 1].None? {
        return false, rowIdx;
      }
      var value := results[rowIdx - 1].value + LongChars(page);
      LastReplaced(before, value, results.Length);
      results[rowIdx - 1] := Some(value);
      ok := true;
    } else {
      ok, rowIdx' := FromRegularPage(page, results, rowIdx, before);
    }
  }

  method FromStringPages(pages: seq<Page>, numRows: nat) returns (r: Option<seq<Option<Str>>>)
    ensures r == None <==> Refused(DecodeStringPages(pages), numRows)
    ensures r.Some? ==> DecodeStringPages(pages).Some? && r.value == Placed(DecodeStringPages(pages).value, numRows)
  {
    hide DecodeOnePage, Overflows, Placed;
    var results := new Option<Str>[numRows](i => None);
    var rowIdx := 0;
    NothingPlaced(pages, results[..]);
    for k := 0 to |pages|
      invariant !Refused(DecodeStringPages(pages[..k]), numRows) && rowIdx == |DecodeStringPages(pages[..k]).value|
      invariant results[..] == Placed(DecodeStringPages(pages[..k]).value, numRows)
    {
      DecodeStringPagesNext(pages[..k], pages[k]);
      assert pages[..k + 1] == pages[..k] + [pages[k]];
      hide DecodeStringPages;
      var ok;
      ok, rowIdx := FromStringPage(pages[k], results, rowIdx, DecodeStringPages(pages[..k]).value);
      if !ok {
        RefusedMore(pages[..k + 1], pages[k + 1..], numRows);
        assert pages[..k + 1] + pages[k + 1..] == pages;
        return None;
      }
    }
    assert pages[..|pages|] == pages;
    return Some(results[..]);
  }

  lemma NothingPlaced(pages: seq<Page>, results: seq<Option<Str>>)
    requires forall i :: 0 <= i < |results| ==> results[i] == None
    ensures DecodeStringPages(pages[..0]) == Some([]) && results == Placed([], |results|)
    ensures !Overflows<Str>([], |results|)
  {
  }
}

/** Whole columns through the page codec: what is written decodes to what was inserted, and the written pages meet
    what the executor's scan relies on. */
module ColumnCodec {
  import opened Options
  import opened Pages
  import opened IntCodec
  import opened StringPages
  import opened StringCodec
  import opened Scan

  /** Rows on a page that holds nothing but values: (8192 - 4) * 8 / 33, rounded down. */
  const FULL_PAGE: nat := 1984

  ghost predicate PageOk(page: Page) {
    && IntPageOk(page)
    && (NullFree(page) ==> ReadU16(page, 0) == FULL_PAGE)
  }

  ghost predicate PagesOk(pages: seq<Page>) {
    forall p :: 0 <= p < |pages| ==> PageOk(pages[p])
  }

  /** A page without nulls is saved only when it is full. */
  lemma SavedPageOk(page: Page, rows: seq<Option<I32>>, row: Option<I32>)
    requires IntPageFor(page, rows)
    requires 4 + 4 * |NonNulls(rows)| + (if row.Some? then 4 else 0) + BitmapSize(|rows| + 1) > PAGE_SIZE
    ensures PageOk(page)
  {
    IntPageDecodes(page, rows);
    NonNullsBound(rows);
    hide NonNulls, IntPageFor, ReadU16;
    assert IntHeader(page, rows) by { HeaderIs(page, rows); }
  }

  ghost predicate IntHeader(page: Page, rows: seq<Option<I32>>) {
    && ReadU16(page, 0) == |rows| && ReadU16(page, 2) == |NonNulls(rows)|
    && 4 + 4 * |NonNulls(rows)| + BitmapSize(|rows|) <= PAGE_SIZE
  }

  lemma HeaderIs(page: Page, rows: seq<Option<I32>>)
    requires IntPageFor(page, rows)
    ensures IntHeader(page, rows)
  {
  }

  lemma GrownOk(pages: seq<Page>, rows: seq<Option<I32>>, pages': seq<Page>, rows': seq<Option<I32>>, row: Option<I32>)
    requires PagesOk(pages) && Grown(pages, rows, pages', rows', row, if row.Some? then 4 else 0)
    ensures PagesOk(pages') && rows' != []
  {
    hide PageOk, IntPageFor, NonNulls;
    if pages' != pages {
      SavedPageOk(pages'[|pages|], rows, row);
    }
  }

  /** Only the last page of a null-free column can be shorter than the others. */
  lemma ColumnOk(pages: seq<Page>)
    requires PagesOk(pages)
    ensures IntColumnOk(pages)
  {
    hide IntPageFor;
    forall p | 0 <= p < |pages| ensures PageOk(pages[p]) {}
  }

  lemma LastPageOk(pages: seq<Page>, rows: seq<Option<I32>>, last: Page)
    requires PagesOk(pages) && IntPageFor(last, rows) && rows != []
    ensures IntColumnOk(pages + [last])
  {
    var all := pages + [last];
    IntPageDecodes(last, rows);
    HeaderIs(last, rows);
    NonNullsBound(rows);
    assert IntPageOk(last);
    hide IntPageOk, NullFree, IntHeader;
    forall p | 0 <= p < |all| ensures IntPageOk(all[p]) {
      if p < |pages| { assert PageOk(pages[p]); }
    }
    if forall p :: 0 <= p < |all| ==> NullFree(all[p]) { FullPages(pages, rows, last); }
  }

  lemma FullPages(pages: seq<Page>, rows: seq<Option<I32>>, last: Page)
    requires PagesOk(pages) && IntHeader(last, rows)
    requires forall p :: 0 <= p < |pages + [last]| ==> NullFree((pages + [last])[p])
    ensures SameSizes(pages + [last])
  {
    hide IntPageFor, ReadU16, DecodeIntPage, NullFree, IntHeader;
    var all := pages + [last];
    forall p | 0 <= p < |pages| ensures ReadU16(all[p], 0) == FULL_PAGE { assert PageOk(pages[p]) && NullFree(all[p]); }
    assert NullFree(all[|pages|]);
    LastIsShort(last, rows);
  }

  lemma LastIsShort(last: Page, rows: seq<Option<I32>>)
    requires IntHeader(last, rows) && NullFree(last)
    ensures ReadU16(last, 0) <= FULL_PAGE
  {
    hide NonNulls, ReadU16;
  }

  /** Writing an INT32 column. */
  method EncodeInts(column: seq<Option<I32>>) returns (pages: seq<Page>)
    ensures DecodeIntPages(pages) == column && IntColumnOk(pages)
  {
    hide DecodeIntPages, PageOk, IntPageFor, Grown, IntInserter.Valid, IntColumnOk;
    var inserter := new IntInserter();
    for i := 0 to |column|
      invariant inserter.Valid() && fresh(inserter) && fresh(inserter.page) && fresh(inserter.bitmap)
      invariant inserter.Contents() == column[..i] && PagesOk(inserter.pages)
    {
      ghost var before, rows := inserter.pages, inserter.rows;
      if column[i].Some? { inserter.Insert(column[i].value); } else { inserter.InsertNull(); }
      GrownOk(before, rows, inserter.pages, inserter.rows, column[i]);
    }
    ghost var before, rows := inserter.pages, inserter.rows;
    inserter.Finalize();
    pages := inserter.pages;
    if rows == [] {
      ColumnOk(pages);
    } else {
      LastPageOk(before, rows, pages[|before|]);
      assert pages == before + [pages[|before|]];
    }
  }

  /** Writing a VARCHAR column. */
  method EncodeStrings(column: seq<Option<Str>>) returns (pages: seq<Page>)
    ensures DecodeStringPages(pages) == Some(column) && StringColumnOk(pages)
  {
    hide DecodeStringPages, StringColumnOk, StringInserter.Valid, StringGrown;
    var inserter := new StringInserter();
    for i := 0 to |column|
      invariant inserter.Valid() && fresh(inserter) && fresh(inserter.page) && fresh(inserter.data)
      invariant fresh(inserter.bitmap)
      invariant inserter.Contents() == column[..i]
    {
      if column[i].Some? { inserter.Insert(column[i].value); } else { inserter.InsertNull(); }
    }
    assert column[..|column|] == column;
    inserter.Finalize();
    pages := inserter.pages;
  }

  /** Writing a column and reading it back. */
  method RoundTripInts(column: seq<Option<I32>>) returns (r: Option<seq<Option<I32>>>)
    ensures r == Some(column)
  {
    hide DecodeIntPages;
    var pages := EncodeInts(column);
    NoOverflow(column);
    r := FromIntPages(pages, |column|);
  }

  method RoundTripStrings(column: seq<Option<Str>>) returns (r: Option<seq<Option<Str>>>)
    ensures r == Some(column)
  {
    hide DecodeStringPages;
    var pages := EncodeStrings(column);
    NoOverflow(column);
    r := FromStringPages(pages, |column|);
  }

  lemma NoOverflow<T>(column: seq<Option<T>>)
    ensures !Overflows(column, |column|)
  {
  }
}

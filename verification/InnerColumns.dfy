/** The loader's uncompressed columns, which grow row by row. */
module InnerColumns {
  import opened Bits
  import opened Bitmaps
  import opened Pages
  import opened StringPages
  import opened Scan
  import opened Relations

  /** An INT32 column holds a value for every row; a VARCHAR column holds all characters and where each row ends. */
  datatype InnerColumn =
    | IntColumn(ints: seq<I32>, bitmap: seq<U8>)
    | StringColumn(chars: Str, offsets: seq<nat>, bitmap: seq<U8>)
  {
    function Rows(): nat {
      if IntColumn? then |ints| else |offsets|
    }

    function Type(): DataType {
      if IntColumn? then INT32 else VARCHAR
    }

    predicate Ok() {
      |bitmap| == BitmapSize(Rows()) && (StringColumn? ==> OffsetsOk(offsets, |chars|))
    }

    predicate IsNotNull(i: nat)
      requires Ok() && i < Rows()
    {
      TestBit(bitmap, i)
    }

    function GetString(i: nat): Str
      requires Ok() && StringColumn? && i < Rows()
    {
      var begin := if i == 0 then 0 else offsets[i - 1];
      chars[begin..offsets[i]]
    }

    /** Row i as the row evaluator sees it. */
    function Get(i: nat): Datum
      requires Ok() && i < Rows()
    {
      if !IsNotNull(i) then Null else if IntColumn? then Int(ints[i]) else Text(GetString(i))
    }

    function Datums(): seq<Datum>
      requires Ok()
    {
      seq(Rows(), (i: int) requires 0 <= i < Rows() => Get(i))
    }
  }

  predicate OffsetsOk(offsets: seq<nat>, size: nat) {
    && (forall i :: 0 <= i < |offsets| ==> offsets[i] <= size)
    && (forall i :: 0 < i < |offsets| ==> offsets[i - 1] <= offsets[i])
  }

  /** Row n's bit has been added to the bitmap of the rows before it. */
  ghost predicate BitAppended(before: seq<U8>, after: seq<U8>, n: nat, notNull: bool) {
    && |before| == BitmapSize(n) && |after| == BitmapSize(n + 1)
    && forall i: nat :: i <= n ==> TestBit(after, i) == if i == n then notNull else TestBit(before, i)
  }

  lemma NewByte(bitmap: seq<U8>, n: nat, notNull: bool)
    requires |bitmap| == BitmapSize(n) && n / 8 + 1 > |bitmap|
    ensures BitAppended(bitmap, bitmap + [if notNull then 1 else 0], n, notNull)
  {
    assert n % 8 == 0;
    TestIsBit(bitmap + [if notNull then 1 else 0], n);
  }

  lemma SameByte(bitmap: seq<U8>, n: nat, notNull: bool)
    requires |bitmap| == BitmapSize(n) && n / 8 + 1 <= |bitmap|
    ensures BitAppended(bitmap, if notNull then SetBit(bitmap, n) else ClearBit(bitmap, n), n, notNull)
  {
    var after := if notNull then SetBit(bitmap, n) else ClearBit(bitmap, n);
    hide TestBit, SetBit, ClearBit;
    forall i: nat | i <= n ensures TestBit(after, i) == if i == n then notNull else TestBit(bitmap, i) {
      SetBitLaw(bitmap, n, i);
      ClearBitLaw(bitmap, n, i);
    }
  }

  class InnerInts {
    var data: seq<I32>
    var bitmap: seq<U8>

    function Value(): InnerColumn
      reads this
    {
      IntColumn(data, bitmap)
    }

    constructor ()
      ensures Value().Ok() && Value().Datums() == []
    {
      data, bitmap := [], [];
    }

    method PushBack(value: I32)
      requires Value().Ok()
      modifies this
      ensures Value().Ok() && Value().Datums() == old(Value().Datums()) + [Int(value)]
    {
      ghost var before := Value();
      data := data + [value];
      BitmapPushBack(true);
      PushInt(before, value, bitmap, true);
    }

    method PushBackNull()
      requires Value().Ok()
      modifies this
      ensures Value().Ok() && Value().Datums() == old(Value().Datums()) + [Null]
    {
      ghost var before := Value();
      data := data + [0];
      BitmapPushBack(false);
      PushInt(before, 0, bitmap, false);
    }

    /** Called when the value is already there. */
    method BitmapPushBack(notNull: bool)
      requires data != [] && |bitmap| == BitmapSize(|data| - 1)
      modifies this
      ensures data == old(data) && BitAppended(old(bitmap), bitmap, |data| - 1, notNull)
    {
      var n := |data| - 1;
      if (|data| + 7) / 8 > |bitmap| {
        NewByte(bitmap, n, notNull);
        bitmap := bitmap + [if notNull then 1 else 0];
      } else {
        SameByte(bitmap, n, notNull);
        bitmap := if notNull then SetBit(bitmap, n) else ClearBit(bitmap, n);
      }
    }
  }

  lemma PushInt(c: InnerColumn, value: I32, bitmap: seq<U8>, notNull: bool)
    requires c.IntColumn? && c.Ok() && BitAppended(c.bitmap, bitmap, |c.ints|, notNull)
    ensures var c' := IntColumn(c.ints + [value], bitmap);
      c'.Ok() && c'.Datums() == c.Datums() + [if notNull then Int(value) else Null]
  {
    hide TestBit;
    var c' := IntColumn(c.ints + [value], bitmap);
    forall i | 0 <= i < |c.ints| ensures c'.Get(i) == c.Get(i) {}
  }

  class InnerStrings {
    var data: Str
    var offsets: seq<nat>
    var bitmap: seq<U8>
    var row: nat

    function Value(): InnerColumn
      reads this
    {
      StringColumn(data, offsets, bitmap)
    }

    ghost predicate Valid()
      reads this
    {
      Value().Ok() && row == |offsets| && EndsAtEnd(Value())
    }

    constructor ()
      ensures Valid() && Value().Datums() == []
    {
      data, offsets, bitmap, row := [], [], [], 0;
    }

    method PushBack(value: Str)
      requires Valid()
      modifies this
      ensures Valid() && Value().Datums() == old(Value().Datums()) + [Text(value)]
    {
      ghost var before := Value();
      data := data + value;
      offsets := offsets + [|data|];
      BitmapPushBack(true);
      PushString(before, value, bitmap, true);
    }

    method PushBackNull()
      requires Valid()
      modifies this
      ensures Valid() && Value().Datums() == old(Value().Datums()) + [Null]
    {
      ghost var before := Value();
      offsets := offsets + [|data|];
      BitmapPushBack(false);
      assert data + [] == data;
      PushString(before, [], bitmap, false);
    }

    method BitmapPushBack(notNull: bool)
      requires |bitmap| == BitmapSize(row)
      modifies this
      ensures data == old(data) && offsets == old(offsets)
      ensures row == old(row) + 1 && BitAppended(old(bitmap), bitmap, old(row), notNull)
    {
      if row / 8 + 1 > |bitmap| {
        NewByte(bitmap, row, notNull);
        bitmap := bitmap + [if notNull then 1 else 0];
      } else {
        SameByte(bitmap, row, notNull);
        bitmap := if notNull then SetBit(bitmap, row) else ClearBit(bitmap, row);
      }
      row := row + 1;
    }
  }

  function WithString(c: InnerColumn, value: Str, bitmap: seq<U8>): InnerColumn
    requires c.StringColumn?
  {
    StringColumn(c.chars + value, c.offsets + [|c.chars + value|], bitmap)
  }

  ghost predicate EndsAtEnd(c: InnerColumn)
    requires c.StringColumn?
  {
    if c.offsets == [] then c.chars == [] else c.offsets[|c.offsets| - 1] == |c.chars|
  }

  lemma WithStringOk(c: InnerColumn, value: Str, bitmap: seq<U8>, notNull: bool)
    requires c.StringColumn? && c.Ok() && BitAppended(c.bitmap, bitmap, |c.offsets|, notNull)
    ensures WithString(c, value, bitmap).Ok()
  {
    OffsetsNext(c.offsets, |c.chars|, |c.chars + value|);
    hide OffsetsOk;
  }

  lemma WithStringGet(c: InnerColumn, value: Str, bitmap: seq<U8>, notNull: bool, i: nat)
    requires c.StringColumn? && c.Ok() && EndsAtEnd(c) && WithString(c, value, bitmap).Ok()
    requires BitAppended(c.bitmap, bitmap, |c.offsets|, notNull) && i <= |c.offsets|
    ensures WithString(c, value, bitmap).Get(i) ==
      if i < |c.offsets| then c.Get(i) else if notNull then Text(value) else Null
  {
    if i < |c.offsets| {
      OffsetBound(c.offsets, |c.chars|, i);
      SliceKept(c.chars, value, if i == 0 then 0 else c.offsets[i - 1], c.offsets[i]);
    } else {
      SliceLast(c.chars, value);
    }
    hide TestBit, OffsetsOk;
  }

  lemma PushString(c: InnerColumn, value: Str, bitmap: seq<U8>, notNull: bool)
    requires c.StringColumn? && c.Ok() && EndsAtEnd(c) && BitAppended(c.bitmap, bitmap, |c.offsets|, notNull)
    ensures var c' := WithString(c, value, bitmap);
      c'.Ok() && c'.Datums() == c.Datums() + [if notNull then Text(value) else Null]
  {
    hide InnerColumn.Get, InnerColumn.Ok, EndsAtEnd, BitAppended;
    WithStringOk(c, value, bitmap, notNull);
    forall i | 0 <= i <= |c.offsets|
      ensures WithString(c, value, bitmap).Get(i) ==
        if i < |c.offsets| then c.Get(i) else if notNull then Text(value) else Null
    {
      WithStringGet(c, value, bitmap, notNull, i);
    }
  }

  lemma OffsetsNext(offsets: seq<nat>, size: nat, size': nat)
    requires OffsetsOk(offsets, size) && size <= size'
    ensures OffsetsOk(offsets + [size'], size')
  {
  }

  lemma OffsetBound(offsets: seq<nat>, size: nat, i: nat)
    requires OffsetsOk(offsets, size) && i < |offsets|
    ensures (if i == 0 then 0 else offsets[i - 1]) <= offsets[i] <= size
  {
  }

  lemma SliceKept(chars: Str, more: Str, a: nat, b: nat)
    requires a <= b <= |chars|
    ensures (chars + more)[a..b] == chars[a..b]
  {
  }

  lemma SliceLast(chars: Str, more: Str)
    ensures (chars + more)[|chars|..|chars + more|] == more
  {
  }
}

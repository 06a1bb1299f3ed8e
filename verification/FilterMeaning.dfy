/** Which rows a filter's bitmap selects, operator by operator. */
module FilterMeaning {
  import opened Bits
  import opened Bitmaps
  import opened Pages
  import opened StringPages
  import opened Relations
  import opened InnerColumns
  import opened Filters

  // The order of strings.

  /** The strings agree before place k, and there a ends or has the smaller byte. */
  predicate DifferAt(a: Str, b: Str, k: nat) {
    k <= |a| && k < |b| && a[..k] == b[..k] && (k == |a| || a[k] < b[k])
  }

  /** a is a proper prefix of b, or has the smaller byte where they first differ. */
  predicate Before(a: Str, b: Str) {
    exists k: nat :: k < |b| && DifferAt(a, b, k)
  }

  lemma {:induction false} LessIsBefore(a: Str, b: Str)
    ensures Less(a, b) <==> Before(a, b)
  {
    if a == [] || b == [] || a[0] != b[0] {
      if Less(a, b) { assert DifferAt(a, b, 0); }
      forall k: nat | k < |b| && DifferAt(a, b, k) ensures k == 0 {
        if k > 0 { SameStart(a, b, k); }
      }
    } else {
      LessIsBefore(a[1..], b[1..]);
      BeforeTails(a, b);
    }
  }

  lemma SameStart(a: Str, b: Str, k: nat)
    requires 0 < k < |b| && DifferAt(a, b, k)
    ensures a != [] && a[0] == b[0]
  {
    assert a[..k][0] == a[0] && b[..k][0] == b[0];
  }

  lemma BeforeTails(a: Str, b: Str)
    requires a != [] && b != [] && a[0] == b[0]
    ensures Before(a, b) <==> Before(a[1..], b[1..])
  {
    forall k: nat | k + 1 < |b| ensures DifferAt(a, b, k + 1) <==> DifferAt(a[1..], b[1..], k) {
      if k + 1 <= |a| {
        assert a[..k + 1] == [a[0]] + a[1..][..k] && b[..k + 1] == [b[0]] + b[1..][..k];
        assert a[1..][..k] == a[..k + 1][1..] && b[1..][..k] == b[..k + 1][1..];
      }
    }
    if Before(a, b) {
      var k: nat :| k < |b| && DifferAt(a, b, k);
      assert DifferAt(a[1..], b[1..], k - 1);
    }
    if Before(a[1..], b[1..]) {
      var k: nat :| k < |b[1..]| && DifferAt(a[1..], b[1..], k);
      assert DifferAt(a, b, k + 1);
    }
  }

  /** Of two strings one comes before the other, or they are equal. */
  lemma {:induction false} Trichotomy(a: Str, b: Str)
    ensures a == b || Less(a, b) || Less(b, a)
    ensures !(Less(a, b) && Less(b, a)) && !(a == b && Less(a, b))
  {
    if a != [] && b != [] && a[0] == b[0] {
      Trichotomy(a[1..], b[1..]);
      assert a == [a[0]] + a[1..] && b == [b[0]] + b[1..];
    }
  }

  // Rows.

  ghost predicate Marks(bitmap: seq<U8>, column: nat, op: Op, value: Literal, cols: seq<InnerColumn>, n: nat,
                        like: Like)
  {
    ColumnsOk(cols, n) && column < |cols| && MarksRows(bitmap, Comparison(column, op, value), cols, n, like)
  }

  /** A null passes IS_NULL and nothing else, whatever it is compared with. */
  lemma NullRows(bitmap: seq<U8>, column: nat, op: Op, value: Literal, cols: seq<InnerColumn>, n: nat, like: Like,
                 i: nat)
    requires Marks(bitmap, column, op, value, cols, n, like) && i < n && cols[column].Get(i) == Null
    ensures TestBit(bitmap, i) <==> op == IS_NULL
  {
    hide InnerColumn.Ok, InnerColumn.Get, TestBit, CompareInts, CompareStrings;
    assert RecordAt(cols, n, i)[column] == Null;
  }

  /** Integers are compared as numbers. */
  lemma IntRows(bitmap: seq<U8>, column: nat, op: Op, rhs: int, cols: seq<InnerColumn>, n: nat, like: Like, i: nat,
                v: I32)
    requires Marks(bitmap, column, op, IntLiteral(rhs), cols, n, like) && i < n && cols[column].Get(i) == Int(v)
    ensures TestBit(bitmap, i) <==> match op
      case EQ => v == rhs
      case NEQ => v != rhs
      case LT => v < rhs
      case GT => v > rhs
      case LEQ => v <= rhs
      case GEQ => v >= rhs
      case LIKE => false
      case NOT_LIKE => false
      case IS_NULL => false
      case IS_NOT_NULL => true
  {
    hide InnerColumn.Ok, InnerColumn.Get, TestBit, CompareStrings;
    assert RecordAt(cols, n, i)[column] == Int(v);
  }

  /** Strings are compared by the byte where they first differ; LIKE is matching, and NOT_LIKE the opposite. */
  lemma TextRows(bitmap: seq<U8>, column: nat, op: Op, rhs: Str, cols: seq<InnerColumn>, n: nat, like: Like, i: nat,
                 s: Str)
    requires Marks(bitmap, column, op, StringLiteral(rhs), cols, n, like) && i < n && cols[column].Get(i) == Text(s)
    ensures TestBit(bitmap, i) <==> match op
      case EQ => s == rhs
      case NEQ => s != rhs
      case LT => Before(s, rhs)
      case GT => Before(rhs, s)
      case LEQ => s == rhs || Before(s, rhs)
      case GEQ => s == rhs || Before(rhs, s)
      case LIKE => like(s, rhs)
      case NOT_LIKE => !like(s, rhs)
      case IS_NULL => false
      case IS_NOT_NULL => true
  {
    hide InnerColumn.Ok, InnerColumn.Get, TestBit, CompareInts, Less, Before;
    LessIsBefore(s, rhs);
    LessIsBefore(rhs, s);
    Trichotomy(s, rhs);
    assert RecordAt(cols, n, i)[column] == Text(s);
  }

  /** A value that is compared with a literal of another type passes IS_NOT_NULL only. */
  lemma MixedRows(op: Op, value: Literal, d: Datum, like: Like)
    requires (d.Int? && !value.IntLiteral?) || (d.Text? && !value.StringLiteral?)
    ensures EvalRow(Comparison(0, op, value), [d], like) <==> op == IS_NOT_NULL
  {
  }

  /** AND, OR and NOT of the bitmaps of statements, row by row; a null is no third value. */
  lemma ConnectedRows(l: Statement, r: Statement, a: seq<U8>, b: seq<U8>, cols: seq<InnerColumn>, n: nat, like: Like,
                      bitmap: seq<U8>, i: nat)
    requires ColumnsOk(cols, n) && MarksRows(a, l, cols, n, like) && MarksRows(b, r, cols, n, like) && i < n
    ensures MarksRows(bitmap, AndOp(l, r), cols, n, like) ==> (TestBit(bitmap, i) <==> TestBit(a, i) && TestBit(b, i))
    ensures MarksRows(bitmap, OrOp(l, r), cols, n, like) ==> (TestBit(bitmap, i) <==> TestBit(a, i) || TestBit(b, i))
    ensures MarksRows(bitmap, NotOp(l), cols, n, like) ==> (TestBit(bitmap, i) <==> !TestBit(a, i))
  {
    hide InnerColumn.Ok, InnerColumn.Get, TestBit, EvalComparison, RecordAt;
  }

  /** The cast to 32 bits keeps the number modulo 2^32. */
  lemma WrapKeeps(n: int)
    ensures MIN <= Wrap32(n) <= MAX && (n - Wrap32(n)) % 0x1_0000_0000 == 0
  {
  }
}

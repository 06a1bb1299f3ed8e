/** Filter statements, evaluated row by row and on whole columns. */
module Filters {
  import opened Bits
  import opened Bitmaps
  import opened Pages
  import opened StringPages
  import opened Scan
  import opened Relations
  import opened FilterKernels
  import opened InnerColumns

  datatype Op = EQ | NEQ | LT | GT | LEQ | GEQ | LIKE | NOT_LIKE | IS_NULL | IS_NOT_NULL

  datatype Literal = IntLiteral(n: int) | StringLiteral(s: Str) | NoLiteral

  datatype Statement =
    | Comparison(column: nat, op: Op, value: Literal)
    | AndOp(left: Statement, right: Statement)
    | OrOp(left: Statement, right: Statement)
    | NotOp(child: Statement)

  type Like = (Str, Str) -> bool

  /** Byte-wise order of strings. */
  predicate Less(a: Str, b: Str) {
    b != [] && (a == [] || a[0] < b[0] || (a[0] == b[0] && Less(a[1..], b[1..])))
  }

  predicate CompareInts(op: Op, a: int, b: int) {
    match op
    case EQ => a == b
    case NEQ => a != b
    case LT => a < b
    case GT => a > b
    case LEQ => a <= b
    case GEQ => a >= b
    case _ => false
  }

  predicate CompareStrings(op: Op, a: Str, b: Str, like: Like) {
    match op
    case EQ => a == b
    case NEQ => a != b
    case LT => Less(a, b)
    case GT => Less(b, a)
    case LEQ => !Less(b, a)
    case GEQ => !Less(a, b)
    case LIKE => like(a, b)
    case NOT_LIKE => !like(a, b)
    case _ => false
  }

  predicate IsLike(op: Op) {
    op.LIKE? || op.NOT_LIKE?
  }

  /** Comparison::eval on one record. */
  predicate EvalComparison(op: Op, value: Literal, d: Datum, like: Like) {
    if op.IS_NULL? then d.Null?
    else if op.IS_NOT_NULL? then !d.Null?
    else if IsLike(op) then d.Text? && value.StringLiteral? && CompareStrings(op, d.s, value.s, like)
    else if d.Int? && value.IntLiteral? then CompareInts(op, d.i, value.n)
    else d.Text? && value.StringLiteral? && CompareStrings(op, d.s, value.s, like)
  }

  /** Statement::eval on one record. */
  predicate EvalRow(s: Statement, record: Row, like: Like) {
    match s
    case Comparison(column, op, value) => column < |record| && EvalComparison(op, value, record[column], like)
    case AndOp(l, r) => EvalRow(l, record, like) && EvalRow(r, record, like)
    case OrOp(l, r) => EvalRow(l, record, like) || EvalRow(r, record, like)
    case NotOp(c) => !EvalRow(c, record, like)
  }

  // Integer literals: 64 bits wide in the statement, cast to 32 bits by the column evaluator.

  const MAX: int := 0x7FFF_FFFF
  const MIN: int := -0x8000_0000

  function Wrap32(n: int): I32 {
    var u := n % 0x1_0000_0000;
    if u <= MAX then u else u - 0x1_0000_0000
  }

  predicate IsOrder(op: Op) {
    op.EQ? || op.NEQ? || op.LT? || op.GT? || op.LEQ? || op.GEQ?
  }

  /** The literal fits, or it lies beyond one end of the range and wraps to just that end, where the comparison is
      as constant as without the cast. */
  predicate LiteralAgrees(op: Op, n: int) {
    || MIN <= n <= MAX
    || (n > MAX && Wrap32(n) == MAX && (op.GT? || op.LEQ?))
    || (n < MIN && Wrap32(n) == MIN && (op.LT? || op.GEQ?))
  }

  /** The cast leaves a comparison right for every value exactly for these literals. */
  lemma LiteralIff(op: Op, n: int)
    requires IsOrder(op)
    ensures (forall v: I32 :: CompareInts(op, v, Wrap32(n)) == CompareInts(op, v, n)) <==> LiteralAgrees(op, n)
  {
    var w := Wrap32(n);
    if !LiteralAgrees(op, n) {
      var v: I32 := if op.EQ? || op.NEQ? || (n > MAX && (op.LT? || op.GEQ?)) || (n < MIN && (op.GT? || op.LEQ?)) then w
        else if n > MAX then w + 1 else w - 1;
      assert CompareInts(op, v, w) != CompareInts(op, v, n);
    }
  }

  /** 2^32 is cast to 0: the column evaluator takes a row for equal to it that the row evaluator does not. */
  lemma LiteralWraps(like: Like)
    ensures var n := 0x1_0000_0000;
      CompareInts(EQ, 0, Wrap32(n)) && !EvalComparison(EQ, IntLiteral(n), Int(0), like) && !LiteralAgrees(EQ, n)
  {
  }

  // Evaluation on columns.

  predicate ComparisonTyped(op: Op, value: Literal, t: DataType) {
    || op.IS_NULL? || op.IS_NOT_NULL?
    || (t == INT32 && IsOrder(op) && value.IntLiteral? && LiteralAgrees(op, value.n))
    || (t == VARCHAR && (IsOrder(op) || IsLike(op)) && value.StringLiteral?)
  }

  predicate WellTypedStatement(s: Statement, types: seq<DataType>) {
    match s
    case Comparison(column, op, value) => column < |types| && ComparisonTyped(op, value, types[column])
    case AndOp(l, r) => WellTypedStatement(l, types) && WellTypedStatement(r, types)
    case OrOp(l, r) => WellTypedStatement(l, types) && WellTypedStatement(r, types)
    case NotOp(c) => WellTypedStatement(c, types)
  }

  ghost predicate ColumnsOk(cols: seq<InnerColumn>, n: nat) {
    forall c :: 0 <= c < |cols| ==> cols[c].Ok() && cols[c].Rows() == n
  }

  function ColumnTypes(cols: seq<InnerColumn>): seq<DataType> {
    seq(|cols|, (c: int) requires 0 <= c < |cols| => cols[c].Type())
  }

  /** Row i of the table. */
  function RecordAt(cols: seq<InnerColumn>, n: nat, i: nat): Row
    requires ColumnsOk(cols, n) && i < n
  {
    seq(|cols|, (c: int) requires 0 <= c < |cols| => cols[c].Get(i))
  }

  /** Bit i of the bitmap is the statement's value on row i; bits beyond the rows mean nothing. */
  ghost predicate MarksRows(bitmap: seq<U8>, s: Statement, cols: seq<InnerColumn>, n: nat, like: Like)
    requires ColumnsOk(cols, n)
  {
    |bitmap| == BitmapSize(n) && forall i: nat :: i < n ==> TestBit(bitmap, i) == EvalRow(s, RecordAt(cols, n, i), like)
  }

  /** Comparison::eval on columns. */
  method EvalColumn(op: Op, value: Literal, c: InnerColumn, like: Like, threads: nat) returns (ret: seq<U8>)
    requires c.Ok() && threads > 0 && ComparisonTyped(op, value, c.Type())
    ensures |ret| == BitmapSize(c.Rows())
    ensures forall i: nat :: i < c.Rows() ==> TestBit(ret, i) == EvalComparison(op, value, c.Get(i), like)
  {
    hide TestBit, Less;
    if op.IS_NULL? {
      ret := BitmapNot(c.bitmap, threads);
      forall i: nat | i < c.Rows() ensures TestBit(ret, i) == !TestBit(c.bitmap, i) {
        ByteOperations(c.bitmap, c.bitmap, i);
        TestIsBit(ret, i);
      }
    } else if op.IS_NOT_NULL? {
      ret := c.bitmap;
    } else if c.IntColumn? {
      var ints, rhs := c.ints, Wrap32(value.n);
      LiteralIff(op, value.n);
      ret := RunKernel(c.bitmap, (i: nat) => i < |ints| && CompareInts(op, ints[i], rhs), |ints|, threads);
    } else {
      var rhs := value.s;
      var test := (i: nat) =>
        c.Ok() && c.StringColumn? && i < c.Rows() && CompareStrings(op, c.GetString(i), rhs, like);
      ret := RunKernel(c.bitmap, test, c.Rows(), threads);
    }
  }

  /** Statement::eval on columns agrees with Statement::eval on every record, nulls and NOT included, for any number
      of threads and any schedule. */
  method EvalTable(s: Statement, cols: seq<InnerColumn>, n: nat, like: Like, threads: nat) returns (ret: seq<U8>)
    requires ColumnsOk(cols, n) && threads > 0 && WellTypedStatement(s, ColumnTypes(cols))
    ensures MarksRows(ret, s, cols, n, like)
  {
    hide TestBit, InnerColumn.Get, InnerColumn.Ok, EvalComparison, ComparisonTyped, NotByte, AndByte, OrByte;
    match s {
      case Comparison(column, op, value) =>
        ret := EvalColumn(op, value, cols[column], like, threads);
      case AndOp(l, r) =>
        var a := EvalTable(l, cols, n, like, threads);
        var b := EvalTable(r, cols, n, like, threads);
        ret := BitmapAnd(a, b, threads);
        forall i: nat | i < n ensures TestBit(ret, i) == (TestBit(a, i) && TestBit(b, i)) {
          ByteOperations(a, b, i);
          TestIsBit(ret, i);
        }
      case OrOp(l, r) =>
        var a := EvalTable(l, cols, n, like, threads);
        var b := EvalTable(r, cols, n, like, threads);
        ret := BitmapOr(a, b, threads);
        forall i: nat | i < n ensures TestBit(ret, i) == (TestBit(a, i) || TestBit(b, i)) {
          ByteOperations(a, b, i);
          TestIsBit(ret, i);
        }
      case NotOp(c) =>
        var a := EvalTable(c, cols, n, like, threads);
        ret := BitmapNot(a, threads);
        forall i: nat | i < n ensures TestBit(ret, i) == !TestBit(a, i) {
          ByteOperations(a, a, i);
          TestIsBit(ret, i);
        }
    }
  }
}

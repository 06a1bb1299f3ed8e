/** What a query plan means: naive evaluation by nested loops over decoded tables. */
module Relations {
  import opened Bags
  import opened Options
  import opened Pages
  import opened StringPages
  import opened Scan
  import opened Matching

  datatype Datum = Null | Int(i: I32) | Text(s: Str)

  type Row = seq<Datum>

  type Table = seq<TableColumn>

  datatype Attr = Attr(col: nat, dtype: DataType)

  /** A plan node; children are given by their position in the plan. */
  datatype Node =
    | ScanNode(table: nat, outs: seq<Attr>)
    | JoinNode(left: nat, right: nat, leftAttr: nat, rightAttr: nat, outs: seq<Attr>)

  datatype Plan = Plan(nodes: seq<Node>, inputs: seq<Table>) {
    /** Children precede parents, join keys are INT32, and attributes exist and have the stated type. */
    predicate NodeOk(i: nat)
      requires i < |nodes|
    {
      var node := nodes[i];
      node.outs != [] && match node {
        case ScanNode(t, outs) => t < |inputs| && AttrsOk(outs, TypesOf(inputs[t]))
        case JoinNode(l, r, la, ra, outs) =>
          && l < i && r < i && AttrsOk(outs, OutTypes(l) + OutTypes(r))
          && la < |OutTypes(l)| && OutTypes(l)[la] == INT32 && ra < |OutTypes(r)| && OutTypes(r)[ra] == INT32
      }
    }

    function OutTypes(i: nat): seq<DataType>
      requires i < |nodes|
    {
      var outs := nodes[i].outs;
      seq(|outs|, (o: int) requires 0 <= o < |outs| => outs[o].dtype)
    }

    ghost predicate WellFormed() {
      (forall i :: 0 <= i < |nodes| ==> NodeOk(i)) && forall t :: 0 <= t < |inputs| ==> TableOk(t)
    }

    /** The pages of each column are as the codec writes them, and the columns of a table have equally many rows. */
    ghost predicate TableOk(t: nat)
      requires t < |inputs|
    {
      && (forall c :: 0 <= c < |inputs[t]| ==> ColumnOk(t, c))
      && (forall c, d :: 0 <= c < |inputs[t]| && 0 <= d < |inputs[t]| ==>
            |Decoded(inputs[t][c])| == |Decoded(inputs[t][d])|)
    }

    /** String references have 16 bits each for table, column and page. */
    ghost predicate ColumnOk(t: nat, c: nat)
      requires t < |inputs| && c < |inputs[t]|
    {
      var pages := inputs[t][c].pages;
      match inputs[t][c].dtype
      case INT32 => IntColumnOk(pages)
      case VARCHAR =>
        && t < 0x1_0000 && c < 0x1_0000 && |pages| <= 0x1_0000
        && StringColumnOk(pages) && DecodeStringPages(pages).Some?
    }
  }

  function TypesOf(table: Table): seq<DataType> {
    seq(|table|, (c: int) requires 0 <= c < |table| => table[c].dtype)
  }

  predicate AttrsOk(outs: seq<Attr>, types: seq<DataType>) {
    forall o :: 0 <= o < |outs| ==> outs[o].col < |types| && types[outs[o].col] == outs[o].dtype
  }

  // The meaning of a plan.

  function IntDatum(row: Option<I32>): Datum {
    if row.Some? then Int(row.value) else Null
  }

  function StringDatum(row: Option<Str>): Datum {
    if row.Some? then Text(row.value) else Null
  }

  /** The rows of a stored column. */
  function Decoded(c: TableColumn): seq<Datum> {
    if c.dtype.INT32? then
      var rows := DecodeIntPages(c.pages);
      seq(|rows|, (r: int) requires 0 <= r < |rows| => IntDatum(rows[r]))
    else if DecodeStringPages(c.pages).Some? then
      var rows := DecodeStringPages(c.pages).value;
      seq(|rows|, (r: int) requires 0 <= r < |rows| => StringDatum(rows[r]))
    else []
  }

  function Project(row: Row, outs: seq<Attr>): Row {
    seq(|outs|, (o: int) requires 0 <= o < |outs| => if outs[o].col < |row| then row[outs[o].col] else Null)
  }

  function TableRow(table: Table, r: nat): Row {
    seq(|table|, (c: int) requires 0 <= c < |table| => if r < |Decoded(table[c])| then Decoded(table[c])[r] else Null)
  }

  function TableRows(table: Table): seq<Row> {
    if table == [] then [] else seq(|Decoded(table[0])|, (r: int) requires 0 <= r => TableRow(table, r))
  }

  /** A left and a right row join if their keys are equal and not null. */
  function JoinRow(node: Node, l: Row, r: Row): seq<Row>
    requires node.JoinNode?
  {
    if node.leftAttr < |l| && node.rightAttr < |r| && l[node.leftAttr].Int? && l[node.leftAttr] == r[node.rightAttr]
    then [Project(l + r, node.outs)] else []
  }

  ghost function NestedLoops(node: Node, left: seq<Row>, right: seq<Row>): seq<Row>
    requires node.JoinNode?
  {
    FlatMap(left, (l: Row) => FlatMap(right, (r: Row) => JoinRow(node, l, r)))
  }

  ghost function NaiveRows(plan: Plan, i: nat): seq<Row>
    requires plan.WellFormed() && i < |plan.nodes|
    decreases i
  {
    assert plan.NodeOk(i);
    var node := plan.nodes[i];
    match node
    case ScanNode(t, outs) =>
      var rows := TableRows(plan.inputs[t]);
      seq(|rows|, (r: int) requires 0 <= r < |rows| => Project(rows[r], outs))
    case JoinNode(l, r, la, ra, outs) => NestedLoops(node, NaiveRows(plan, l), NaiveRows(plan, r))
  }

  // Where result values come from.

  /** A column of an input table. */
  datatype Origin = Origin(table: nat, col: nat)

  /** For each output of node i, the input column that its values are read from. */
  ghost function Origins(plan: Plan, i: nat): (r: seq<Origin>)
    requires plan.WellFormed() && i < |plan.nodes|
    ensures |r| == |plan.nodes[i].outs|
    decreases i
  {
    assert plan.NodeOk(i);
    match plan.nodes[i]
    case ScanNode(t, outs) => seq(|outs|, (o: int) requires 0 <= o < |outs| => Origin(t, outs[o].col))
    case JoinNode(l, r, _, _, outs) =>
      var both := Origins(plan, l) + Origins(plan, r);
      assert |both| == |plan.OutTypes(l) + plan.OutTypes(r)|;
      seq(|outs|, (o: int) requires 0 <= o < |outs| => both[outs[o].col])
  }

  /** The input has this column, and it is of this type. */
  predicate HasColumn(inputs: seq<Table>, origin: Origin, dtype: DataType) {
    origin.table < |inputs| && origin.col < |inputs[origin.table]| && inputs[origin.table][origin.col].dtype == dtype
  }

  /** Origins exist and have the type of the output. */
  lemma {:induction false} OriginsExist(plan: Plan, i: nat, o: nat)
    requires plan.WellFormed() && i < |plan.nodes| && o < |plan.nodes[i].outs|
    ensures HasColumn(plan.inputs, Origins(plan, i)[o], plan.OutTypes(i)[o])
    decreases i
  {
    hide Plan.TableOk;
    assert plan.NodeOk(i);
    match plan.nodes[i]
    case ScanNode(t, outs) => assert TypesOf(plan.inputs[t])[outs[o].col] == outs[o].dtype;
    case JoinNode(l, r, _, _, outs) =>
      var n, col := |plan.OutTypes(l)|, outs[o].col;
      assert (plan.OutTypes(l) + plan.OutTypes(r))[col] == outs[o].dtype;
      if col < n { OriginsExist(plan, l, col); } else { OriginsExist(plan, r, col - n); }
  }

  // Nested loops and bags.

  ghost function JoinBag(node: Node, left: seq<Row>, right: seq<Row>): multiset<Row>
    requires node.JoinNode?
  {
    BagMap(left, (l: Row) => BagMap(right, (r: Row) => multiset(JoinRow(node, l, r))))
  }

  lemma NestedLoopsBag(node: Node, left: seq<Row>, right: seq<Row>)
    requires node.JoinNode?
    ensures multiset(NestedLoops(node, left, right)) == JoinBag(node, left, right)
  {
    var f, g := (l: Row) => FlatMap(right, (r: Row) => JoinRow(node, l, r)),
      (l: Row) => BagMap(right, (r: Row) => multiset(JoinRow(node, l, r)));
    forall l: Row ensures g(l) == multiset(f(l)) {
      FlatMapBag(right, (r: Row) => JoinRow(node, l, r), (r: Row) => multiset(JoinRow(node, l, r)));
    }
    FlatMapBag(left, f, g);
  }

  /** Which rows the inputs hold decides the result, not their order. */
  lemma JoinBagPermutation(node: Node, left: seq<Row>, right: seq<Row>, left': seq<Row>, right': seq<Row>)
    requires node.JoinNode? && multiset(left) == multiset(left') && multiset(right) == multiset(right')
    ensures JoinBag(node, left, right) == JoinBag(node, left', right')
  {
    var g, g' := (l: Row) => BagMap(right, (r: Row) => multiset(JoinRow(node, l, r))),
      (l: Row) => BagMap(right', (r: Row) => multiset(JoinRow(node, l, r)));
    forall l: Row ensures g(l) == g'(l) { BagMapPermutation(right, right', (r: Row) => multiset(JoinRow(node, l, r))); }
    BagMapEqual(left, g, g');
    BagMapPermutation(left, left', g');
  }

  /** A list of row pairs that is the bag of matches gives the bag of joined rows. */
  lemma PairsJoin(node: Node, left: seq<Row>, right: seq<Row>, lk: Keys, rk: Keys, pairs: seq<(nat, nat)>,
                  g: ((nat, nat)) -> multiset<Row>)
    requires node.JoinNode? && |lk| == |left| && |rk| == |right| && multiset(pairs) == Matches(lk, rk)
    requires forall l: nat, r: nat :: l < |left| && r < |right| ==>
      multiset(JoinRow(node, left[l], right[r])) == if (lk[l].Some? && lk[l] == rk[r]) then g((l, r)) else multiset{}
    ensures BagMap(pairs, g) == JoinBag(node, left, right)
  {
    var list := MatchList(lk, rk, |lk|);
    MatchListBag(lk, rk, |lk|, (l: nat) => LeftBag(lk, rk, l));
    BagMapPermutation(pairs, list, g);
    var inner := (l: Row) => BagMap(right, (r: Row) => multiset(JoinRow(node, l, r)));
    var f := (l: nat) => BagMap(LeftList(lk, rk, l, |rk|), g);
    forall l: nat | l < |left| ensures f(l) == inner(left[l]) {
      LeftRowJoins(node, left[l], right, lk, rk, l, g, (r: Row) => multiset(JoinRow(node, left[l], r)));
    }
    hide JoinRow, LeftList, OneList, BagMap, Sum;
    MatchListMap(lk, rk, |lk|, g, f);
    BagMapIsSum(left, inner, f);
  }

  /** The matches of one left row give the rows it joins to. */
  lemma LeftRowJoins(node: Node, row: Row, right: seq<Row>, lk: Keys, rk: Keys, l: nat,
                     g: ((nat, nat)) -> multiset<Row>, joins: Row -> multiset<Row>)
    requires node.JoinNode? && l < |lk| && |rk| == |right|
    requires forall r: nat :: r < |right| ==>
      joins(right[r]) == if (lk[l].Some? && lk[l] == rk[r]) then g((l, r)) else multiset{}
    ensures BagMap(LeftList(lk, rk, l, |rk|), g) == BagMap(right, joins)
  {
    var k := (r: nat) => BagMap(OneList(lk, rk, l, r), g);
    forall r: nat | r < |right| ensures k(r) == joins(right[r]) {
      if lk[l].Some? && lk[l] == rk[r] { BagMapOne((l, r), g); }
    }
    hide OneList, BagMap, LeftList, Sum;
    LeftListBag(lk, rk, l, |rk|, g, k);
    BagMapIsSum(right, joins, k);
  }

  lemma BagMapOne<S, T>(x: S, g: S -> multiset<T>)
    ensures BagMap([x], g) == g(x)
  {
    assert [x][..0] == [];
  }

  ghost function OneList(lk: Keys, rk: Keys, l: nat, r: nat): seq<(nat, nat)> {
    if l < |lk| && r < |rk| && lk[l].Some? && lk[l] == rk[r] then [(l, r)] else []
  }

  ghost function LeftList(lk: Keys, rk: Keys, l: nat, n: nat): seq<(nat, nat)> {
    if n == 0 then [] else LeftList(lk, rk, l, n - 1) + OneList(lk, rk, l, n - 1)
  }

  ghost function MatchList(lk: Keys, rk: Keys, m: nat): seq<(nat, nat)> {
    if m == 0 then [] else MatchList(lk, rk, m - 1) + LeftList(lk, rk, m - 1, |rk|)
  }

  lemma {:induction false} LeftListBag<T>(lk: Keys, rk: Keys, l: nat, n: nat, g: ((nat, nat)) -> multiset<T>,
                                          k: nat -> multiset<T>)
    requires forall r: nat :: r < n ==> k(r) == BagMap(OneList(lk, rk, l, r), g)
    ensures BagMap(LeftList(lk, rk, l, n), g) == Sum(k, n)
  {
    if n > 0 {
      LeftListBag(lk, rk, l, n - 1, g, k);
      BagMapCat(LeftList(lk, rk, l, n - 1), OneList(lk, rk, l, n - 1), g);
    }
  }

  lemma {:induction false} MatchListMap<T>(lk: Keys, rk: Keys, m: nat, g: ((nat, nat)) -> multiset<T>,
                                           f: nat -> multiset<T>)
    requires forall l: nat :: l < m ==> f(l) == BagMap(LeftList(lk, rk, l, |rk|), g)
    ensures BagMap(MatchList(lk, rk, m), g) == Sum(f, m)
  {
    hide Sum, LeftList, MatchList, BagMap;
    if m == 0 {
      SumNone(f);
      NoMatches(lk, rk, g);
    } else {
      SumNext(f, m - 1);
      MatchListMap(lk, rk, m - 1, g, f);
      MatchListNext(lk, rk, m - 1);
      BagMapCat(MatchList(lk, rk, m - 1), LeftList(lk, rk, m - 1, |rk|), g);
    }
  }

  lemma NoMatches<T>(lk: Keys, rk: Keys, g: ((nat, nat)) -> multiset<T>)
    ensures BagMap(MatchList(lk, rk, 0), g) == multiset{}
  {
  }

  lemma MatchListNext(lk: Keys, rk: Keys, m: nat)
    ensures MatchList(lk, rk, m + 1) == MatchList(lk, rk, m) + LeftList(lk, rk, m, |rk|)
  {
  }

  lemma {:induction false} LeftListIs(lk: Keys, rk: Keys, l: nat, n: nat, k: nat -> multiset<(nat, nat)>)
    requires forall r: nat :: k(r) == OnePair(lk, rk, l, r)
    ensures multiset(LeftList(lk, rk, l, n)) == Sum(k, n)
  {
    if n > 0 { LeftListIs(lk, rk, l, n - 1, k); }
  }

  lemma {:induction false} MatchListBag(lk: Keys, rk: Keys, m: nat, f: nat -> multiset<(nat, nat)>)
    requires forall l: nat :: f(l) == LeftBag(lk, rk, l)
    ensures multiset(MatchList(lk, rk, m)) == Sum(f, m)
  {
    hide Sum, LeftList;
    SumNone(f);
    if m > 0 {
      SumNext(f, m - 1);
      MatchListBag(lk, rk, m - 1, f);
      LeftListIs(lk, rk, m - 1, |rk|, (r: nat) => OnePair(lk, rk, m - 1, r));
    }
  }
}

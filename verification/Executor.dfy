/** execute_impl: evaluating a plan with hash joins gives the same bag of rows as naive evaluation. */
module Executor {
  import opened Bags
  import opened Options
  import opened Pages
  import opened StringPages
  import opened Columns
  import opened Scan
  import opened Matching
  import opened Results
  import opened Join
  import opened Relations

  function StringRow(inputs: seq<Table>, v: Value): Option<Str> {
    if v.TableId() < |inputs| && v.ColId() < |inputs[v.TableId()]|
      && v.PageId() < |inputs[v.TableId()][v.ColId()].pages|
      && v.Offset() >= 4
    then Resolve(inputs[v.TableId()][v.ColId()].pages, v)
    else None
  }

  /** What a value stands for; a string is looked up in the table it refers to. */
  function Denote(inputs: seq<Table>, dtype: DataType, v: Value): Datum {
    match dtype
    case INT32 => IntDatum(IntRow(v))
    case VARCHAR => StringDatum(StringRow(inputs, v))
  }

  /** An integer's status is 0 or 1; a string reference names a place in the string column it originates from. */
  ghost predicate WellTyped(inputs: seq<Table>, dtype: DataType, origin: Origin, v: Value) {
    match dtype
    case INT32 => v.Status() <= 1
    case VARCHAR =>
      && HasColumn(inputs, origin, VARCHAR) && v.TableId() == origin.table && v.ColId() == origin.col
      && var pages := inputs[v.TableId()][v.ColId()].pages;
         v.PageId() < |pages| && v.Offset() >= 4 && Refers(v.TableId(), v.ColId(), pages, v, Resolve(pages, v))
  }

  ghost predicate AllTyped(inputs: seq<Table>, dtype: DataType, origin: Origin, c: Column)
    requires c.Ok()
  {
    forall r :: 0 <= r < c.numRows ==> WellTyped(inputs, dtype, origin, c.GetValue(r))
  }

  ghost predicate Typed(inputs: seq<Table>, types: seq<DataType>, origins: seq<Origin>, cols: seq<Column>) {
    |types| == |origins| == |cols| && forall o :: 0 <= o < |cols| ==>
      cols[o].Ok() && AllTyped(inputs, types[o], origins[o], cols[o])
  }

  /** The columns have n rows each. */
  ghost predicate Aligned(cols: seq<Column>, n: nat) {
    forall o :: 0 <= o < |cols| ==> cols[o].Ok() && cols[o].numRows == n
  }

  function DenotedRow(inputs: seq<Table>, types: seq<DataType>, cols: seq<Column>, n: nat, r: nat): Row
    requires |types| == |cols| && Aligned(cols, n) && r < n
  {
    seq(|cols|, (o: int) requires 0 <= o < |cols| => Denote(inputs, types[o], cols[o].GetValue(r)))
  }

  /** The rows that a list of columns stands for. */
  function DenotedRows(inputs: seq<Table>, types: seq<DataType>, cols: seq<Column>, n: nat): seq<Row>
    requires |types| == |cols| && Aligned(cols, n)
  {
    seq(n, (r: int) requires 0 <= r < n => DenotedRow(inputs, types, cols, n, r))
  }

  /** Every join of the plan has an input of fewer than 2^30 rows, the most that the hash table can index. */
  ghost predicate Buildable(plan: Plan)
    requires plan.WellFormed()
  {
    forall i :: 0 <= i < |plan.nodes| && plan.nodes[i].JoinNode? ==> JoinBuildable(plan, i)
  }

  ghost predicate JoinBuildable(plan: Plan, i: nat)
    requires plan.WellFormed() && i < |plan.nodes| && plan.nodes[i].JoinNode?
  {
    assert plan.NodeOk(i);
    |NaiveRows(plan, plan.nodes[i].left)| < 0x4000_0000 || |NaiveRows(plan, plan.nodes[i].right)| < 0x4000_0000
  }

  // Scans.

  lemma IntsDenote(inputs: seq<Table>, origin: Origin, c: Column, col: TableColumn)
    requires c.Ok() && col.dtype == INT32 && AreInts(Flatten(c.Units()), DecodeIntPages(col.pages))
    ensures c.numRows == |Decoded(col)|
    ensures AllTyped(inputs, INT32, origin, c)
    ensures forall r :: 0 <= r < c.numRows ==> Denote(inputs, INT32, c.GetValue(r)) == Decoded(col)[r]
  {
    hide DecodeIntPages, Flatten, Column.Ok, Column.Units, Column.GetValue;
    UnitsFlat(c);
    forall r | 0 <= r < c.numRows
      ensures WellTyped(inputs, INT32, origin, c.GetValue(r)) && Denote(inputs, INT32, c.GetValue(r)) == Decoded(col)[r]
    {
      GetValueIs(c, r);
    }
  }

  lemma StringsDenote(inputs: seq<Table>, t: nat, k: nat, c: Column)
    requires t < |inputs| && k < |inputs[t]| && t < 0x1_0000 && k < 0x1_0000 && inputs[t][k].dtype == VARCHAR && c.Ok()
    requires var pages := inputs[t][k].pages;
      DecodeStringPages(pages).Some? && AreRefs(t, k, pages, Flatten(c.Units()), DecodeStringPages(pages).value)
    ensures c.numRows == |Decoded(inputs[t][k])| && AllTyped(inputs, VARCHAR, Origin(t, k), c)
    ensures forall r :: 0 <= r < c.numRows ==> Denote(inputs, VARCHAR, c.GetValue(r)) == Decoded(inputs[t][k])[r]
  {
    hide DecodeStringPages, Flatten, Column.Ok, Column.Units, Column.GetValue, Resolve;
    UnitsFlat(c);
    var rows := DecodeStringPages(inputs[t][k].pages).value;
    forall r | 0 <= r < c.numRows
      ensures WellTyped(inputs, VARCHAR, Origin(t, k), c.GetValue(r))
      ensures Denote(inputs, VARCHAR, c.GetValue(r)) == Decoded(inputs[t][k])[r]
    {
      GetValueIs(c, r);
      assert Refers(t, k, inputs[t][k].pages, c.GetValue(r), rows[r]);
    }
  }

  method ScanColumn(plan: Plan, t: nat, k: nat) returns (c: Column)
    requires t < |plan.inputs| && k < |plan.inputs[t]| && plan.ColumnOk(t, k)
    ensures c.Ok() && c.numRows == |Decoded(plan.inputs[t][k])|
    ensures AllTyped(plan.inputs, plan.inputs[t][k].dtype, Origin(t, k), c)
    ensures forall r :: 0 <= r < c.numRows ==>
      Denote(plan.inputs, plan.inputs[t][k].dtype, c.GetValue(r)) == Decoded(plan.inputs[t][k])[r]
  {
    hide IntColumnOk, StringColumnOk, DecodeStringPages, DecodeIntPages, Flatten, Column.Ok, Column.Units,
      Column.GetValue, Resolve, Decoded, Denote, AreInts, AreRefs, WellTyped;
    var col := plan.inputs[t][k];
    match col.dtype {
      case INT32 =>
        c := BuildIntColumn(col.pages);
        IntsDenote(plan.inputs, Origin(t, k), c, col);
      case VARCHAR =>
        c := BuildStringColumn(t, k, col.pages);
        StringsDenote(plan.inputs, t, k, c);
    }
  }

  /** execute_scan: the columns stand for the projected table rows, in order. */
  method ExecuteScan(plan: Plan, i: nat) returns (cols: seq<Column>, n: nat)
    requires plan.WellFormed() && i < |plan.nodes| && plan.nodes[i].ScanNode?
    ensures |cols| == |plan.nodes[i].outs| && Aligned(cols, n)
    ensures Typed(plan.inputs, plan.OutTypes(i), Origins(plan, i), cols)
    ensures DenotedRows(plan.inputs, plan.OutTypes(i), cols, n) == NaiveRows(plan, i)
  {
    hide Column.Ok, Column.GetValue, Decoded, Denote, Plan.ColumnOk, AllTyped;
    var node := plan.nodes[i];
    assert plan.NodeOk(i) && plan.TableOk(node.table);
    ghost var table := plan.inputs[node.table];
    assert node.outs[0].col < |table|;
    n := 0;
    cols := [];
    for o := 0 to |node.outs|
      invariant |cols| == o && Aligned(cols, |Decoded(table[0])|) && (o > 0 ==> n == |Decoded(table[0])|)
      invariant forall p :: 0 <= p < o ==>
        AllTyped(plan.inputs, node.outs[p].dtype, Origin(node.table, node.outs[p].col), cols[p])
      invariant forall p, r {:trigger cols[p].GetValue(r)} :: 0 <= p < o && 0 <= r < cols[p].numRows ==>
        Denote(plan.inputs, node.outs[p].dtype, cols[p].GetValue(r)) == Decoded(table[node.outs[p].col])[r]
    {
      assert plan.ColumnOk(node.table, node.outs[o].col);
      var c := ScanColumn(plan, node.table, node.outs[o].col);
      cols := cols + [c];
      n := c.numRows;
    }
    forall r | 0 <= r < n
      ensures DenotedRow(plan.inputs, plan.OutTypes(i), cols, n, r) == Project(TableRow(table, r), node.outs)
    {
    }
  }

  // Joins.

  lemma {:induction false} BagOfMap<S, T>(xs: seq<S>, ys: seq<T>, g: S -> multiset<T>)
    requires |ys| == |xs| && forall i :: 0 <= i < |xs| ==> g(xs[i]) == multiset{ys[i]}
    ensures multiset(ys) == BagMap(xs, g)
  {
    if xs != [] {
      var n := |xs| - 1;
      BagOfMap(xs[..n], ys[..n], g);
      assert ys == ys[..n] + [ys[n]];
    }
  }

  function AttrColumns(outs: seq<Attr>): seq<nat> {
    seq(|outs|, (o: int) requires 0 <= o < |outs| => outs[o].col)
  }

  /** Two rows join exactly if the key columns hold equal keys. */
  lemma KeysDecide(plan: Plan, i: nat, left: seq<Column>, right: seq<Column>, ln: nat, rn: nat, l: nat, r: nat)
    requires i < |plan.nodes| && plan.nodes[i].JoinNode? && plan.NodeOk(i)
    requires |left| == |plan.OutTypes(plan.nodes[i].left)| && |right| == |plan.OutTypes(plan.nodes[i].right)|
    requires Aligned(left, ln) && Aligned(right, rn) && l < ln && r < rn
    ensures var node := plan.nodes[i];
      var lrow := DenotedRow(plan.inputs, plan.OutTypes(node.left), left, ln, l);
      var rrow := DenotedRow(plan.inputs, plan.OutTypes(node.right), right, rn, r);
      var lk, rk := KeysOf(left[node.leftAttr]), KeysOf(right[node.rightAttr]);
      JoinRow(node, lrow, rrow) == if lk[l].Some? && lk[l] == rk[r] then [Project(lrow + rrow, node.outs)] else []
  {
    hide Column.Ok, Column.GetValue, Value.IntVal, AttrsOk, Project;
  }

  /** Both inputs of a join, as their plan nodes describe them. */
  ghost predicate InputsAre(plan: Plan, i: nat, sides: Sides)
    requires i < |plan.nodes|
  {
    && plan.nodes[i].JoinNode? && plan.NodeOk(i) && sides.Ok()
    && |sides.left| == |plan.OutTypes(plan.nodes[i].left)| && |sides.right| == |plan.OutTypes(plan.nodes[i].right)|
    && sides.attrs == AttrColumns(plan.nodes[i].outs)
  }

  /** A cell of a result row is the cell of the pair's left or right row that the output attribute names. */
  lemma ResultCell(plan: Plan, i: nat, sides: Sides, c: Column, pairs: Pairs, k: nat, o: nat)
    requires i < |plan.nodes| && InputsAre(plan, i, sides) && sides.InRange(pairs) && k < |pairs| && o < |sides.attrs|
    requires ColumnHolds(sides, o, c, pairs)
    ensures c.Ok() && k < c.numRows == |pairs|
    ensures var node := plan.nodes[i];
      var lrow := DenotedRow(plan.inputs, plan.OutTypes(node.left), sides.left, sides.leftRows, pairs[k].0);
      var rrow := DenotedRow(plan.inputs, plan.OutTypes(node.right), sides.right, sides.rightRows, pairs[k].1);
      node.outs[o].col < |lrow + rrow|
        && Denote(plan.inputs, plan.OutTypes(i)[o], c.GetValue(k)) == (lrow + rrow)[node.outs[o].col]
  {
    hide Column.Ok, Column.GetValue, Column.Units, Flatten, Denote;
    GetValueIs(c, k);
    assert c.GetValue(k) == sides.OutValue(o, pairs[k].0, pairs[k].1);
    var types := plan.OutTypes(plan.nodes[i].left) + plan.OutTypes(plan.nodes[i].right);
    assert plan.OutTypes(i)[o] == types[sides.attrs[o]];
  }

  /** A result row is the projection of the pair's left and right rows. */
  lemma ResultRow(plan: Plan, i: nat, sides: Sides, results: seq<Column>, pairs: Pairs, k: nat)
    requires i < |plan.nodes| && InputsAre(plan, i, sides) && sides.InRange(pairs) && k < |pairs|
    requires |results| == |sides.attrs|
    requires forall o :: 0 <= o < |results| ==> ColumnHolds(sides, o, results[o], pairs)
    ensures Aligned(results, |pairs|)
    ensures var node := plan.nodes[i];
      var lrow := DenotedRow(plan.inputs, plan.OutTypes(node.left), sides.left, sides.leftRows, pairs[k].0);
      var rrow := DenotedRow(plan.inputs, plan.OutTypes(node.right), sides.right, sides.rightRows, pairs[k].1);
      DenotedRow(plan.inputs, plan.OutTypes(i), results, |pairs|, k) == Project(lrow + rrow, node.outs)
  {
    hide Column.Ok, Column.GetValue, Denote, ColumnHolds, AttrsOk;
    var node := plan.nodes[i];
    AllHeld(sides, results, pairs);
    forall o | 0 <= o < |results|
      ensures Denote(plan.inputs, plan.OutTypes(i)[o], results[o].GetValue(k))
           == Project(DenotedRow(plan.inputs, plan.OutTypes(node.left), sides.left, sides.leftRows, pairs[k].0)
                        + DenotedRow(plan.inputs, plan.OutTypes(node.right), sides.right, sides.rightRows,
                          pairs[k].1), node.outs)[o]
    {
      ResultCell(plan, i, sides, results[o], pairs, k, o);
    }
  }

  function PairRow(node: Node, lrows: seq<Row>, rrows: seq<Row>, p: (nat, nat)): Row {
    if p.0 < |lrows| && p.1 < |rrows| then Project(lrows[p.0] + rrows[p.1], node.outs) else []
  }

  /** The keys of the rows decide which rows join. */
  ghost predicate Keyed(node: Node, lrows: seq<Row>, rrows: seq<Row>, lk: Keys, rk: Keys)
    requires node.JoinNode?
  {
    && |lk| == |lrows| && |rk| == |rrows|
    && forall l: nat, r: nat :: l < |lrows| && r < |rrows| ==>
         JoinRow(node, lrows[l], rrows[r]) ==
           if lk[l].Some? && lk[l] == rk[r] then [PairRow(node, lrows, rrows, (l, r))] else []
  }

  lemma JoinIsNaive(node: Node, lrows: seq<Row>, rrows: seq<Row>, lnaive: seq<Row>, rnaive: seq<Row>, lk: Keys,
                    rk: Keys, pairs: Pairs, rows: seq<Row>)
    requires node.JoinNode? && Keyed(node, lrows, rrows, lk, rk)
    requires multiset(lrows) == multiset(lnaive) && multiset(rrows) == multiset(rnaive)
    requires multiset(pairs) == Matches(lk, rk)
    requires |rows| == |pairs| && forall k :: 0 <= k < |pairs| ==> rows[k] == PairRow(node, lrows, rrows, pairs[k])
    ensures multiset(rows) == multiset(NestedLoops(node, lnaive, rnaive))
  {
    hide PairRow, Matches, JoinBag, NestedLoops, JoinRow, BagMap;
    var g := (p: (nat, nat)) => multiset{PairRow(node, lrows, rrows, p)};
    NestedLoopsBag(node, lnaive, rnaive);
    JoinBagPermutation(node, lrows, rrows, lnaive, rnaive);
    forall l: nat, r: nat | l < |lrows| && r < |rrows|
      ensures multiset(JoinRow(node, lrows[l], rrows[r])) ==
        if lk[l].Some? && lk[l] == rk[r] then g((l, r)) else multiset{}
    {
    }
    PairsJoin(node, lrows, rrows, lk, rk, pairs, g);
    BagOfMap(pairs, rows, g);
  }

  ghost function LeftRows(plan: Plan, i: nat, sides: Sides): seq<Row>
    requires i < |plan.nodes| && InputsAre(plan, i, sides)
  {
    DenotedRows(plan.inputs, plan.OutTypes(plan.nodes[i].left), sides.left, sides.leftRows)
  }

  ghost function RightRows(plan: Plan, i: nat, sides: Sides): seq<Row>
    requires i < |plan.nodes| && InputsAre(plan, i, sides)
  {
    DenotedRows(plan.inputs, plan.OutTypes(plan.nodes[i].right), sides.right, sides.rightRows)
  }

  lemma RowsAreKeyed(plan: Plan, i: nat, sides: Sides)
    requires i < |plan.nodes| && InputsAre(plan, i, sides)
    ensures var node := plan.nodes[i];
      Keyed(node, LeftRows(plan, i, sides), RightRows(plan, i, sides),
            KeysOf(sides.left[node.leftAttr]), KeysOf(sides.right[node.rightAttr]))
  {
    hide Column.Ok, Column.GetValue, AttrsOk, Project, JoinRow, DenotedRow;
    var node := plan.nodes[i];
    forall l: nat, r: nat | l < sides.leftRows && r < sides.rightRows
      ensures var lrows, rrows := LeftRows(plan, i, sides), RightRows(plan, i, sides);
        var lk, rk := KeysOf(sides.left[node.leftAttr]), KeysOf(sides.right[node.rightAttr]);
        JoinRow(node, lrows[l], rrows[r]) ==
          if lk[l].Some? && lk[l] == rk[r] then [PairRow(node, lrows, rrows, (l, r))] else []
    {
      KeysDecide(plan, i, sides.left, sides.right, sides.leftRows, sides.rightRows, l, r);
    }
  }

  lemma ResultRows(plan: Plan, i: nat, sides: Sides, results: seq<Column>, pairs: Pairs)
    requires i < |plan.nodes| && InputsAre(plan, i, sides) && sides.InRange(pairs) && |results| == |sides.attrs|
    requires forall o :: 0 <= o < |results| ==> ColumnHolds(sides, o, results[o], pairs)
    ensures Aligned(results, |pairs|)
    ensures var rows := DenotedRows(plan.inputs, plan.OutTypes(i), results, |pairs|);
      forall k :: 0 <= k < |pairs| ==>
        rows[k] == PairRow(plan.nodes[i], LeftRows(plan, i, sides), RightRows(plan, i, sides), pairs[k])
  {
    AllHeld(sides, results, pairs);
    hide Column.Ok, ColumnHolds, Project, DenotedRow, Plan.NodeOk;
    forall k | 0 <= k < |pairs|
      ensures DenotedRow(plan.inputs, plan.OutTypes(i), results, |pairs|, k)
           == PairRow(plan.nodes[i], LeftRows(plan, i, sides), RightRows(plan, i, sides), pairs[k])
    {
      ResultRow(plan, i, sides, results, pairs, k);
    }
  }

  /** Result columns hold values of the input columns, and values keep their origin. */
  lemma ResultTyped(plan: Plan, i: nat, sides: Sides, results: seq<Column>, pairs: Pairs)
    requires plan.WellFormed() && i < |plan.nodes| && InputsAre(plan, i, sides) && sides.InRange(pairs)
    requires |results| == |sides.attrs|
    requires Typed(plan.inputs, plan.OutTypes(plan.nodes[i].left), Origins(plan, plan.nodes[i].left), sides.left)
    requires Typed(plan.inputs, plan.OutTypes(plan.nodes[i].right), Origins(plan, plan.nodes[i].right), sides.right)
    requires forall o :: 0 <= o < |results| ==> ColumnHolds(sides, o, results[o], pairs)
    ensures Typed(plan.inputs, plan.OutTypes(i), Origins(plan, i), results)
  {
    hide AllTyped, Column.Ok, Column.GetValue, Column.Units, Flatten, WellTyped, Plan.WellFormed, ColumnHolds;
    AllHeld(sides, results, pairs);
    forall o | 0 <= o < |results| ensures AllTyped(plan.inputs, plan.OutTypes(i)[o], Origins(plan, i)[o], results[o]) {
      ColumnTyped(plan, i, sides, results[o], pairs, o);
    }
  }

  /** A result column has the values, and hence the type and the origin, of the column that its attribute names. */
  lemma ColumnTyped(plan: Plan, i: nat, sides: Sides, c: Column, pairs: Pairs, o: nat)
    requires plan.WellFormed() && i < |plan.nodes| && InputsAre(plan, i, sides) && sides.InRange(pairs)
    requires o < |sides.attrs| && ColumnHolds(sides, o, c, pairs)
    requires Typed(plan.inputs, plan.OutTypes(plan.nodes[i].left), Origins(plan, plan.nodes[i].left), sides.left)
    requires Typed(plan.inputs, plan.OutTypes(plan.nodes[i].right), Origins(plan, plan.nodes[i].right), sides.right)
    ensures AllTyped(plan.inputs, plan.OutTypes(i)[o], Origins(plan, i)[o], c)
  {
    hide Column.Ok, Column.GetValue, Column.Units, Flatten, WellTyped, Plan.WellFormed;
    var types := plan.OutTypes(plan.nodes[i].left) + plan.OutTypes(plan.nodes[i].right);
    var origins := Origins(plan, plan.nodes[i].left) + Origins(plan, plan.nodes[i].right);
    assert plan.OutTypes(i)[o] == types[sides.attrs[o]] && Origins(plan, i)[o] == origins[sides.attrs[o]];
    forall k | 0 <= k < |pairs|
      ensures WellTyped(plan.inputs, plan.OutTypes(i)[o], Origins(plan, i)[o], c.GetValue(k))
    {
      GetValueIs(c, k);
      assert c.GetValue(k) == sides.OutValue(o, pairs[k].0, pairs[k].1);
    }
  }

  lemma AllHeld(sides: Sides, results: seq<Column>, pairs: Pairs)
    requires forall o :: 0 <= o < |results| ==> ColumnHolds(sides, o, results[o], pairs)
    ensures Aligned(results, |pairs|)
  {
    hide Column.Ok;
    forall o | 0 <= o < |results| ensures results[o].Ok() && results[o].numRows == |pairs| {
      assert ColumnHolds(sides, o, results[o], pairs);
    }
  }

  /** execute_hash_join. */
  method ExecuteHashJoin(env: Env, plan: Plan, i: nat) returns (cols: seq<Column>, n: nat)
    requires env.Ok() && plan.WellFormed() && Buildable(plan) && i < |plan.nodes| && plan.nodes[i].JoinNode?
    ensures |cols| == |plan.nodes[i].outs| && Aligned(cols, n)
    ensures Typed(plan.inputs, plan.OutTypes(i), Origins(plan, i), cols)
    ensures multiset(DenotedRows(plan.inputs, plan.OutTypes(i), cols, n)) == multiset(NaiveRows(plan, i))
    decreases i, 0
  {
    hide Env.Ok, Column.Ok, Column.GetValue, Denote, NaiveRows, Plan.WellFormed, Matches, AttrsOk, ColumnHolds, Typed;
    JoinNodeIs(plan, i);
    var node := plan.nodes[i];
    var left, ln := ExecuteImpl(env, plan, node.left);
    var right, rn := ExecuteImpl(env, plan, node.right);
    var sides := Sides(left, right, ln, rn, AttrColumns(node.outs));
    SameSize(DenotedRows(plan.inputs, plan.OutTypes(node.left), left, ln), NaiveRows(plan, node.left));
    SameSize(DenotedRows(plan.inputs, plan.OutTypes(node.right), right, rn), NaiveRows(plan, node.right));
    ghost var pairs;
    cols, pairs := Run(env, left, right, node.leftAttr, node.rightAttr, sides.attrs);
    n := cols[0].numRows;
    RowsAreKeyed(plan, i, sides);
    ResultRows(plan, i, sides, cols, pairs);
    ResultTyped(plan, i, sides, cols, pairs);
    JoinIsNaive(node, LeftRows(plan, i, sides), RightRows(plan, i, sides), NaiveRows(plan, node.left),
      NaiveRows(plan, node.right), KeysOf(left[node.leftAttr]), KeysOf(right[node.rightAttr]), pairs,
                DenotedRows(plan.inputs, plan.OutTypes(i), cols, n));
  }

  lemma SameSize<T>(a: seq<T>, b: seq<T>)
    requires multiset(a) == multiset(b)
    ensures |a| == |b|
  {
    assert |multiset(a)| == |a| && |multiset(b)| == |b|;
  }

  lemma JoinNodeIs(plan: Plan, i: nat)
    requires plan.WellFormed() && Buildable(plan) && i < |plan.nodes| && plan.nodes[i].JoinNode?
    ensures plan.NodeOk(i) && JoinBuildable(plan, i)
    ensures NaiveRows(plan, i) == NestedLoops(plan.nodes[i], NaiveRows(plan, plan.nodes[i].left),
      NaiveRows(plan, plan.nodes[i].right))
    ensures forall o :: 0 <= o < |plan.nodes[i].outs| ==>
      AttrColumns(plan.nodes[i].outs)[o] < |plan.OutTypes(plan.nodes[i].left)| + |plan.OutTypes(plan.nodes[i].right)|
  {
    hide NestedLoops;
    assert plan.NodeOk(i) && JoinBuildable(plan, i);
  }

  /** execute_impl: evaluated with hash joins, a plan yields the rows of naive evaluation, each as often. */
  method ExecuteImpl(env: Env, plan: Plan, i: nat) returns (cols: seq<Column>, n: nat)
    requires env.Ok() && plan.WellFormed() && Buildable(plan) && i < |plan.nodes|
    ensures |cols| == |plan.nodes[i].outs| && Aligned(cols, n)
    ensures Typed(plan.inputs, plan.OutTypes(i), Origins(plan, i), cols)
    ensures multiset(DenotedRows(plan.inputs, plan.OutTypes(i), cols, n)) == multiset(NaiveRows(plan, i))
    decreases i, 1
  {
    hide Env.Ok, Plan.WellFormed, Aligned, DenotedRows, NaiveRows, Buildable, Typed;
    match plan.nodes[i] {
      case ScanNode(_, _) => cols, n := ExecuteScan(plan, i);
      case JoinNode(_, _, _, _, _) => cols, n := ExecuteHashJoin(env, plan, i);
    }
  }
}

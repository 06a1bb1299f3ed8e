/** Output columns of a join: each thread appends to its own columns, and at the end they are copied, thread after
    thread, into full buffers. */
module Results {
  import opened Bags
  import opened Columns

  type Pairs = seq<(nat, nat)>

  /** The two inputs of a join, and for every output attribute the column it is taken from, counted over left ++
      right. */
  datatype Sides = Sides(left: seq<Column>, right: seq<Column>, leftRows: nat, rightRows: nat, attrs: seq<nat>) {
    ghost predicate Ok() {
      && (forall i :: 0 <= i < |left| ==> left[i].Ok() && left[i].numRows == leftRows)
      && (forall i :: 0 <= i < |right| ==> right[i].Ok() && right[i].numRows == rightRows)
      && (forall o :: 0 <= o < |attrs| ==> attrs[o] < |left| + |right|)
    }

    ghost predicate InRange(pairs: Pairs) {
      forall i :: 0 <= i < |pairs| ==> pairs[i].0 < leftRows && pairs[i].1 < rightRows
    }

    /** Output attribute o of the join pair (l, r). */
    function OutValue(o: nat, l: nat, r: nat): Value
      requires Ok() && o < |attrs| && l < leftRows && r < rightRows
    {
      if attrs[o] < |left| then left[attrs[o]].GetValue(l) else right[attrs[o] - |left|].GetValue(r)
    }

    ghost function OutColumn(o: nat, pairs: Pairs): seq<Value>
      requires Ok() && o < |attrs| && InRange(pairs)
    {
      seq(|pairs|, (i: int) requires 0 <= i < |pairs| => OutValue(o, pairs[i].0, pairs[i].1))
    }
  }

  lemma OutColumnNext(s: Sides, o: nat, pairs: Pairs, l: nat, r: nat)
    requires s.Ok() && o < |s.attrs| && s.InRange(pairs) && l < s.leftRows && r < s.rightRows
    ensures s.InRange(pairs + [(l, r)])
    ensures s.OutColumn(o, pairs + [(l, r)]) == s.OutColumn(o, pairs) + [s.OutValue(o, l, r)]
  {
    hide Column.Ok, Column.GetValue;
    assert forall i :: 0 <= i < |pairs| ==> (pairs + [(l, r)])[i] == pairs[i];
  }

  lemma OutColumnCat(s: Sides, o: nat, a: Pairs, b: Pairs)
    requires s.Ok() && o < |s.attrs| && s.InRange(a) && s.InRange(b)
    ensures s.InRange(a + b) && s.OutColumn(o, a + b) == s.OutColumn(o, a) + s.OutColumn(o, b)
  {
    hide Column.Ok, Column.GetValue;
  }

  /** A column of one thread's results. */
  ghost predicate ColumnIs(s: Sides, o: nat, buffers: seq<seq<Value>>, count: nat, pairs: Pairs)
    requires s.Ok() && o < |s.attrs|
  {
    s.InRange(pairs) && Packed(buffers) && count == |pairs| && Flatten(buffers) == s.OutColumn(o, pairs)
  }

  lemma ColumnPush(s: Sides, o: nat, buffers: seq<seq<Value>>, count: nat, pairs: Pairs, l: nat, r: nat)
    requires s.Ok() && o < |s.attrs| && ColumnIs(s, o, buffers, count, pairs) && l < s.leftRows && r < s.rightRows
    ensures ColumnIs(s, o, Push(buffers, s.OutValue(o, l, r)), count + 1, pairs + [(l, r)])
  {
    hide Packed, Push, Flatten, Sides.Ok, Sides.OutColumn;
    PushAppends(buffers, s.OutValue(o, l, r));
    OutColumnNext(s, o, pairs, l, r);
  }

  /** thread_results[t]. */
  class ResultSet {
    const sides: Sides
    var columns: seq<seq<seq<Value>>>
    var numRows: seq<nat>
    ghost var pairs: Pairs

    ghost predicate Valid()
      reads this
    {
      && sides.Ok() && sides.InRange(pairs) && |columns| == |numRows| == |sides.attrs|
      && forall o :: 0 <= o < |columns| ==> ColumnIs(sides, o, columns[o], numRows[o], pairs)
    }

    constructor (sides: Sides)
      requires sides.Ok()
      ensures Valid() && pairs == [] && this.sides == sides
    {
      this.sides := sides;
      columns, numRows := seq(|sides.attrs|, o => []), seq(|sides.attrs|, o => 0);
      pairs := [];
      new;
      assert forall o :: 0 <= o < |sides.attrs| ==> sides.OutColumn(o, []) == [];
    }

    /** One join pair: its value in every output column. */
    method Emit(l: nat, r: nat)
      requires Valid() && l < sides.leftRows && r < sides.rightRows
      modifies this
      ensures Valid() && pairs == old(pairs) + [(l, r)]
    {
      hide ColumnIs, Push, Sides.Ok, Sides.OutValue;
      ghost var pairs' := pairs + [(l, r)];
      for o := 0 to |columns|
        invariant |columns| == |numRows| == |sides.attrs| && sides.Ok() && pairs == old(pairs)
        invariant forall k :: 0 <= k < |columns| ==>
          ColumnIs(sides, k, columns[k], numRows[k], if k < o then pairs' else pairs)
      {
        ColumnPush(sides, o, columns[o], numRows[o], pairs, l, r);
        columns := columns[o := Push(columns[o], sides.OutValue(o, l, r))];
        numRows := numRows[o := numRows[o] + 1];
      }
      pairs := pairs';
    }
  }

  lemma FlattenLast<T>(lists: seq<seq<T>>, last: seq<T>)
    ensures Flatten(lists + [last]) == Flatten(lists) + last
  {
    FlattenCat(lists, [last]);
    assert Flatten([last]) == last;
  }

  lemma MergeValue<T>(full: seq<T>, current: seq<T>, before: seq<T>, buf: seq<T>, i: nat)
    requires i < |buf| && full + current == before + buf[..i]
    ensures full + (current + [buf[i]]) == before + buf[..i + 1]
  {
    assert full + (current + [buf[i]]) == (full + current) + [buf[i]];
  }

  /** The buffers put away are full, and the one being filled is there if any was. */
  ghost predicate Merging(buffers: seq<seq<Value>>, current: seq<Value>) {
    && (forall b :: 0 <= b < |buffers| ==> |buffers[b]| == BUFFER_SIZE) && |current| <= BUFFER_SIZE
    && (buffers != [] ==> current != [])
  }

  /** Copying values behind those already merged. */
  method MergeBuffer(buffers: seq<seq<Value>>, current: seq<Value>, buf: seq<Value>)
      returns (buffers': seq<seq<Value>>, current': seq<Value>)
    requires Merging(buffers, current)
    ensures Merging(buffers', current') && Flatten(buffers') + current' == Flatten(buffers) + current + buf
  {
    hide Flatten;
    buffers', current' := buffers, current;
    ghost var before := Flatten(buffers) + current;
    assert before + [] == before;
    for i := 0 to |buf|
      invariant Merging(buffers', current')
      invariant Flatten(buffers') + current' == before + buf[..i]
    {
      if |current'| == BUFFER_SIZE {
        FlattenLast(buffers', current');
        buffers', current' := buffers' + [current'], [];
      }
      MergeValue(Flatten(buffers'), current', before, buf, i);
      current' := current' + [buf[i]];
    }
  }

  /** One output column, merged from the threads' columns. */
  method MergeColumn(parts: seq<seq<seq<Value>>>, totalRows: nat) returns (c: Column)
    requires totalRows == |Flatten(Flatten(parts))|
    ensures c.Ok() && c.Buffered? && c.numRows == totalRows && Flatten(c.buffers) == Flatten(Flatten(parts))
  {
    if totalRows == 0 {
      return Buffered([], 0);
    }
    hide Flatten;
    var buffers, current: seq<Value> := [], [];
    NothingMerged(parts);
    for t := 0 to |parts|
      invariant Merging(buffers, current)
      invariant Flatten(buffers) + current == Flatten(Flatten(parts[..t]))
    {
      FlattenNext(parts, t);
      buffers, current := MergeThread(buffers, current, parts[t], Flatten(parts[..t]));
    }
    assert parts[..|parts|] == parts;
    if |current| > 0 {
      FlattenLast(buffers, current);
      buffers, current := buffers + [current], [];
    }
    c := Buffered(buffers, totalRows);
  }

  lemma NothingMerged(parts: seq<seq<seq<Value>>>)
    ensures Flatten<Value>([]) + [] == Flatten(Flatten(parts[..0]))
  {
  }

  /** The buffers of one thread's column. */
  method MergeThread(buffers: seq<seq<Value>>, current: seq<Value>, part: seq<seq<Value>>,
                     ghost before: seq<seq<Value>>)
      returns (buffers': seq<seq<Value>>, current': seq<Value>)
    requires Merging(buffers, current) && Flatten(buffers) + current == Flatten(before)
    ensures Merging(buffers', current') && Flatten(buffers') + current' == Flatten(before + part)
  {
    hide Flatten;
    buffers', current' := buffers, current;
    assert before + part[..0] == before;
    for b := 0 to |part|
      invariant Merging(buffers', current')
      invariant Flatten(buffers') + current' == Flatten(before + part[..b])
    {
      MergeNext(before, part, b);
      buffers', current' := MergeBuffer(buffers', current', part[b]);
    }
    assert part[..|part|] == part;
  }

  lemma MergeNext(before: seq<seq<Value>>, part: seq<seq<Value>>, b: nat)
    requires b < |part|
    ensures Flatten(before + part[..b + 1]) == Flatten(before + part[..b]) + part[b]
  {
    assert before + part[..b + 1] == (before + part[..b]) + [part[b]];
    FlattenLast(before + part[..b], part[b]);
  }
}

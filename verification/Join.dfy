/** JoinAlgorithm::run: hash the smaller input, let threads claim and probe units of the other, merge the results. */
module Join {
  import opened Bags
  import opened Bits
  import opened Options
  import opened Pages
  import opened PackedWord
  import opened Slab
  import opened Directory
  import opened Interleaving
  import opened Partitioning
  import opened UnchainedTable
  import opened Columns
  import opened Matching
  import opened Results

  /** What a run may depend on and the result may not: hash function, tags, memory layout, number of threads. */
  datatype Env = Env(hash: int -> U64, tags: seq<U16>, base: nat, arena: Arena, threads: nat) {
    ghost predicate Ok() {
      |tags| == 2048 && base + ENTRY_SIZE * 0x8000_0000 < POSITION_LIMIT && arena.HeapIsSound() && threads > 0
    }
  }

  function KeysOf(c: Column): Keys
    requires c.Ok()
  {
    seq(c.numRows, (row: int) requires 0 <= row < c.numRows => IntRow(c.GetValue(row)))
  }

  // Units of work.

  function UnitCount(c: Column): nat {
    if c.Direct? then |c.pages| else |c.buffers|
  }

  function UnitSize(c: Column, u: nat): nat
    requires u < UnitCount(c)
  {
    if c.Direct? then ReadU16(c.pages[u], 0) else |c.buffers[u]|
  }

  /** The row number of a unit's first row, as the probing threads compute it. */
  function UnitBase(c: Column, u: nat): nat
    requires c.Ok() && u < UnitCount(c)
  {
    if c.Direct? then c.pageRowIds[u] else u * BUFFER_SIZE
  }

  /** The key in row i of a unit; a page read in place has no nulls to skip. */
  function UnitKey(c: Column, u: nat, i: nat): Option<int>
    requires u < UnitCount(c) && i < UnitSize(c, u)
  {
    if c.Direct? then Some(IntAt(c.pages[u], i)) else IntRow(c.buffers[u][i])
  }

  /** Row i of unit u is row UnitBase + i of the column. */
  lemma UnitRow(c: Column, u: nat, i: nat)
    requires c.Ok() && u < UnitCount(c)
    ensures |c.Units()| == UnitCount(c) && |c.Units()[u]| == UnitSize(c, u) && |Flatten(c.Units())| == c.numRows
    ensures UnitBase(c, u) == StartOf(c.Units(), u)
    ensures i < UnitSize(c, u) ==> var g := UnitBase(c, u) + i; g < c.numRows && KeysOf(c)[g] == UnitKey(c, u, i)
  {
    hide Column.Ok, Column.Units, Column.GetValue, KeysOf, Flatten, UnitBase, UnitSize, UnitCount, UnitKey, IntRow;
    UnitShape(c, u);
    if i < UnitSize(c, u) {
      FlattenAt(c.Units(), u, i);
      GetValueIs(c, UnitBase(c, u) + i);
      UnitKeyIs(c, u, i);
      KeyAt(c, UnitBase(c, u) + i);
    }
  }

  lemma KeyAt(c: Column, g: nat)
    requires c.Ok() && g < c.numRows
    ensures |KeysOf(c)| == c.numRows && KeysOf(c)[g] == IntRow(c.GetValue(g))
  {
    hide Column.Ok, Column.GetValue;
  }

  lemma UnitShape(c: Column, u: nat)
    requires c.Ok() && u < UnitCount(c)
    ensures |c.Units()| == UnitCount(c) && |c.Units()[u]| == UnitSize(c, u) && |Flatten(c.Units())| == c.numRows
    ensures UnitBase(c, u) == StartOf(c.Units(), u)
  {
    UnitsFlat(c);
    hide Flatten, ReadU16;
    if c.Direct? { PageStart(c, u); } else { PackedSize(c.buffers, u); }
  }

  lemma UnitsFlat(c: Column)
    requires c.Ok()
    ensures |Flatten(c.Units())| == c.numRows
  {
    if c.Direct? {
      PageStart(c, |c.pages|);
      assert c.Units()[..|c.pages|] == c.Units();
    }
  }

  lemma UnitKeyIs(c: Column, u: nat, i: nat)
    requires u < UnitCount(c) && i < UnitSize(c, u)
    ensures u < |c.Units()| && i < |c.Units()[u]| && UnitKey(c, u, i) == IntRow(c.Units()[u][i])
  {
    if c.Direct? { OverlayIsRight(IntAt(c.pages[u], i), 0, 0, 0, 0, 0); }
  }

  // Claiming: each unit is claimed by one thread, once.

  datatype Worker = Idle | Busy(unit: nat, row: nat) | Stopped

  function Weight(w: Worker): nat {
    match w case Stopped => 0 case Idle => 1 case Busy(_, _) => 2
  }

  /** sizes: rows per unit; done: rows already probed; owner: who claimed a unit. */
  ghost predicate Claims(sizes: seq<nat>, counter: nat, workers: seq<Worker>, done: seq<nat>, owner: seq<nat>) {
    && |done| == |owner| == |sizes|
    && (forall u :: 0 <= u < |sizes| ==> done[u] <= sizes[u])
    && (forall u :: 0 <= u < |sizes| && counter <= u ==> done[u] == 0)
    && (forall u :: 0 <= u < |sizes| && u < counter && done[u] < sizes[u] ==>
          owner[u] < |workers| && workers[owner[u]] == Busy(u, done[u]))
    && (forall t :: 0 <= t < |workers| && workers[t].Busy? ==>
          var u := workers[t].unit; u < |sizes| && u < counter && owner[u] == t && workers[t].row == done[u])
    && (forall t :: 0 <= t < |workers| && workers[t].Stopped? ==> |sizes| <= counter)
  }

  /** fetch_add on the work counter. */
  lemma Claim(sizes: seq<nat>, counter: nat, workers: seq<Worker>, done: seq<nat>, owner: seq<nat>, t: nat)
    requires Claims(sizes, counter, workers, done, owner) && t < |workers| && workers[t].Idle?
    ensures counter < |sizes| ==> Claims(sizes, counter + 1, workers[t := Busy(counter, 0)], done, owner[counter := t])
    ensures counter >= |sizes| ==> Claims(sizes, counter + 1, workers[t := Stopped], done, owner)
  {
  }

  lemma Release(sizes: seq<nat>, counter: nat, workers: seq<Worker>, done: seq<nat>, owner: seq<nat>, t: nat)
    requires Claims(sizes, counter, workers, done, owner) && t < |workers| && workers[t].Busy?
    ensures workers[t].unit < |sizes| && workers[t].row == done[workers[t].unit] <= sizes[workers[t].unit]
    ensures workers[t].row == sizes[workers[t].unit] ==> Claims(sizes, counter, workers[t := Idle], done, owner)
  {
  }

  lemma RowDone(sizes: seq<nat>, counter: nat, workers: seq<Worker>, done: seq<nat>, owner: seq<nat>, t: nat)
    requires Claims(sizes, counter, workers, done, owner) && t < |workers| && workers[t].Busy?
    requires workers[t].unit < |sizes| && workers[t].row < sizes[workers[t].unit]
    ensures var u := workers[t].unit;
      Claims(sizes, counter, workers[t := Busy(u, done[u] + 1)], done[u := done[u] + 1], owner)
  {
  }

  lemma AllDone(sizes: seq<nat>, counter: nat, workers: seq<Worker>, done: seq<nat>, owner: seq<nat>)
    requires Claims(sizes, counter, workers, done, owner) && workers != []
    requires forall t :: 0 <= t < |workers| ==> workers[t].Stopped?
    ensures |done| == |sizes| && forall u :: 0 <= u < |sizes| ==> done[u] == sizes[u]
  {
    assert workers[0].Stopped?;
  }

  // Probing.

  /** The inputs of a probe: the table indexes the build column of the task. */
  ghost predicate Indexed(table: UnchainedHashTable, es: seq<Entry>, task: Task)
    reads table.directory, table.tuples
  {
    && Built(table.config, es, table.Mem())
      && table.config.base + ENTRY_SIZE * (table.tuples.Length + 1) < POSITION_LIMIT
    && multiset(es) == multiset(Rows(task.build, 0, |task.build|))
  }

  ghost predicate Emits(sides: Sides, task: Task) {
    && (task.buildLeft ==> sides.leftRows == |task.build| && sides.rightRows == |task.probe|)
    && (!task.buildLeft ==> sides.leftRows == |task.probe| && sides.rightRows == |task.build|)
  }

  lemma EntryInRange(es: seq<Entry>, task: Task, range: seq<Entry>, e: Entry)
    requires multiset(es) == multiset(Rows(task.build, 0, |task.build|))
    requires WithKey(range, e.key) == WithKey(es, e.key) && e in range
    ensures e.row < |task.build|
  {
    WithKeyCounts(range, e.key, e);
    WithKeyCounts(es, e.key, e);
    assert e in multiset(range);
    assert e in multiset(Rows(task.build, 0, |task.build|));
    RowsInRange(task.build, |task.build|, e);
  }

  /** One probe row: all entries of the looked-up range with its key, no others. */
  method ProbeKey(table: UnchainedHashTable, ghost es: seq<Entry>, task: Task, g: nat, key: int, out: ResultSet)
    requires Indexed(table, es, task) && g < |task.probe| && task.probe[g] == Some(key)
    requires out.Valid() && Emits(out.sides, task)
    modifies out
    ensures out.Valid() && multiset(out.pairs) == old(multiset(out.pairs)) + task.RowBag(g)
  {
    LookupBag(task, g, es);
    hide Task.RowBag, WithKey, PairsOf, Bucket, Rows, TagsOf, Built, ResultSet.Valid, Config.Slot, Config.Tag;
    var range := table.Lookup(key, es);
    if range == None {
      assert PairsOf(task, g, []) == [] by { NoPairs(task, g); }
      return;
    }
    var (start, end) := range.value;
    var tuples := table.tuples;
    ProbeRange(es, task, g, key, tuples, start, end, out);
  }

  lemma NoPairs(task: Task, g: nat)
    ensures PairsOf(task, g, []) == [] && forall key :: WithKey([], key) == []
  {
  }

  method ProbeRange(ghost es: seq<Entry>, task: Task, g: nat, key: int, tuples: array<Entry>, start: nat, end: nat,
                    out: ResultSet)
    requires start <= end <= tuples.Length && g < |task.probe|
    requires multiset(es) == multiset(Rows(task.build, 0, |task.build|))
    requires WithKey(tuples[start..end], key) == WithKey(es, key)
    requires out.Valid() && Emits(out.sides, task)
    modifies out
    ensures out.Valid() && out.pairs == old(out.pairs) + PairsOf(task, g, WithKey(es, key))
  {
    hide WithKey, PairsOf, Rows, ResultSet.Valid;
    NoPairs(task, g);
    assert tuples[start..start] == [];
    for i := start to end
      invariant out.Valid() && out.pairs == old(out.pairs) + PairsOf(task, g, WithKey(tuples[start..i], key))
    {
      var entry := tuples[i];
      assert tuples[start..i + 1] == tuples[start..i] + [entry];
      WithKeyNext(tuples[start..i], entry, key);
      if entry.key != key { continue; }
      NextPair(task, g, old(out.pairs), WithKey(tuples[start..i], key), entry);
      assert entry == tuples[start..end][i - start];
      EntryInRange(es, task, tuples[start..end], entry);
      EmitPair(task, g, entry, out);
    }
  }

  method EmitPair(task: Task, g: nat, e: Entry, out: ResultSet)
    requires g < |task.probe| && e.row < |task.build| && out.Valid() && Emits(out.sides, task)
    modifies out
    ensures out.Valid() && out.pairs == old(out.pairs) + [task.Pair(e.row, g)]
  {
    hide ResultSet.Valid;
    if task.buildLeft { out.Emit(e.row, g); } else { out.Emit(g, e.row); }
  }

  lemma NextPair(task: Task, g: nat, before: Pairs, entries: seq<Entry>, e: Entry)
    ensures before + PairsOf(task, g, entries + [e]) == before + PairsOf(task, g, entries) + [task.Pair(e.row, g)]
  {
  }

  ghost function Lists(outs: seq<ResultSet>): seq<Pairs>
    reads outs
  {
    seq(|outs|, (t: int) requires 0 <= t < |outs| reads outs => outs[t].pairs)
  }

  ghost predicate Outputs(outs: seq<ResultSet>, sides: Sides)
    reads outs
  {
    && (forall t :: 0 <= t < |outs| ==> outs[t].Valid() && outs[t].sides == sides)
    && (forall t, u :: 0 <= t < |outs| && 0 <= u < |outs| && t != u ==> outs[t] != outs[u])
  }

  ghost function Sizes(c: Column): seq<nat> {
    seq(UnitCount(c), (u: int) requires 0 <= u < UnitCount(c) => UnitSize(c, u))
  }

  /** The units that are still unclaimed, the rows still to probe, and the moves workers have left. */
  ghost function RowsLeft(sizes: seq<nat>, done: seq<nat>): seq<nat>
    requires |done| == |sizes| && forall u :: 0 <= u < |sizes| ==> done[u] <= sizes[u]
  {
    seq(|sizes|, (u: int) requires 0 <= u < |sizes| => sizes[u] - done[u])
  }

  ghost function Weights(workers: seq<Worker>): seq<nat> {
    seq(|workers|, (t: int) requires 0 <= t < |workers| => Weight(workers[t]))
  }

  lemma WeightDrops(workers: seq<Worker>, t: nat, w: Worker)
    requires t < |workers| && Weight(w) == Weight(workers[t]) - 1
    ensures Total(Weights(workers[t := w])) == Total(Weights(workers)) - 1
  {
    assert Weights(workers[t := w]) == Weights(workers)[t := Weights(workers)[t] - 1];
    TotalDrops(Weights(workers), t);
  }

  lemma RowDrops(sizes: seq<nat>, done: seq<nat>, u: nat)
    requires |done| == |sizes| && (forall v :: 0 <= v < |sizes| ==> done[v] <= sizes[v]) && u < |sizes|
    requires done[u] < sizes[u]
    ensures Total(RowsLeft(sizes, done[u := done[u] + 1])) == Total(RowsLeft(sizes, done)) - 1
  {
    assert RowsLeft(sizes, done[u := done[u] + 1]) == RowsLeft(sizes, done)[u := RowsLeft(sizes, done)[u] - 1];
    TotalDrops(RowsLeft(sizes, done), u);
  }

  function Unclaimed(sizes: seq<nat>, counter: nat): nat {
    if counter < |sizes| then |sizes| - counter else 0
  }

  /** An idle thread claims the next unit, or stops if there is none. */
  method ClaimStep(probe: Column, counter: nat, workers: seq<Worker>, t: nat,
                   ghost sizes: seq<nat>, ghost done: seq<nat>, ghost owner: seq<nat>)
      returns (counter': nat, workers': seq<Worker>, ghost owner': seq<nat>)
    requires sizes == Sizes(probe) && t < |workers| && workers[t].Idle? && Claims(sizes, counter, workers, done, owner)
    requires |done| == |owner| == |sizes|
    ensures |workers'| == |workers| && |owner'| == |owner| && Claims(sizes, counter', workers', done, owner')
    ensures Unclaimed(sizes, counter') < Unclaimed(sizes, counter)
      || (Unclaimed(sizes, counter') == Unclaimed(sizes, counter) && Total(Weights(workers')) < Total(Weights(workers)))
  {
    hide Claims, Total, Weights;
    Claim(sizes, counter, workers, done, owner, t);
    counter', workers', owner' := counter + 1, workers, owner;
    if counter < UnitCount(probe) {
      workers', owner' := workers[t := Busy(counter, 0)], owner[counter := t];
    } else {
      WeightDrops(workers, t, Stopped);
      workers' := workers[t := Stopped];
    }
  }

  /** A busy thread probes the next row of its unit, or has come to the unit's end. */
  method ProbeStep(table: UnchainedHashTable, ghost es: seq<Entry>, task: Task, probe: Column, outs: seq<ResultSet>,
                   ghost sides: Sides, ghost counter: nat, workers: seq<Worker>, t: nat,
                   ghost sizes: seq<nat>, ghost done: seq<nat>, ghost owner: seq<nat>)
      returns (workers': seq<Worker>, ghost done': seq<nat>)
    requires Indexed(table, es, task) && probe.Ok() && task.probe == KeysOf(probe)
    requires Outputs(outs, sides) && Emits(sides, task) && sizes == Sizes(probe)
    requires |workers| == |outs| && t < |workers| && workers[t].Busy? && Claims(sizes, counter, workers, done, owner)
    requires |done| == |owner| == |sizes| && forall u :: 0 <= u < |sizes| ==> done[u] <= sizes[u]
    requires multiset(Flatten(Lists(outs))) == Found(task, probe.Units(), done)
    modifies outs
    ensures |workers'| == |workers| && |done'| == |done| && Claims(sizes, counter, workers', done', owner)
    ensures Outputs(outs, sides) && forall u :: 0 <= u < |sizes| ==> done'[u] <= sizes[u]
    ensures multiset(Flatten(Lists(outs))) == Found(task, probe.Units(), done')
    ensures Total(RowsLeft(sizes, done')) < Total(RowsLeft(sizes, done))
      || (done' == done && Total(Weights(workers')) < Total(Weights(workers)))
  {
    hide Indexed, Column.Ok, Found, Outputs, Emits, ResultSet.Valid, Claims, Flatten, Total, RowsLeft, Weights;
    var (u, i) := (workers[t].unit, workers[t].row);
    Release(sizes, counter, workers, done, owner, t);
    if i == UnitSize(probe, u) {
      WeightDrops(workers, t, Idle);
      workers', done' := workers[t := Idle], done;
    } else {
      ProbeUnitRow(table, es, task, probe, u, i, outs, t, sides, done);
      RowDone(sizes, counter, workers, done, owner, t);
      RowDrops(sizes, done, u);
      workers', done' := workers[t := Busy(u, i + 1)], done[u := i + 1];
    }
  }

  /** The probe under an arbitrary schedule: any thread that has not stopped may take the next step. */
  method ProbeAll(table: UnchainedHashTable, ghost es: seq<Entry>, task: Task, probe: Column, outs: seq<ResultSet>,
                  ghost sides: Sides)
    requires Indexed(table, es, task) && probe.Ok() && task.probe == KeysOf(probe)
    requires outs != [] && Outputs(outs, sides) && Emits(sides, task)
    requires forall t :: 0 <= t < |outs| ==> outs[t].pairs == []
    modifies outs
    ensures Outputs(outs, sides) && multiset(Flatten(Lists(outs))) == task.All()
  {
    hide Indexed, Column.Ok, Found, Outputs, Task.All, Emits, ResultSet.Valid, Claims, Flatten;
    hide Total, RowsLeft, Weights;
    var counter: nat := 0;
    var workers := seq(|outs|, t => Idle);
    ghost var sizes := Sizes(probe);
    ghost var done: seq<nat>, owner: seq<nat> := seq(|sizes|, u => 0), seq(|sizes|, u => 0);
    ghost var units := probe.Units();
    Start(task, probe, outs, sizes, workers, done, owner);
    while exists t :: 0 <= t < |workers| && !workers[t].Stopped?
      invariant |workers| == |outs| && Claims(sizes, counter, workers, done, owner) && Outputs(outs, sides)
      invariant |done| == |owner| == |sizes| && forall u :: 0 <= u < |sizes| ==> done[u] <= sizes[u]
      invariant multiset(Flatten(Lists(outs))) == Found(task, units, done)
      decreases Unclaimed(sizes, counter), Total(RowsLeft(sizes, done)), Total(Weights(workers))
    {
      var t :| 0 <= t < |workers| && !workers[t].Stopped?;
      if workers[t].Idle? {
        counter, workers, owner := ClaimStep(probe, counter, workers, t, sizes, done, owner);
      } else {
        workers, done := ProbeStep(table, es, task, probe, outs, sides, counter, workers, t, sizes, done, owner);
      }
    }
    AllDone(sizes, counter, workers, done, owner);
    Finish(task, probe, sizes, done);
  }

  lemma Start(task: Task, probe: Column, outs: seq<ResultSet>, sizes: seq<nat>, workers: seq<Worker>, done: seq<nat>,
              owner: seq<nat>)
    requires sizes == Sizes(probe) && probe.Ok()
    requires |done| == |owner| == |sizes| && (forall u :: 0 <= u < |done| ==> done[u] == 0)
    requires forall t :: 0 <= t < |workers| ==> workers[t].Idle?
    requires forall t :: 0 <= t < |outs| ==> outs[t].pairs == []
    ensures Claims(sizes, 0, workers, done, owner)
    ensures multiset(Flatten(Lists(outs))) == Found(task, probe.Units(), done)
  {
    NothingFound(task, probe.Units(), done);
    AllEmpty(Lists(outs));
  }

  lemma {:induction false} AllEmpty<T>(lists: seq<seq<T>>)
    requires forall t :: 0 <= t < |lists| ==> lists[t] == []
    ensures Flatten(lists) == []
  {
    if lists != [] { AllEmpty(lists[..|lists| - 1]); }
  }

  lemma Finish(task: Task, probe: Column, sizes: seq<nat>, done: seq<nat>)
    requires sizes == Sizes(probe) && probe.Ok() && task.probe == KeysOf(probe)
    requires |done| == |sizes| && forall u :: 0 <= u < |sizes| ==> done[u] == sizes[u]
    ensures Found(task, probe.Units(), done) == task.All()
  {
    hide Column.Ok, Found, Task.All, Flatten;
    UnitsFlat(probe);
    assert |probe.Units()| == |sizes|;
    forall u | 0 <= u < |sizes| ensures done[u] == |probe.Units()[u]| { UnitRow(probe, u, 0); }
    AllFound(task, probe.Units(), done);
  }

  /** One step of a busy thread: the next row of its unit. */
  method ProbeUnitRow(table: UnchainedHashTable, ghost es: seq<Entry>, task: Task, probe: Column, u: nat, i: nat,
                      outs: seq<ResultSet>, t: nat, ghost sides: Sides, ghost done: seq<nat>)
    requires Indexed(table, es, task) && probe.Ok() && task.probe == KeysOf(probe)
    requires u < UnitCount(probe) == |done| && i < UnitSize(probe, u) && done[u] == i
    requires t < |outs| && Outputs(outs, sides) && Emits(sides, task)
    requires multiset(Flatten(Lists(outs))) == Found(task, probe.Units(), done)
    modifies outs[t]
    ensures Outputs(outs, sides)
    ensures multiset(Flatten(Lists(outs))) == Found(task, probe.Units(), done[u := i + 1])
  {
    hide Indexed, Column.Ok, Found, Task.RowBag, Emits, ResultSet.Valid, Flatten, UnitBase, UnitSize, UnitKey;
    UnitRow(probe, u, i);
    FoundNext(task, probe.Units(), done, u);
    var g, key := UnitBase(probe, u) + i, UnitKey(probe, u, i);
    ghost var before := Lists(outs);
    if key.Some? {
      ProbeKey(table, es, task, g, key.value, outs[t]);
    } else {
      NoKey(task, g);
    }
    assert Lists(outs) == before[t := outs[t].pairs];
    FlattenUpdate(before, t, outs[t].pairs, task.RowBag(g));
  }

  // Merging, and the whole join.

  ghost predicate ColumnHolds(sides: Sides, o: nat, c: Column, pairs: Pairs) {
    && sides.Ok() && o < |sides.attrs| && sides.InRange(pairs)
    && c.Ok() && c.Buffered? && c.numRows == |pairs| && Flatten(c.Units()) == sides.OutColumn(o, pairs)
  }

  ghost predicate PartsAre(sides: Sides, o: nat, parts: seq<seq<seq<Value>>>, lists: seq<Pairs>)
    requires sides.Ok() && o < |sides.attrs|
  {
    |parts| == |lists| && forall t :: 0 <= t < |parts| ==>
      sides.InRange(lists[t]) && Flatten(parts[t]) == sides.OutColumn(o, lists[t])
  }

  /** The threads' columns, put one after the other, are the column of their pairs put one after the other. */
  lemma {:induction false} MergedIs(sides: Sides, o: nat, parts: seq<seq<seq<Value>>>, lists: seq<Pairs>)
    requires sides.Ok() && o < |sides.attrs| && PartsAre(sides, o, parts, lists)
    ensures sides.InRange(Flatten(lists)) && Flatten(Flatten(parts)) == sides.OutColumn(o, Flatten(lists))
  {
    if parts == [] {
      assert sides.OutColumn(o, []) == [];
    } else {
      var n := |parts| - 1;
      assert PartsAre(sides, o, parts[..n], lists[..n]);
      MergedIs(sides, o, parts[..n], lists[..n]);
      FlattenCat(Flatten(parts[..n]), parts[n]);
      hide Sides.Ok, Sides.OutColumn;
      OutColumnCat(sides, o, Flatten(lists[..n]), lists[n]);
    }
  }

  /** Output column o of all threads. */
  method MergeOutput(outs: seq<ResultSet>, sides: Sides, o: nat) returns (c: Column)
    requires Outputs(outs, sides) && sides.Ok() && o < |sides.attrs|
    ensures ColumnHolds(sides, o, c, Flatten(Lists(outs)))
  {
    hide Sides.Ok, Sides.OutColumn, Packed;
    var parts, totalRows: nat := [], 0;
    ghost var lists := Lists(outs);
    for t := 0 to |outs|
      invariant PartsAre(sides, o, parts, lists[..t]) && |parts| == t
      invariant totalRows == |Flatten(lists[..t])|
    {
      assert ColumnIs(sides, o, outs[t].columns[o], outs[t].numRows[o], outs[t].pairs);
      totalRows := totalRows + outs[t].numRows[o];
      parts := parts + [outs[t].columns[o]];
      FlattenNext(lists, t);
    }
    assert lists[..|outs|] == lists;
    MergedIs(sides, o, parts, lists);
    assert totalRows == |sides.OutColumn(o, Flatten(lists))| by { OutColumnSize(sides, o, Flatten(lists)); }
    c := MergeColumn(parts, totalRows);
  }

  lemma OutColumnSize(sides: Sides, o: nat, pairs: Pairs)
    requires sides.Ok() && o < |sides.attrs| && sides.InRange(pairs)
    ensures |sides.OutColumn(o, pairs)| == |pairs|
  {
  }

  /** The result columns of a join with an empty side. */
  function EmptyColumns(sides: Sides): (results: seq<Column>)
    requires sides.Ok()
    ensures |results| == |sides.attrs| && sides.InRange([])
    ensures forall o :: 0 <= o < |results| ==> ColumnHolds(sides, o, results[o], [])
  {
    assert forall o :: 0 <= o < |sides.attrs| ==> sides.OutColumn(o, []) == [];
    seq(|sides.attrs|, o => Buffered([], 0))
  }

  /** JoinAlgorithm::run.  Output column o holds attribute o of the pairs, all columns in the same pair order, and
      the pairs are those of the nested-loop join. */
  method Run(env: Env, left: seq<Column>, right: seq<Column>, leftCol: nat, rightCol: nat, attrs: seq<nat>)
      returns (results: seq<Column>, ghost pairs: Pairs)
    requires env.Ok() && leftCol < |left| && rightCol < |right|
    requires Sides(left, right, left[leftCol].numRows, right[rightCol].numRows, attrs).Ok()
    requires left[leftCol].numRows < 0x4000_0000 || right[rightCol].numRows < 0x4000_0000
    ensures |results| == |attrs| && multiset(pairs) == Matches(KeysOf(left[leftCol]), KeysOf(right[rightCol]))
    ensures var sides := Sides(left, right, left[leftCol].numRows, right[rightCol].numRows, attrs);
      sides.InRange(pairs) && forall o :: 0 <= o < |attrs| ==> ColumnHolds(sides, o, results[o], pairs)
  {
    var sides := Sides(left, right, left[leftCol].numRows, right[rightCol].numRows, attrs);
    var leftKeys, rightKeys := KeysOf(left[leftCol]), KeysOf(right[rightCol]);
    if sides.leftRows == 0 || sides.rightRows == 0 {
      NoRows(leftKeys, rightKeys);
      pairs := [];
      results := EmptyColumns(sides);
      return;
    }
    var buildLeft := sides.leftRows <= sides.rightRows;
    EitherSide(leftKeys, rightKeys, buildLeft);
    if buildLeft {
      results, pairs := BuildAndProbe(env, sides, Task(leftKeys, rightKeys, true), right[rightCol]);
    } else {
      results, pairs := BuildAndProbe(env, sides, Task(rightKeys, leftKeys, false), left[leftCol]);
    }
  }

  lemma NoRows(left: Keys, right: Keys)
    requires left == [] || right == []
    ensures Matches(left, right) == multiset{}
  {
    if left != [] {
      SumEqual((l: nat) => LeftBag(left, right, l), (l: nat) => multiset{}, |left|);
      SumEmpty<(nat, nat)>(|left|);
    }
  }

  method BuildAndProbe(env: Env, sides: Sides, task: Task, probe: Column)
      returns (results: seq<Column>, ghost pairs: Pairs)
    requires env.Ok() && sides.Ok() && Emits(sides, task) && |task.build| < 0x4000_0000
    requires probe.Ok() && task.probe == KeysOf(probe)
    ensures |results| == |sides.attrs| && multiset(pairs) == task.All() && sides.InRange(pairs)
    ensures forall o :: 0 <= o < |sides.attrs| ==> ColumnHolds(sides, o, results[o], pairs)
  {
    hide Sides.Ok, Emits, Column.Ok, Task.All, ColumnHolds, Indexed, ResultSet.Valid, Flatten;
    var table, es := BuildTable(env, task);
    var outs: seq<ResultSet> := [];
    for t := 0 to env.threads
      invariant |outs| == t && Outputs(outs, sides) && fresh(outs) && Indexed(table, es, task)
      invariant forall u :: 0 <= u < t ==> outs[u].pairs == []
    {
      var out := new ResultSet(sides);
      outs := outs + [out];
    }
    ProbeAll(table, es, task, probe, outs, sides);
    PairsInRange(sides, outs);
    pairs := Flatten(Lists(outs));
    results := MergeAll(outs, sides);
  }

  method MergeAll(outs: seq<ResultSet>, sides: Sides) returns (results: seq<Column>)
    requires Outputs(outs, sides) && sides.Ok()
    ensures |results| == |sides.attrs|
    ensures forall o :: 0 <= o < |sides.attrs| ==> ColumnHolds(sides, o, results[o], Flatten(Lists(outs)))
  {
    hide Outputs, Sides.Ok, ColumnHolds, Flatten;
    results := [];
    for o := 0 to |sides.attrs|
      invariant Outputs(outs, sides) && |results| == o
      invariant forall k :: 0 <= k < o ==> ColumnHolds(sides, k, results[k], Flatten(Lists(outs)))
    {
      var c := MergeOutput(outs, sides, o);
      results := results + [c];
    }
  }

  lemma PairsInRange(sides: Sides, outs: seq<ResultSet>)
    requires Outputs(outs, sides)
    ensures sides.InRange(Flatten(Lists(outs)))
  {
    forall t | 0 <= t < |outs| ensures sides.InRange(Lists(outs)[t]) { assert outs[t].Valid(); }
    AllInRange(sides, Lists(outs));
  }

  lemma {:induction false} AllInRange(sides: Sides, lists: seq<Pairs>)
    requires forall t :: 0 <= t < |lists| ==> sides.InRange(lists[t])
    ensures sides.InRange(Flatten(lists))
  {
    if lists != [] { AllInRange(sides, lists[..|lists| - 1]); }
  }

  method BuildTable(env: Env, task: Task) returns (table: UnchainedHashTable, ghost es: seq<Entry>)
    requires env.Ok() && |task.build| < 0x4000_0000
    ensures fresh(table.directory) && fresh(table.tuples) && Indexed(table, es, task)
  {
    hide Built, Rows;
    table := new UnchainedHashTable(|task.build|, env.hash, env.tags, env.base);
    ghost var parts := table.BuildParallel(task.build, env.threads, env.arena);
    es := Flatten(parts);
  }
}

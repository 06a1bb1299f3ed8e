/** The first step of the parallel build: every thread partitions its own range of rows into its local state. */
module Partitioning {
  import opened Bags
  import opened Bits
  import opened Options
  import opened Slab
  import opened Directory

  /** The build column's non-null rows, first row first: what the table indexes. */
  function Rows(column: seq<Option<int>>, start: nat, end: nat): seq<Entry>
    requires start <= end <= |column|
    decreases end - start
  {
    if start == end then [] else
      Rows(column, start, end - 1) + RowEntry(column, end - 1)
  }

  function RowEntry(column: seq<Option<int>>, row: nat): seq<Entry>
    requires row < |column|
  {
    if column[row].Some? then [Entry(column[row].value, row)] else []
  }

  lemma {:induction false} RowsSplit(column: seq<Option<int>>, start: nat, mid: nat, end: nat)
    requires start <= mid <= end <= |column|
    ensures Rows(column, start, end) == Rows(column, start, mid) + Rows(column, mid, end)
    decreases end - mid
  {
    if mid < end { RowsSplit(column, start, mid, end - 1); }
  }

  lemma {:induction false} RowsBound(column: seq<Option<int>>, start: nat, end: nat)
    requires start <= end <= |column|
    ensures |Rows(column, start, end)| <= end - start
  {
    if start < end { RowsBound(column, start, end - 1); }
  }

  /** The entries of es that hash to partition p, in order. */
  function OfPartition(c: Config, es: seq<Entry>, p: nat): seq<Entry> {
    if es == [] then [] else
      var e := es[|es| - 1];
      OfPartition(c, es[..|es| - 1], p) + (if c.Partition(e.key) == p then [e] else [])
  }

  lemma OfPartitionNext(c: Config, es: seq<Entry>, e: Entry, p: nat)
    ensures OfPartition(c, es + [e], p) == OfPartition(c, es, p) + (if c.Partition(e.key) == p then [e] else [])
  {
    assert (es + [e])[..|es + [e]| - 1] == es;
  }

  lemma {:induction false} OfPartitionOnly(c: Config, es: seq<Entry>, p: nat, e: Entry)
    requires e in OfPartition(c, es, p)
    ensures c.Partition(e.key) == p
  {
    if e in OfPartition(c, es[..|es| - 1], p) { OfPartitionOnly(c, es[..|es| - 1], p, e); }
  }

  /** Splitting by partition neither loses nor repeats an entry. */
  lemma {:induction false} PartitionsCover(c: Config, es: seq<Entry>, n: nat)
    requires NUM_PARTITIONS <= n
    ensures Sum((p: nat) => multiset(OfPartition(c, es, p)), n) == multiset(es)
  {
    if es == [] {
      SumEqual((p: nat) => multiset(OfPartition(c, es, p)), (p: nat) => multiset{}, n);
      SumEmpty<Entry>(n);
    } else {
      var es', e := es[..|es| - 1], es[|es| - 1];
      assert es == es' + [e];
      PartitionsCover(c, es', n);
      var f, g := (p: nat) => multiset(OfPartition(c, es', p)), (p: nat) => multiset(OfPartition(c, es, p));
      forall p: nat ensures g(p) == f(p) + (if c.Partition(e.key) == p then multiset{e} else multiset{}) {
        OfPartitionNext(c, es', e, p);
        hide OfPartition;
      }
      hide OfPartition, Sum;
      SumOne(f, g, n, c.Partition(e.key), multiset{e});
    }
  }

  /** Row ranges of the threads: thread t has rows starts[t] up to starts[t + 1]. */
  ghost predicate Ranges(starts: seq<nat>, total: nat) {
    && 0 < |starts| && starts[0] == 0 && starts[|starts| - 1] == total
    && (forall t :: 0 <= t < |starts| ==> starts[t] <= total)
    && (forall t :: 0 <= t < |starts| - 1 ==> starts[t] <= starts[t + 1])
  }

  /** start_idx and end_idx of each thread: ceil(total / n) rows each, until the rows run out. */
  method SplitRows(total: nat, n: nat) returns (starts: seq<nat>)
    requires n > 0
    ensures |starts| == n + 1 && Ranges(starts, total)
    ensures forall t :: 0 <= t <= n ==>
      starts[t] == (var s := t * ((total + n - 1) / n); if s < total then s else total)
  {
    var tuplesPerThread := (total + n - 1) / n;
    starts := [0];
    assert n * tuplesPerThread >= total by {
      assert total + n - 1 == n * tuplesPerThread + (total + n - 1) % n;
    }
    for t := 1 to n + 1
      invariant |starts| == t && starts[0] == 0 && forall u :: 0 <= u < t ==> starts[u] <= total
      invariant forall u :: 0 <= u < t - 1 ==> starts[u] <= starts[u + 1]
      invariant forall u :: 0 <= u < t ==> starts[u] == (var s := u * tuplesPerThread; if s < total then s else total)
    {
      MulMono(t - 1, t, tuplesPerThread);
      var s := t * tuplesPerThread;
      starts := starts + [if s < total then s else total];
    }
  }

  /** The threads' ranges, one after the other, are all the rows. */
  lemma {:induction false} RangesCover(column: seq<Option<int>>, starts: seq<nat>, t: nat, f: nat -> multiset<Entry>)
    requires Ranges(starts, |column|) && t < |starts|
    requires forall u: nat :: u < t ==> f(u) == multiset(Rows(column, starts[u], starts[u + 1]))
    ensures Sum(f, t) == multiset(Rows(column, 0, starts[t]))
  {
    if t > 0 {
      RangesCover(column, starts, t - 1, f);
      RowsSplit(column, 0, starts[t - 1], starts[t]);
    }
  }

  /** Thread t has consumed its rows from starts[t] up to ends[t], each in its partition's list. */
  ghost predicate RowsLogged(c: Config, column: seq<Option<int>>, starts: seq<nat>, ends: seq<nat>,
                             log: seq<seq<Entry>>) {
    && |starts| == |ends| + 1 && |log| == |ends| * NUM_PARTITIONS
    && (forall t :: 0 <= t < |ends| ==> starts[t] <= ends[t] <= |column|)
    && (forall t :: 0 <= t < |ends| ==> ThreadLogged(c, log, t, Rows(column, starts[t], ends[t])))
  }

  ghost predicate ThreadLogged(c: Config, log: seq<seq<Entry>>, t: nat, rows: seq<Entry>) {
    forall p :: 0 <= p < NUM_PARTITIONS ==> IsLogged(c, log, ListOf(t, p), rows, p)
  }

  ghost predicate IsLogged(c: Config, log: seq<seq<Entry>>, q: nat, rows: seq<Entry>, p: nat) {
    q < |log| && log[q] == OfPartition(c, rows, p)
  }

  ghost predicate InOrder(pos: seq<nat>, ends: seq<nat>, total: nat) {
    |pos| == |ends| && forall t :: 0 <= t < |ends| ==> pos[t] <= ends[t] <= total
  }

  lemma NothingLogged(c: Config, column: seq<Option<int>>, starts: seq<nat>)
    requires Ranges(starts, |column|)
    ensures |starts| > 0 && InOrder(starts[..|starts| - 1], starts[1..], |column|)
    ensures RowsLogged(c, column, starts, starts[..|starts| - 1], seq((|starts| - 1) * NUM_PARTITIONS, q => []))
  {
  }

  lemma NullSkipped(c: Config, column: seq<Option<int>>, starts: seq<nat>, ends: seq<nat>, log: seq<seq<Entry>>, t: nat)
    requires RowsLogged(c, column, starts, ends, log) && t < |ends| && ends[t] < |column| && column[ends[t]].None?
    ensures RowsLogged(c, column, starts, ends[t := ends[t] + 1], log)
  {
    assert Rows(column, starts[t], ends[t] + 1) == Rows(column, starts[t], ends[t]);
    hide Rows, OfPartition;
  }

  lemma RowLogged(c: Config, column: seq<Option<int>>, starts: seq<nat>, ends: seq<nat>, log: seq<seq<Entry>>, t: nat,
                  e: Entry)
    requires RowsLogged(c, column, starts, ends, log) && t < |ends| && ends[t] < |column|
    requires column[ends[t]] == Some(e.key) && e.row == ends[t]
    ensures var q := ListOf(t, c.Partition(e.key));
      q < |log| && RowsLogged(c, column, starts, ends[t := ends[t] + 1], log[q := log[q] + [e]])
  {
    hide Rows, ThreadLogged, Config.Partition, ListOf;
    PartitionInRange(c, e.key);
    RowsNext(column, starts[t], ends[t], e);
    ListInRange(t, c.Partition(e.key), |ends|);
    var q, ends' := ListOf(t, c.Partition(e.key)), ends[t := ends[t] + 1];
    forall u | 0 <= u < |ends|
      ensures ThreadLogged(c, log[q := log[q] + [e]], u, Rows(column, starts[u], ends'[u]))
    {
      EntryInThread(c, log, t, e, u, Rows(column, starts[u], ends[u]));
    }
  }

  lemma PartitionInRange(c: Config, key: int)
    ensures c.Partition(key) < NUM_PARTITIONS
  {
  }

  /** Appending an entry to one of thread t's lists, as seen from thread u. */
  lemma EntryInThread(c: Config, log: seq<seq<Entry>>, t: nat, e: Entry, u: nat, rows: seq<Entry>)
    requires c.Partition(e.key) < NUM_PARTITIONS && ListOf(t, c.Partition(e.key)) < |log|
    requires ThreadLogged(c, log, u, rows)
    ensures var q := ListOf(t, c.Partition(e.key));
      ThreadLogged(c, log[q := log[q] + [e]], u, if u == t then rows + [e] else rows)
  {
    hide OfPartition, IsLogged, Config.Partition, ListOf;
    var q := ListOf(t, c.Partition(e.key));
    forall p | 0 <= p < NUM_PARTITIONS
      ensures IsLogged(c, log[q := log[q] + [e]], ListOf(u, p), if u == t then rows + [e] else rows, p)
    {
      ListsDiffer(t, c.Partition(e.key), u, p);
      EntryLogged(c, log, q, e, ListOf(u, p), rows, p);
    }
  }

  /** Appending an entry to list q, as seen from list r. */
  lemma EntryLogged(c: Config, log: seq<seq<Entry>>, q: nat, e: Entry, r: nat, rows: seq<Entry>, p: nat)
    requires q < |log| && IsLogged(c, log, r, rows, p)
    ensures r != q ==> IsLogged(c, log[q := log[q] + [e]], r, rows, p)
    ensures (r == q <==> c.Partition(e.key) == p) ==> IsLogged(c, log[q := log[q] + [e]], r, rows + [e], p)
  {
    hide OfPartition, Config.Partition;
    OfPartitionNext(c, rows, e, p);
  }

  lemma ListInRange(t: nat, p: nat, n: nat)
    requires t < n && p < NUM_PARTITIONS
    ensures ListOf(t, p) < n * NUM_PARTITIONS
  {
  }

  lemma ListsDiffer(t: nat, p: nat, u: nat, r: nat)
    requires p < NUM_PARTITIONS && r < NUM_PARTITIONS
    ensures ListOf(t, p) == ListOf(u, r) <==> t == u && p == r
  {
  }

  lemma RowsNext(column: seq<Option<int>>, start: nat, row: nat, e: Entry)
    requires start <= row < |column| && column[row] == Some(e.key) && e.row == row
    ensures Rows(column, start, row + 1) == Rows(column, start, row) + [e]
  {
  }

  /** The first step of build_parallel: every thread partitions its own range of rows into its local state.
      The loop picks any thread that has a row left, so it stands for every interleaving of the threads. */
  method PartitionRows(c: Config, column: seq<Option<int>>, starts: seq<nat>, arena: Arena) returns (slab: SlabMemory)
    requires Ranges(starts, |column|) && arena.HeapIsSound()
    ensures fresh(slab) && slab.Valid() && slab.threads == |starts| - 1
    ensures RowsLogged(c, column, starts, starts[1..], slab.log)
  {
    hide SlabMemory.Valid, RowsLogged, Total, Arena.HeapIsSound, Rows, OfPartition, Ranges;
    NothingLogged(c, column, starts);
    var n := |starts| - 1;
    slab := new SlabMemory(n, arena);
    var pos, ends := starts[..n], starts[1..];
    ghost var left: seq<nat> := seq(n, (t: int) requires 0 <= t < n => ends[t] - pos[t]);
    while exists t :: 0 <= t < n && pos[t] < ends[t]
      invariant |pos| == |left| == n == slab.threads && slab.Valid() && fresh(slab)
      invariant forall t :: 0 <= t < n ==> left[t] + pos[t] == ends[t] <= |column|
      invariant RowsLogged(c, column, starts, pos, slab.log)
      decreases Total(left)
    {
      var t :| 0 <= t < n && pos[t] < ends[t];
      TotalDrops(left, t);
      PartitionRow(c, column, t, pos[t], slab, starts, pos);
      pos := pos[t := pos[t] + 1];
      left := left[t := left[t] - 1];
    }
    assert pos == ends;
  }

  /** Thread t partitions its next row. */
  method PartitionRow(c: Config, column: seq<Option<int>>, t: nat, row: nat, slab: SlabMemory, ghost starts: seq<nat>,
                      ghost ends: seq<nat>)
    requires slab.Valid() && slab.threads == |ends| && t < |ends| && row == ends[t] < |column|
    requires RowsLogged(c, column, starts, ends, slab.log)
    modifies slab
    ensures slab.Valid() && RowsLogged(c, column, starts, ends[t := row + 1], slab.log)
  {
    hide SlabMemory.Valid, RowsLogged, Arena.HeapIsSound, Rows, OfPartition, PartitionOf;
    if column[row].Some? {
      var key := column[row].value;
      RowLogged(c, column, starts, ends, slab.log, t, Entry(key, row));
      var _ := slab.Consume(t, c.hash(key), Entry(key, row));
    } else {
      NullSkipped(c, column, starts, ends, slab.log, t);
    }
  }

  // The second step: where each partition's entries go.

  /** What the threads visit of partition p, thread by thread. */
  ghost function Lists(log: seq<seq<Entry>>, n: nat, p: nat): seq<seq<Entry>>
    requires |log| == n * NUM_PARTITIONS && p < NUM_PARTITIONS
  {
    seq(n, (t: int) requires 0 <= t < n => Lifo(log[ListOf(t, p)]))
  }

  /** The entries of every partition, in visiting order. */
  ghost function Parts(log: seq<seq<Entry>>, n: nat): seq<seq<Entry>>
    requires |log| == n * NUM_PARTITIONS
  {
    seq(NUM_PARTITIONS, (p: int) requires 0 <= p < NUM_PARTITIONS => Flatten(Lists(log, n, p)))
  }

  /** Collecting what forEachEntryInPartition visits of partition p, thread by thread. */
  method CollectLists(slab: SlabMemory, p: nat) returns (lists: seq<seq<Entry>>)
    requires slab.Valid() && p < NUM_PARTITIONS
    ensures |slab.log| == slab.threads * NUM_PARTITIONS && lists == Lists(slab.log, slab.threads, p)
  {
    hide SlabMemory.Valid, Lifo, Arena.HeapIsSound;
    ListSizes(slab);
    lists := [];
    for t := 0 to slab.threads
      invariant |lists| == t && forall u :: 0 <= u < t ==> lists[u] == Lifo(slab.log[ListOf(u, p)])
    {
      var visited := slab.ForEachEntry(ListOf(t, p));
      lists := lists + [visited];
    }
  }

  /** count_total[p]. */
  method CountTotal(slab: SlabMemory, p: nat) returns (count: nat)
    requires slab.Valid() && p < NUM_PARTITIONS
    ensures |slab.log| == slab.threads * NUM_PARTITIONS && count == |Flatten(Lists(slab.log, slab.threads, p))|
  {
    hide SlabMemory.Valid, Lifo, Arena.HeapIsSound, Flatten;
    ListSizes(slab);
    count := 0;
    ghost var lists := Lists(slab.log, slab.threads, p);
    for t := 0 to slab.threads
      invariant count == |Flatten(lists[..t])|
    {
      FlattenNext(lists, t);
      count := count + slab.counts[ListOf(t, p)];
    }
    assert lists[..slab.threads] == lists;
  }

  /** partition_offsets: the prefix sums of count_total. */
  method PartitionOffsets(slab: SlabMemory) returns (offsets: seq<nat>)
    requires slab.Valid()
    ensures |slab.log| == slab.threads * NUM_PARTITIONS && |offsets| == NUM_PARTITIONS + 1
    ensures forall p :: 0 <= p <= NUM_PARTITIONS ==> offsets[p] == |Flatten(Parts(slab.log, slab.threads)[..p])|
  {
    hide SlabMemory.Valid, Lifo, Arena.HeapIsSound, Lists, Flatten;
    ListSizes(slab);
    ghost var parts := Parts(slab.log, slab.threads);
    offsets := [0];
    for p := 0 to NUM_PARTITIONS
      invariant |offsets| == p + 1 && forall q :: 0 <= q <= p ==> offsets[q] == |Flatten(parts[..q])|
    {
      var count := CountTotal(slab, p);
      FlattenNext(parts, p);
      offsets := offsets + [offsets[p] + count];
    }
  }

  lemma ListSizes(slab: SlabMemory)
    requires slab.Valid()
    ensures |slab.log| == |slab.counts| == slab.threads * NUM_PARTITIONS
    ensures forall q :: 0 <= q < |slab.log| ==> slab.counts[q] == |slab.log[q]| == |Lifo(slab.log[q])|
    ensures Flatten<Entry>([]) == []
  {
    forall q | 0 <= q < |slab.log| ensures slab.counts[q] == |slab.log[q]| == |Lifo(slab.log[q])| {
      slab.ListHead(q);
      LifoIsPermutation(slab.log[q]);
      assert |multiset(Lifo(slab.log[q]))| == |multiset(slab.log[q])|;
    }
  }

  lemma ListIs(c: Config, column: seq<Option<int>>, starts: seq<nat>, log: seq<seq<Entry>>, p: nat, t: nat)
    requires Ranges(starts, |column|) && RowsLogged(c, column, starts, starts[1..], log)
    requires p < NUM_PARTITIONS && t < |starts| - 1
    ensures multiset(Lists(log, |starts| - 1, p)[t]) ==
      multiset(OfPartition(c, Rows(column, starts[t], starts[t + 1]), p))
  {
    LifoIsPermutation(log[ListOf(t, p)]);
  }

  ghost function ThreadRows(column: seq<Option<int>>, starts: seq<nat>, t: nat): seq<Entry> {
    if t + 1 < |starts| && starts[t] <= starts[t + 1] <= |column| then Rows(column, starts[t], starts[t + 1]) else []
  }

  /** What thread t contributes to partition p. */
  ghost function Cell(c: Config, column: seq<Option<int>>, starts: seq<nat>, p: nat, t: nat): multiset<Entry> {
    multiset(OfPartition(c, ThreadRows(column, starts, t), p))
  }

  lemma PartIsSum(c: Config, column: seq<Option<int>>, starts: seq<nat>, log: seq<seq<Entry>>, p: nat)
    requires Ranges(starts, |column|) && RowsLogged(c, column, starts, starts[1..], log) && p < NUM_PARTITIONS
    ensures multiset(Flatten(Lists(log, |starts| - 1, p))) ==
      Sum((t: nat) => Cell(c, column, starts, p, t), |starts| - 1)
  {
    var n := |starts| - 1;
    forall t: nat | t < n ensures Cell(c, column, starts, p, t) == multiset(Lists(log, n, p)[t]) {
      ListIs(c, column, starts, log, p, t);
    }
    hide Cell, RowsLogged, Flatten, Sum;
    FlattenBag(Lists(log, n, p), (t: nat) => Cell(c, column, starts, p, t));
  }

  lemma ThreadIsSum(c: Config, column: seq<Option<int>>, starts: seq<nat>, t: nat, n: nat)
    requires NUM_PARTITIONS <= n
    ensures Sum((p: nat) => Cell(c, column, starts, p, t), n) == multiset(ThreadRows(column, starts, t))
  {
    var rows := ThreadRows(column, starts, t);
    PartitionsCover(c, rows, n);
    SumEqual((p: nat) => Cell(c, column, starts, p, t), (p: nat) => multiset(OfPartition(c, rows, p)), n);
  }

  /** The partitions together hold every non-null row exactly once, whatever the interleaving was. */
  lemma PartsAreRows(c: Config, column: seq<Option<int>>, starts: seq<nat>, log: seq<seq<Entry>>)
    requires Ranges(starts, |column|) && RowsLogged(c, column, starts, starts[1..], log)
    ensures multiset(Flatten(Parts(log, |starts| - 1))) == multiset(Rows(column, 0, |column|))
  {
    var n, parts := |starts| - 1, Parts(log, |starts| - 1);
    var cell := (p: nat, t: nat) => Cell(c, column, starts, p, t);
    var part, thread := (p: nat) => Sum((t: nat) => cell(p, t), n), (t: nat) => Sum((p: nat) => cell(p, t), |parts|);
    hide Cell, RowsLogged, Flatten, Sum, Lists;
    forall p: nat | p < |parts| ensures part(p) == multiset(parts[p]) {
      PartIsSum(c, column, starts, log, p);
      SumEqual((t: nat) => cell(p, t), (t: nat) => Cell(c, column, starts, p, t), n);
    }
    FlattenBag(parts, part);
    SumSwap(cell, |parts|, n);
    forall t: nat | t < n ensures thread(t) == multiset(Rows(column, starts[t], starts[t + 1])) {
      ThreadIsSum(c, column, starts, t, |parts|);
      SumEqual((p: nat) => cell(p, t), (p: nat) => Cell(c, column, starts, p, t), |parts|);
    }
    RangesCover(column, starts, n, thread);
  }

  lemma PartHasPartition(c: Config, column: seq<Option<int>>, starts: seq<nat>, log: seq<seq<Entry>>, p: nat, e: Entry)
    requires Ranges(starts, |column|) && RowsLogged(c, column, starts, starts[1..], log)
    requires p < NUM_PARTITIONS && e in Parts(log, |starts| - 1)[p]
    ensures c.Partition(e.key) == p
  {
    var lists := Lists(log, |starts| - 1, p);
    var t := InSome(lists, e);
    ListIs(c, column, starts, log, p, t);
    assert e in multiset(lists[t]);
    OfPartitionOnly(c, Rows(column, starts[t], starts[t + 1]), p, e);
  }
}

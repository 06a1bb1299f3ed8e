/** The copy pass writes every tuple cell exactly once, whatever the interleaving of the jobs. */
module Copies {
  import opened Bags
  import opened Slab
  import opened Directory
  import opened Builder
  import opened Interleaving

  /** The cell that entry n of a job is copied to; it does not depend on the state of memory. */
  function CellOf(c: Config, job: Job, n: nat): nat
    requires c.Valid() && n < |job.entries|
  {
    Cursor(c, job, n, c.Slot(job.entries[n].key))
  }

  lemma BucketGrows(c: Config, es: seq<Entry>, n: nat, m: nat)
    requires c.Valid() && n < m <= |es|
    ensures var s := c.Slot(es[n].key); |Bucket(c, es[..n], s)| < |Bucket(c, es[..m], s)|
  {
    hide Config.Slot, Bucket;
    var s := c.Slot(es[n].key);
    assert es[..m] == (es[..n] + [es[n]]) + es[n + 1..m];
    Concat(c, es[..n] + [es[n]], es[n + 1..m], s);
    Extend(c, es[..n], es[n], s);
  }

  /** Entries of one job go to different cells. */
  lemma CellsApart(c: Config, job: Job, n: nat, m: nat)
    requires c.Valid() && n < m < |job.entries|
    ensures CellOf(c, job, n) != CellOf(c, job, m)
  {
    hide Config.Slot, Bucket, Below;
    BucketGrows(c, job.entries, n, m);
    CursorsApart(c, job, m, c.Slot(job.entries[n].key));
  }

  lemma CellInRange(c: Config, job: Job, n: nat)
    requires c.Valid() && n < |job.entries|
    ensures job.prev <= CellOf(c, job, n) < job.prev + |job.entries|
  {
    hide Config.Slot, Bucket, Below;
    CursorBounds(c, job, n, c.Slot(job.entries[n].key));
  }

  // What a run copies.

  function Copied(job: Job, ph: Phase): (n: nat)
    ensures n <= |job.entries|
  {
    match ph
    case Copying(n) => if n <= |job.entries| then n else |job.entries|
    case Finished => |job.entries|
    case _ => 0
  }

  /** The cells of a job's first k entries. */
  function JobCells(c: Config, job: Job, k: nat): (cells: seq<int>)
    requires c.Valid() && k <= |job.entries|
    ensures |cells| == k
  {
    seq(k, (n: int) requires 0 <= n < k => CellOf(c, job, n))
  }

  /** Job by job, the cells written so far. */
  function CellsSoFar(c: Config, parts: seq<seq<Entry>>, phases: seq<Phase>): (cells: seq<seq<int>>)
    requires c.Valid() && |parts| == |phases|
    ensures |cells| == |parts|
  {
    seq(|parts|, (p: int) requires 0 <= p < |parts| => JobCells(c, JobOf(parts, p), Copied(JobOf(parts, p), phases[p])))
  }

  /** The cell that job p's next step writes, if that step copies an entry. */
  ghost function StepTargets(c: Config, parts: seq<seq<Entry>>, m: Memory, phases: seq<Phase>, p: PartitionId): seq<int>
    requires AllInvariant(c, parts, m, phases)
  {
    var job := JobOf(parts, p);
    if phases[p].Copying? && phases[p].n < |job.entries| then [Target(c, m.directory, job.entries[phases[p].n])] else []
  }

  /** The cells that a run writes, in the order in which it writes them. */
  ghost function CopyTargets(c: Config, parts: seq<seq<Entry>>, m: Memory, phases: seq<Phase>,
                             schedule: seq<PartitionId>): seq<int>
    requires AllInvariant(c, parts, m, phases)
    decreases |schedule|
  {
    if schedule == [] then [] else
      var (m', phases') := Advance(c, parts, m, phases, schedule[0]);
      StepTargets(c, parts, m, phases, schedule[0]) + CopyTargets(c, parts, m', phases', schedule[1..])
  }

  lemma JobCopies(c: Config, job: Job, m: Memory, ph: Phase)
    requires JobInvariant(c, job, m, ph)
    ensures c.FirstSlot(job.p + 1) <= c.Slots() && c.base + ENTRY_SIZE * job.prev < 0x1_0000_0000_0000_0000
    ensures ph.Copying? ==> ph.n <= |job.entries|
    ensures var more := if ph.Copying? && ph.n < |job.entries| then [Target(c, m.directory, job.entries[ph.n])] else [];
      JobCells(c, job, Copied(job, Step(c, job, m, ph).1)) == JobCells(c, job, Copied(job, ph)) + more
  {
    PhaseMoves(c, job, m, ph);
    if ph.Copying? && ph.n < |job.entries| { TargetIsCell(c, job, m, ph.n); }
    hide JobInvariant, Config.FirstSlot, Config.Slots, Target, Step, Copied, CellOf;
  }

  lemma PhaseMoves(c: Config, job: Job, m: Memory, ph: Phase)
    requires JobInvariant(c, job, m, ph)
    ensures c.Valid() && |m.directory| == c.Slots() + 1
    ensures c.FirstSlot(job.p + 1) <= c.Slots() && c.base + ENTRY_SIZE * job.prev < 0x1_0000_0000_0000_0000
    ensures ph.Copying? ==> ph.n <= |job.entries| && Copied(job, ph) == ph.n
    ensures Copied(job, Step(c, job, m, ph).1) == Copied(job, ph) + if ph.Copying? && ph.n < |job.entries| then 1 else 0
  {
    OwnSlots(c, m, job);
    hide Config.FirstSlot, Config.Slots, Cursor, CountEntry, CopyEntry, WordsAre, BucketsStored, CountedWord;
  }

  lemma TargetIsCell(c: Config, job: Job, m: Memory, n: nat)
    requires JobInvariant(c, job, m, Copying(n)) && n < |job.entries|
    ensures c.Valid() && |m.directory| == c.Slots() + 1 && Target(c, m.directory, job.entries[n]) == CellOf(c, job, n)
  {
    CopyInBounds(c, job, m, n);
    hide Invariant, Config.FirstSlot, Config.Slot, Config.Slots, Target, Cursor;
  }

  /** One step adds the cell it writes to its own job's cells. */
  lemma StepCopies(c: Config, parts: seq<seq<Entry>>, m: Memory, phases: seq<Phase>, p: PartitionId)
    requires AllInvariant(c, parts, m, phases)
    ensures c.Valid() && |parts| == |phases| == NUM_PARTITIONS == |Advance(c, parts, m, phases, p).1|
    ensures var phases' := Advance(c, parts, m, phases, p).1;
      CellsSoFar(c, parts, phases') ==
        CellsSoFar(c, parts, phases)[p := CellsSoFar(c, parts, phases)[p] + StepTargets(c, parts, m, phases, p)]
  {
    assert JobInvariant(c, JobOf(parts, p), m, phases[p]);
    JobCopies(c, JobOf(parts, p), m, phases[p]);
    hide JobInvariant, Flatten, JobOf, Config.FirstSlot, Target, Step, JobCells, Copied, Ready;
  }

  lemma {:induction false} RunCopies(c: Config, parts: seq<seq<Entry>>, m: Memory, phases: seq<Phase>,
                                     schedule: seq<PartitionId>)
    requires AllInvariant(c, parts, m, phases)
    ensures var phases' := Run(c, parts, m, phases, schedule).1;
      c.Valid() && |parts| == |phases| == |phases'| == NUM_PARTITIONS
      && multiset(Flatten(CellsSoFar(c, parts, phases))) + multiset(CopyTargets(c, parts, m, phases, schedule))
           == multiset(Flatten(CellsSoFar(c, parts, phases')))
    decreases |schedule|
  {
    hide AllInvariant, StepTargets, CellsSoFar, Flatten, JobOf;
    if schedule == [] {
      assert Run(c, parts, m, phases, schedule) == (m, phases);
      assert c.Valid() && |parts| == |phases| == NUM_PARTITIONS by { Sizes(c, parts, m, phases); }
    } else {
      var p := schedule[0];
      StepCopies(c, parts, m, phases, p);
      var (m', phases') := Advance(c, parts, m, phases, p);
      RunCopies(c, parts, m', phases', schedule[1..]);
      var cells, more := CellsSoFar(c, parts, phases), StepTargets(c, parts, m, phases, p);
      FlattenUpdate(cells, p, cells[p] + more, multiset(more));
    }
  }

  lemma Sizes(c: Config, parts: seq<seq<Entry>>, m: Memory, phases: seq<Phase>)
    requires AllInvariant(c, parts, m, phases)
    ensures c.Valid() && |parts| == |phases| == NUM_PARTITIONS
  {
  }

  // Which cells these are.

  function Range(a: int, n: nat): (r: seq<int>)
    ensures |r| == n
  {
    seq(n, (i: int) requires 0 <= i < n => a + i)
  }

  /** The numbers from a on, each once, in some order. */
  ghost predicate IsRange(xs: seq<int>, a: int, n: nat) {
    multiset(xs) == multiset(Range(a, n))
  }

  ghost predicate Different(xs: seq<int>) {
    forall i, j :: 0 <= i < j < |xs| ==> xs[i] != xs[j]
  }

  lemma {:induction false} DifferentBag(xs: seq<int>, x: int)
    requires Different(xs)
    ensures multiset(xs)[x] == if x in xs then 1 else 0
  {
    if xs != [] {
      var before, last := xs[..|xs| - 1], xs[|xs| - 1];
      DifferentBag(before, x);
      assert xs == before + [last];
    }
  }

  lemma {:induction false} DifferentSet(xs: seq<int>)
    requires Different(xs)
    ensures |set x | x in xs| == |xs|
  {
    if xs != [] {
      var before, last := xs[..|xs| - 1], xs[|xs| - 1];
      DifferentSet(before);
      assert (set x | x in xs) == (set x | x in before) + {last};
    }
  }

  /** n different numbers in a range of n numbers are all of them. */
  lemma Pigeonhole(xs: seq<int>, a: int)
    requires Different(xs) && forall i :: 0 <= i < |xs| ==> a <= xs[i] < a + |xs|
    ensures IsRange(xs, a, |xs|)
  {
    var range := Range(a, |xs|);
    var left, right := set x | x in xs, set x | x in range;
    DifferentSet(xs);
    DifferentSet(range);
    forall x | x in left ensures x in right { assert range[x - a] == x; }
    SameSize(left, right);
    forall x: int ensures multiset(xs)[x] == multiset(range)[x] {
      DifferentBag(xs, x);
      DifferentBag(range, x);
      assert x in xs <==> x in left;
      assert x in range <==> x in right;
    }
  }

  lemma SameSize(a: set<int>, b: set<int>)
    requires a <= b && |a| == |b|
    ensures a == b
  {
    assert |b - a| == |b| - |a|;
  }

  /** A finished job has written exactly the cells of its partition. */
  lemma JobCellsAll(c: Config, job: Job)
    requires c.Valid()
    ensures IsRange(JobCells(c, job, |job.entries|), job.prev, |job.entries|)
  {
    hide CellOf;
    var cells := JobCells(c, job, |job.entries|);
    forall i, j | 0 <= i < j < |cells| ensures cells[i] != cells[j] { CellsApart(c, job, i, j); }
    forall i | 0 <= i < |cells| ensures job.prev <= cells[i] < job.prev + |cells| { CellInRange(c, job, i); }
    Pigeonhole(cells, job.prev);
  }

  lemma {:induction false} FinishedCells(c: Config, parts: seq<seq<Entry>>, phases: seq<Phase>, q: nat)
    requires c.Valid() && |parts| == |phases| && (forall p :: 0 <= p < |phases| ==> phases[p] == Finished)
    requires q <= |parts|
    ensures IsRange(Flatten(CellsSoFar(c, parts, phases)[..q]), 0, |Flatten(parts[..q])|)
  {
    hide JobCells, CellsSoFar, Flatten, IsRange;
    var cells := CellsSoFar(c, parts, phases);
    if q > 0 {
      FinishedCells(c, parts, phases, q - 1);
      JobCellsAll(c, JobOf(parts, q - 1));
      JobsCells(c, parts, phases, q - 1);
      FlattenNext(cells, q - 1);
      FlattenNext(parts, q - 1);
      RangesCat(Flatten(cells[..q - 1]), cells[q - 1], |Flatten(parts[..q - 1])|, |parts[q - 1]|);
    } else {
      NoCells(parts, cells);
    }
  }

  lemma JobsCells(c: Config, parts: seq<seq<Entry>>, phases: seq<Phase>, p: nat)
    requires c.Valid() && |parts| == |phases| && p < |parts| && phases[p] == Finished
    ensures CellsSoFar(c, parts, phases)[p] == JobCells(c, JobOf(parts, p), |parts[p]|)
    ensures JobOf(parts, p).prev == |Flatten(parts[..p])| && JobOf(parts, p).entries == parts[p]
  {
    hide JobCells, Flatten;
  }

  lemma RangesCat(xs: seq<int>, ys: seq<int>, n: nat, k: nat)
    requires IsRange(xs, 0, n) && IsRange(ys, n, k)
    ensures IsRange(xs + ys, 0, n + k)
  {
    assert Range(0, n + k) == Range(0, n) + Range(n, k);
    hide Range;
  }

  lemma NoCells(parts: seq<seq<Entry>>, cells: seq<seq<int>>)
    ensures IsRange(Flatten(cells[..0]), 0, |Flatten(parts[..0])|)
  {
  }

  /** Whatever the schedule, a complete build copies to every cell below the total exactly once, and to no other. */
  lemma EveryCellOnce(c: Config, parts: seq<seq<Entry>>, m: Memory, schedule: seq<PartitionId>)
    requires AllInvariant(c, parts, m, seq(NUM_PARTITIONS, p => Counting(0)))
    requires Run(c, parts, m, seq(NUM_PARTITIONS, p => Counting(0)), schedule).1 == seq(NUM_PARTITIONS, p => Finished)
    ensures IsRange(CopyTargets(c, parts, m, seq(NUM_PARTITIONS, p => Counting(0)), schedule), 0, |Flatten(parts)|)
  {
    hide AllInvariant, Run, CopyTargets, CellsSoFar, Flatten, Range;
    var start: seq<Phase>, end: seq<Phase> := seq(NUM_PARTITIONS, p => Counting(0)), seq(NUM_PARTITIONS, p => Finished);
    RunCopies(c, parts, m, start, schedule);
    NothingCopied(c, parts, start);
    FinishedCells(c, parts, end, |parts|);
    assert CellsSoFar(c, parts, end)[..|parts|] == CellsSoFar(c, parts, end) && parts[..|parts|] == parts;
  }

  lemma NothingCopied(c: Config, parts: seq<seq<Entry>>, phases: seq<Phase>)
    requires c.Valid() && |parts| == |phases| && forall p :: 0 <= p < |phases| ==> phases[p] == Counting(0)
    ensures Flatten(CellsSoFar(c, parts, phases)) == []
  {
    var cells := CellsSoFar(c, parts, phases);
    if Flatten(cells) != [] {
      var t := InSome(cells, Flatten(cells)[0]);
    }
  }
}

/** Every interleaving of the 64 partition jobs builds the same table. */
module Interleaving {
  import opened Bags
  import opened Bits
  import opened PackedWord
  import opened Slab
  import opened Directory
  import opened Builder

  /** The inputs of the third step: the entries of every partition, and room for all of them. */
  ghost predicate Ready(c: Config, parts: seq<seq<Entry>>, m: Memory) {
    && c.Valid() && |parts| == NUM_PARTITIONS
    && |m.directory| == c.Slots() + 1
    && |Flatten(parts)| <= |m.tuples|
    && c.base + ENTRY_SIZE * (|m.tuples| + 1) < POSITION_LIMIT
    && forall p, e :: 0 <= p < NUM_PARTITIONS && e in parts[p] ==> c.Partition(e.key) == p
  }

  /** partition_offsets[p] is the number of entries of the partitions before p. */
  function JobOf(parts: seq<seq<Entry>>, p: nat): Job
    requires p < |parts|
  {
    Job(p, |Flatten(parts[..p])|, parts[p])
  }

  lemma JobFits(c: Config, parts: seq<seq<Entry>>, m: Memory, p: nat)
    requires Ready(c, parts, m) && p < NUM_PARTITIONS
    ensures Fits(c, m, JobOf(parts, p))
    ensures |Flatten(parts[..p + 1])| == |Flatten(parts[..p])| + |parts[p]| <= |Flatten(parts)|
  {
    assert parts == parts[..p + 1] + parts[p + 1..] && parts[..p + 1][..p] == parts[..p];
    FlattenCat(parts[..p + 1], parts[p + 1..]);
  }

  lemma JobsApart(c: Config, parts: seq<seq<Entry>>, p: nat, q: nat)
    requires c.Valid() && p < |parts| && q < |parts| && p != q
    ensures Apart(c, JobOf(parts, p), JobOf(parts, q))
  {
    var x, y := if p < q then p else q, if p < q then q else p;
    FirstSlotMonotone(c, x + 1, y);
    assert parts[..y] == parts[..x + 1] + parts[x + 1..y] && parts[..x + 1][..x] == parts[..x];
    FlattenCat(parts[..x + 1], parts[x + 1..y]);
  }

  /** All jobs, each in its own phase. */
  ghost predicate AllInvariant(c: Config, parts: seq<seq<Entry>>, m: Memory, phases: seq<Phase>) {
    && Ready(c, parts, m) && |phases| == NUM_PARTITIONS
    && forall p :: 0 <= p < NUM_PARTITIONS ==> JobInvariant(c, JobOf(parts, p), m, phases[p])
  }

  ghost predicate JobInvariant(c: Config, job: Job, m: Memory, ph: Phase) {
    Fits(c, m, job) && Invariant(c, job, m, ph)
  }

  type PartitionId = p: nat | p < NUM_PARTITIONS

  /** The schedule names, step by step, the job that moves. */
  ghost function Run(c: Config, parts: seq<seq<Entry>>, m: Memory, phases: seq<Phase>, schedule: seq<PartitionId>)
      : (Memory, seq<Phase>)
    requires AllInvariant(c, parts, m, phases)
    ensures var (m', phases') := Run(c, parts, m, phases, schedule);
      AllInvariant(c, parts, m', phases') && Outside(parts, m, m')
    decreases |schedule|
  {
    assert Outside(parts, m, m);
    hide AllInvariant;
    if schedule == [] then (m, phases) else
      var (m', phases') := Advance(c, parts, m, phases, schedule[0]);
      Run(c, parts, m', phases', schedule[1..])
  }

  ghost function Advance(c: Config, parts: seq<seq<Entry>>, m: Memory, phases: seq<Phase>, p: PartitionId)
      : (Memory, seq<Phase>)
    requires AllInvariant(c, parts, m, phases)
    ensures var (m', phases') := Advance(c, parts, m, phases, p);
      AllInvariant(c, parts, m', phases') && Outside(parts, m, m')
  {
    OneStep(c, parts, m, phases, p);
    var (m', ph') := Step(c, JobOf(parts, p), m, phases[p]);
    (m', phases[p := ph'])
  }

  /** directory[-1] and the tuple cells past the last entry are never written. */
  ghost predicate Outside(parts: seq<seq<Entry>>, m: Memory, m': Memory) {
    && |m'.directory| == |m.directory| > 0 && m'.directory[0] == m.directory[0]
    && |m'.tuples| == |m.tuples| && |Flatten(parts)| <= |m.tuples|
    && forall x :: |Flatten(parts)| <= x < |m.tuples| ==> m'.tuples[x] == m.tuples[x]
  }

  lemma OneStep(c: Config, parts: seq<seq<Entry>>, m: Memory, phases: seq<Phase>, p: nat)
    requires AllInvariant(c, parts, m, phases) && p < NUM_PARTITIONS
    ensures c.FirstSlot(p + 1) <= c.Slots() && c.base + ENTRY_SIZE * JobOf(parts, p).prev < 0x1_0000_0000_0000_0000
    ensures var (m', ph') := Step(c, JobOf(parts, p), m, phases[p]);
      AllInvariant(c, parts, m', phases[p := ph']) && Outside(parts, m, m')
  {
    var job := JobOf(parts, p);
    assert JobInvariant(c, job, m, phases[p]);
    StepKeepsOwn(c, job, m, phases[p]);
    StepWritesOnlyOwn(c, job, m, phases[p]);
    var (m', ph') := Step(c, job, m, phases[p]);
    hide Step, Invariant, Fits, Flatten, WritesOnly, Config.FirstSlot;
    JobMoves(c, parts, m, m', phases, p, ph');
  }

  /** If one job writes only its own memory and keeps its own invariant, all jobs keep theirs. */
  lemma JobMoves(c: Config, parts: seq<seq<Entry>>, m: Memory, m': Memory, phases: seq<Phase>, p: nat, ph': Phase)
    requires AllInvariant(c, parts, m, phases) && p < NUM_PARTITIONS
    requires WritesOnly(c, JobOf(parts, p), m, m') && JobInvariant(c, JobOf(parts, p), m', ph')
    ensures AllInvariant(c, parts, m', phases[p := ph']) && Outside(parts, m, m')
  {
    var job := JobOf(parts, p);
    JobFits(c, parts, m, p);
    hide Invariant, Fits, Owns, Flatten, Config.FirstSlot;
    forall q | 0 <= q < NUM_PARTITIONS ensures JobInvariant(c, JobOf(parts, q), m', phases[p := ph'][q]) {
      if q != p {
        JobsApart(c, parts, p, q);
        assert JobInvariant(c, JobOf(parts, q), m, phases[q]);
        WritesElsewhere(c, job, JobOf(parts, q), m, m');
        InvariantIsLocal(c, JobOf(parts, q), m, m', phases[q]);
      }
    }
  }

  /** Before the third step: the directory is zero and every job is about to count its first entry. */
  lemma AllStart(c: Config, parts: seq<seq<Entry>>, m: Memory)
    requires Ready(c, parts, m) && forall i :: 0 < i < |m.directory| ==> m.directory[i] == 0
    ensures AllInvariant(c, parts, m, seq(NUM_PARTITIONS, p => Counting(0)))
  {
    forall p | 0 <= p < NUM_PARTITIONS ensures JobInvariant(c, JobOf(parts, p), m, Counting(0)) {
      JobFits(c, parts, m, p);
      forall i: nat ensures CountedWord(c, parts[p][..0], i) == 0 {}
      hide CountedWord, Fits;
    }
  }

  // The finished table.

  /** The table holds exactly the entries es: slot i's word ends where bucket i ends, carries the tags of bucket
      i, and the previous word ends where bucket i starts. */
  ghost predicate Built(c: Config, es: seq<Entry>, m: Memory) {
    && c.Valid() && |m.directory| == c.Slots() + 1 && |es| <= |m.tuples|
    && m.directory[0] == Pack(c.base, 0)
    && forall i: nat :: i < c.Slots() ==> SlotBuilt(c, es, m, i)
  }

  ghost predicate SlotBuilt(c: Config, es: seq<Entry>, m: Memory, i: nat)
    requires c.Valid() && |m.directory| == c.Slots() + 1 && i < c.Slots()
  {
    && m.directory[i + 1] == Pack(c.base + ENTRY_SIZE * Below(c, es, i + 1), TagsOf(c, es, i))
    && Stored(m, Below(c, es, i), Bucket(c, es, i))
  }

  /** Slot i is owned by one partition, and the other partitions have no entry in it. */
  lemma SlotsBefore(c: Config, parts: seq<seq<Entry>>, m: Memory, p: nat)
    requires Ready(c, parts, m) && p < NUM_PARTITIONS
    ensures forall e :: e in Flatten(parts[..p]) ==> 0 <= c.Slot(e.key) < c.FirstSlot(p)
  {
    forall e | e in Flatten(parts[..p]) ensures 0 <= c.Slot(e.key) < c.FirstSlot(p) {
      var q := InSome(parts[..p], e);
      hide Config.Slot, Config.FirstSlot, Flatten;
      EntrySlots(c, e, q);
      FirstSlotMonotone(c, q + 1, p);
    }
  }

  lemma SlotsBehind(c: Config, parts: seq<seq<Entry>>, m: Memory, p: nat)
    requires Ready(c, parts, m) && p < NUM_PARTITIONS
    ensures forall e :: e in Flatten(parts[p + 1..]) ==> c.FirstSlot(p + 1) <= c.Slot(e.key) < c.Slots()
  {
    forall e | e in Flatten(parts[p + 1..]) ensures c.FirstSlot(p + 1) <= c.Slot(e.key) < c.Slots() {
      var q := InSome(parts[p + 1..], e);
      hide Config.Slot, Config.FirstSlot, Flatten;
      EntrySlots(c, e, p + 1 + q);
      FirstSlotMonotone(c, p + 1, p + 1 + q);
    }
  }

  lemma SlotOfPartition(c: Config, parts: seq<seq<Entry>>, m: Memory, p: nat, i: nat)
    requires Ready(c, parts, m) && p < NUM_PARTITIONS && c.FirstSlot(p) <= i < c.FirstSlot(p + 1)
    ensures Bucket(c, Flatten(parts), i) == Bucket(c, parts[p], i)
    ensures TagsOf(c, Flatten(parts), i) == TagsOf(c, parts[p], i)
    ensures Below(c, Flatten(parts), i) == |Flatten(parts[..p])| + Below(c, parts[p], i)
  {
    var a, b := parts[..p], parts[p + 1..];
    assert parts == a + [parts[p]] + b;
    FlattenCat(a + [parts[p]], b);
    FlattenCat(a, [parts[p]]);
    assert Flatten([parts[p]]) == parts[p];
    var x, y, z := Flatten(a), parts[p], Flatten(b);
    SlotsBefore(c, parts, m, p);
    SlotsBehind(c, parts, m, p);
    hide Config.Slot, Config.FirstSlot, Flatten, Bucket, Below, TagsOf;
    BelowBounds(c, x, 0, c.FirstSlot(p), i);
    BelowBounds(c, z, c.FirstSlot(p + 1), c.Slots(), i);
    Concat(c, x + y, z, i);
    Concat(c, x, y, i);
  }

  lemma EntrySlots(c: Config, e: Entry, p: nat)
    requires c.Valid() && c.Partition(e.key) == p
    ensures c.FirstSlot(p) <= c.Slot(e.key) < c.FirstSlot(p + 1) && c.Slot(e.key) < c.Slots()
  {
    PartitionOwnsSlots(c, e.key, p);
  }

  /** Every slot belongs to some partition. */
  lemma SlotHasPartition(c: Config, i: nat) returns (p: nat)
    requires c.Valid() && i < c.Slots()
    ensures p < NUM_PARTITIONS && c.FirstSlot(p) <= i < c.FirstSlot(p + 1)
  {
    hide Pow2, Config.FirstSlot, Config.Slots;
    FirstSlotIs(c, NUM_PARTITIONS);
    p := QuotientOf(i, Pow2(c.k - 6), NUM_PARTITIONS);
    FirstSlotIs(c, p);
    FirstSlotIs(c, p + 1);
  }

  lemma QuotientOf(i: nat, b: nat, n: nat) returns (p: nat)
    requires i < b * n
    ensures p < n && p * b <= i < (p + 1) * b
  {
    assert b > 0;
    p := i / b;
    DivRange(i, b, p);
    QuotientBound(i, b, n);
  }

  lemma FinishedIsBuilt(c: Config, parts: seq<seq<Entry>>, m: Memory)
    requires AllInvariant(c, parts, m, seq(NUM_PARTITIONS, p => Finished)) && m.directory[0] == Pack(c.base, 0)
    ensures Built(c, Flatten(parts), m)
  {
    forall i: nat | i < c.Slots() ensures SlotBuilt(c, Flatten(parts), m, i) {
      var p := SlotHasPartition(c, i);
      SlotFinished(c, parts, m, p, i);
    }
  }

  lemma SlotFinished(c: Config, parts: seq<seq<Entry>>, m: Memory, p: nat, i: nat)
    requires Ready(c, parts, m) && p < NUM_PARTITIONS && JobInvariant(c, JobOf(parts, p), m, Finished)
    requires i < c.Slots() && Owns(c, JobOf(parts, p), i)
    ensures SlotBuilt(c, Flatten(parts), m, i)
  {
    hide Config.FirstSlot, Flatten;
    var es := parts[p];
    assert es[..|es|] == es;
    assert Stored(m, JobOf(parts, p).prev + Below(c, es, i), Bucket(c, es[..|es|], i));
    assert m.directory[i + 1] == CursorWord(c, JobOf(parts, p), |es|, i);
    SlotOfPartition(c, parts, m, p, i);
    BelowNext(c, Flatten(parts), i);
    hide Bucket, Below, TagsOf, Stored;
  }

  /** A built table is determined by its entries: the whole directory and the occupied tuples. */
  lemma BuiltIsUnique(c: Config, es: seq<Entry>, m: Memory, m': Memory)
    requires Built(c, es, m) && Built(c, es, m')
    ensures m.directory == m'.directory && m.tuples[..|es|] == m'.tuples[..|es|]
  {
    forall i: nat | i < |m.directory| ensures m.directory[i] == m'.directory[i] {
      if i > 0 { assert SlotBuilt(c, es, m, i - 1) && SlotBuilt(c, es, m', i - 1); }
    }
    forall e | e in es ensures 0 <= c.Slot(e.key) < c.Slots() { PartitionOwnsSlots(c, e.key, 0); }
    BelowBounds(c, es, 0, c.Slots(), c.Slots());
    TuplesAgree(c, es, m, m', c.Slots());
  }

  lemma {:induction false} TuplesAgree(c: Config, es: seq<Entry>, m: Memory, m': Memory, i: nat)
    requires Built(c, es, m) && Built(c, es, m') && i <= c.Slots()
    ensures Below(c, es, i) <= |es| && m.tuples[..Below(c, es, i)] == m'.tuples[..Below(c, es, i)]
  {
    BelowMonotone(c, es, i, i);
    forall e | e in es ensures 0 <= c.Slot(e.key) < c.Slots() { PartitionOwnsSlots(c, e.key, 0); }
    BelowBounds(c, es, 0, c.Slots(), 0);
    if i > 0 {
      TuplesAgree(c, es, m, m', i - 1);
      assert SlotBuilt(c, es, m, i - 1) && SlotBuilt(c, es, m', i - 1);
      BelowNext(c, es, i - 1);
      var a, b := Below(c, es, i - 1), Below(c, es, i);
      hide Below, Bucket, Built, SlotBuilt;
      assert m.tuples[..b] == m.tuples[..a] + m.tuples[a..b] && m'.tuples[..b] == m'.tuples[..a] + m'.tuples[a..b];
    }
  }

  /** A schedule that brings every job to its end leaves the memory of any other complete build. */
  lemma ScheduleBuilds(c: Config, parts: seq<seq<Entry>>, m: Memory, phases: seq<Phase>,
                       schedule: seq<PartitionId>, m': Memory)
    requires AllInvariant(c, parts, m, phases) && m.directory[0] == Pack(c.base, 0)
    requires Run(c, parts, m, phases, schedule).1 == seq(NUM_PARTITIONS, p => Finished)
    requires Built(c, Flatten(parts), m') && Outside(parts, m, m')
    ensures Run(c, parts, m, phases, schedule).0 == m'
  {
    var m1 := Run(c, parts, m, phases, schedule).0;
    FinishedIsBuilt(c, parts, m1);
    BuiltIsUnique(c, Flatten(parts), m1, m');
    hide Run, AllInvariant, Built;
    var n := |Flatten(parts)|;
    assert m1.tuples == m1.tuples[..n] + m1.tuples[n..] && m'.tuples == m'.tuples[..n] + m'.tuples[n..];
  }

  /** Any two schedules that bring every job to its end leave the same directory and the same tuples. */
  lemma InterleavingsAgree(c: Config, parts: seq<seq<Entry>>, m: Memory, phases: seq<Phase>,
                           schedule: seq<PartitionId>, schedule': seq<PartitionId>)
    requires AllInvariant(c, parts, m, phases) && m.directory[0] == Pack(c.base, 0)
    requires Run(c, parts, m, phases, schedule).1 == seq(NUM_PARTITIONS, p => Finished)
    requires Run(c, parts, m, phases, schedule').1 == seq(NUM_PARTITIONS, p => Finished)
    ensures Built(c, Flatten(parts), Run(c, parts, m, phases, schedule).0)
    ensures Run(c, parts, m, phases, schedule).0 == Run(c, parts, m, phases, schedule').0
  {
    FinishedIsBuilt(c, parts, Run(c, parts, m, phases, schedule).0);
    FinishedIsBuilt(c, parts, Run(c, parts, m, phases, schedule').0);
    hide Run, AllInvariant, Built;
    ScheduleBuilds(c, parts, m, phases, schedule, Run(c, parts, m, phases, schedule').0);
  }

  // Termination: each job needs exactly this many more steps, however the others are scheduled.

  function StepsLeft(c: Config, job: Job, ph: Phase): int {
    var slots := c.FirstSlot(job.p + 1) - c.FirstSlot(job.p);
    match ph
    case Counting(n) => 2 * |job.entries| - n + slots + 3
    case Placing(i, _) => |job.entries| + c.FirstSlot(job.p + 1) - i + 2
    case Copying(n) => |job.entries| - n + 1
    case Finished => 0
  }

  lemma EveryStepCounts(c: Config, parts: seq<seq<Entry>>, m: Memory, phases: seq<Phase>, p: nat)
    requires AllInvariant(c, parts, m, phases) && p < NUM_PARTITIONS && !phases[p].Finished?
    ensures StepsLeft(c, JobOf(parts, p), phases[p]) > 0
    ensures c.FirstSlot(p + 1) <= c.Slots() && c.base + ENTRY_SIZE * JobOf(parts, p).prev < 0x1_0000_0000_0000_0000
    ensures StepsLeft(c, JobOf(parts, p), Step(c, JobOf(parts, p), m, phases[p]).1)
         == StepsLeft(c, JobOf(parts, p), phases[p]) - 1
  {
    OneStep(c, parts, m, phases, p);
    assert JobInvariant(c, JobOf(parts, p), m, phases[p]);
    FirstSlotMonotone(c, p, p + 1);
    hide Config.FirstSlot, CountEntry, CopyEntry, WordsAre, BucketsStored, Flatten;
  }

  /** Steps are left exactly until a job is finished. */
  lemma StepsLeftIs(c: Config, parts: seq<seq<Entry>>, m: Memory, phases: seq<Phase>, p: nat)
    requires AllInvariant(c, parts, m, phases) && p < NUM_PARTITIONS
    ensures StepsLeft(c, JobOf(parts, p), phases[p]) >= 0
    ensures StepsLeft(c, JobOf(parts, p), phases[p]) == 0 <==> phases[p].Finished?
  {
    if !phases[p].Finished? { EveryStepCounts(c, parts, m, phases, p); }
  }

  /** Each turn of a job takes one step off, and the turns of the others take none. */
  lemma {:induction false} StepsTaken(c: Config, parts: seq<seq<Entry>>, m: Memory, phases: seq<Phase>,
                                      schedule: seq<PartitionId>, p: PartitionId)
    requires AllInvariant(c, parts, m, phases)
    ensures AllInvariant(c, parts, Run(c, parts, m, phases, schedule).0, Run(c, parts, m, phases, schedule).1)
    ensures var left, turns := StepsLeft(c, JobOf(parts, p), phases[p]), multiset(schedule)[p];
      StepsLeft(c, JobOf(parts, p), Run(c, parts, m, phases, schedule).1[p]) ==
        if left <= turns then 0 else left - turns
    decreases |schedule|
  {
    hide AllInvariant, StepsLeft, JobOf;
    StepsLeftIs(c, parts, m, phases, p);
    if schedule != [] {
      var q := schedule[0];
      var (m', phases') := Advance(c, parts, m, phases, q);
      StepsTaken(c, parts, m', phases', schedule[1..], p);
      assert schedule == [q] + schedule[1..];
      TurnTaken(c, parts, m, phases, q, p);
    }
  }

  lemma TurnTaken(c: Config, parts: seq<seq<Entry>>, m: Memory, phases: seq<Phase>, q: PartitionId, p: PartitionId)
    requires AllInvariant(c, parts, m, phases)
    ensures |phases| == NUM_PARTITIONS == |Advance(c, parts, m, phases, q).1|
    ensures var left := StepsLeft(c, JobOf(parts, p), phases[p]);
      StepsLeft(c, JobOf(parts, p), Advance(c, parts, m, phases, q).1[p]) ==
        if p == q && left > 0 then left - 1 else left
  {
    StepsLeftIs(c, parts, m, phases, p);
    OneStep(c, parts, m, phases, q);
    if p == q {
      if phases[p].Finished? {
        hide AllInvariant, Flatten;
      } else {
        EveryStepCounts(c, parts, m, phases, p);
        hide AllInvariant, Step, StepsLeft, Flatten;
      }
    } else {
      hide Step, StepsLeft, Flatten;
    }
  }

  /** A schedule brings every job to its end if and only if it gives each job as many turns as it has steps left. */
  lemma CompleteIff(c: Config, parts: seq<seq<Entry>>, m: Memory, phases: seq<Phase>, schedule: seq<PartitionId>)
    requires AllInvariant(c, parts, m, phases)
    ensures Run(c, parts, m, phases, schedule).1 == seq(NUM_PARTITIONS, p => Finished)
      <==> forall p: PartitionId :: StepsLeft(c, JobOf(parts, p), phases[p]) <= multiset(schedule)[p]
  {
    hide StepsLeft, JobOf, Run;
    var (m', phases') := Run(c, parts, m, phases, schedule);
    assert AllInvariant(c, parts, m', phases') && |phases'| == NUM_PARTITIONS;
    forall p: PartitionId
      ensures phases'[p].Finished? <==> StepsLeft(c, JobOf(parts, p), phases[p]) <= multiset(schedule)[p]
    {
      StepsTaken(c, parts, m, phases, schedule, p);
      StepsLeftIs(c, parts, m', phases', p);
    }
    hide AllInvariant;
    assert phases' == seq(NUM_PARTITIONS, p => Finished) <==> forall p: PartitionId :: phases'[p].Finished?;
  }

  /** Such a schedule exists: one job after the other. */
  lemma CompleteSchedule(c: Config, parts: seq<seq<Entry>>, m: Memory, phases: seq<Phase>)
      returns (schedule: seq<PartitionId>)
    requires AllInvariant(c, parts, m, phases)
    ensures Run(c, parts, m, phases, schedule).1 == seq(NUM_PARTITIONS, p => Finished)
  {
    hide StepsLeft, JobOf, Run;
    schedule := [];
    for q := 0 to NUM_PARTITIONS
      invariant forall p: PartitionId :: p < q ==> StepsLeft(c, JobOf(parts, p), phases[p]) <= multiset(schedule)[p]
    {
      StepsLeftIs(c, parts, m, phases, q);
      schedule := schedule + Turns(q, StepsLeft(c, JobOf(parts, q), phases[q]));
    }
    CompleteIff(c, parts, m, phases, schedule);
  }

  function Turns(p: PartitionId, n: nat): (s: seq<PartitionId>)
    ensures multiset(s)[p] == n
  {
    if n == 0 then [] else Turns(p, n - 1) + [p]
  }
}

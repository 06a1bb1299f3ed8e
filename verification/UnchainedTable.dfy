/** The unchained hash table itself: construction, parallel build and lookup, on mutable arrays. */
module UnchainedTable {
  import opened Bags
  import opened Bits
  import opened Options
  import opened PackedWord
  import opened Slab
  import opened Directory
  import opened Builder
  import opened Interleaving
  import opened Partitioning

  class UnchainedHashTable {
    const config: Config
    const directory: array<U64>                 // cell i + 1 is directory[i]
    const tuples: array<Entry>

    function Mem(): Memory
      reads directory, tuples
    {
      Memory(directory[..], tuples[..])
    }

    /** A table for sz rows whose tuple storage lies at address base. */
    constructor (sz: nat, hash: int -> U64, tags: seq<U16>, base: nat)
      requires sz < 0x4000_0000 && |tags| == 2048 && base + ENTRY_SIZE * 0x8000_0000 < POSITION_LIMIT
      ensures config.Valid() && config.hash == hash && config.tags == tags && config.base == base
      ensures fresh(directory) && fresh(tuples) && directory.Length == tuples.Length + 1 == config.Slots() + 1
      ensures sz < config.Slots() && (config.k > 9 ==> config.Slots() <= 2 * sz)
      ensures directory[0] == Pack(base, 0) && forall i :: 0 < i < directory.Length ==> directory[i] == 0
    {
      hide Pow2;
      Capacity(30);
      var shiftVal := 9;
      while Pow2(shiftVal) <= sz
        invariant 9 <= shiftVal <= 30 && (shiftVal > 9 ==> Pow2(shiftVal) <= 2 * sz)
        decreases 31 - shiftVal
      {
        Doubled(shiftVal);
        shiftVal := shiftVal + 1;
      }
      Capacity(shiftVal);
      var capacity := Pow2(shiftVal);
      config := Config(hash, tags, shiftVal, base);
      directory := new U64[capacity + 1](i => 0);
      tuples := new Entry[capacity](i => Entry(0, 0));
      new;
      directory[0] := Shl16(base);
    }

    // The three loop bodies of postProcessBuild.

    method CountTuple(tuple: Entry)
      requires config.Valid() && directory.Length == config.Slots() + 1
      modifies directory
      ensures directory[..] == CountEntry(config, old(directory[..]), tuple)
    {
      PartitionOwnsSlots(config, tuple.key, 0);
      var slot := config.Slot(tuple.key);
      directory[slot + 1] := Add64(directory[slot + 1], Shl16(ENTRY_SIZE));
      directory[slot + 1] := Or64(directory[slot + 1], config.Tag(tuple.key));
    }

    method PlaceSlot(i: nat, cur: U64) returns (cur': U64)
      requires i + 1 < directory.Length
      modifies directory
      ensures directory[..] == old(directory[..])[i + 1 := PlaceWord(old(directory[i + 1]), cur)]
      ensures cur' == Add64(cur, Shr16(old(directory[i + 1])))
    {
      var val := Shr16(directory[i + 1]);
      directory[i + 1] := Or64(Shl16(cur), Low16(directory[i + 1]));
      cur' := Add64(cur, val);
    }

    method CopyTuple(tuple: Entry)
      requires config.Valid() && directory.Length == config.Slots() + 1
      requires 0 <= Target(config, directory[..], tuple) < tuples.Length
      modifies directory, tuples
      ensures Mem() == CopyEntry(config, old(Mem()), tuple)
    {
      PartitionOwnsSlots(config, tuple.key, 0);
      var slot := config.Slot(tuple.key);
      var target := (Shr16(directory[slot + 1]) - config.base) / ENTRY_SIZE;
      tuples[target] := tuple;
      directory[slot + 1] := Add64(directory[slot + 1], Shl16(ENTRY_SIZE));
    }

    /** postProcessBuild for partition p; lists holds, thread by thread, the entries that
        forEachEntryInPartition visits. */
    method PostProcessBuild(p: nat, prevCount: nat, lists: seq<seq<Entry>>)
      requires JobInvariant(config, Job(p, prevCount, Flatten(lists)), Mem(), Counting(0))
      modifies directory, tuples
      ensures var job := Job(p, prevCount, Flatten(lists));
        JobInvariant(config, job, Mem(), Finished) && WritesOnly(config, job, old(Mem()), Mem())
    {
      ghost var job := Job(p, prevCount, Flatten(lists));
      ghost var before := Mem();
      assert Progress(config, job, before, Mem(), Counting(0));
      OwnSlots(config, Mem(), job);
      hide JobInvariant, Flatten, WritesOnly, Progress, CountEntry, CopyEntry, PlaceWord, Config.FirstSlot,
        Config.Valid;
      CountPass(lists, job, before);
      ProgressStep(config, job, before, Mem(), Counting(|job.entries|));
      PlacePass(p, config.base + ENTRY_SIZE * prevCount, job, before);
      CopyPass(lists, job, before);
      ProgressStep(config, job, before, Mem(), Copying(|job.entries|));
      ProgressIs(config, job, before, Mem(), Finished);
    }

    method CountPass(lists: seq<seq<Entry>>, ghost job: Job, ghost before: Memory)
      requires job.entries == Flatten(lists) && Progress(config, job, before, Mem(), Counting(0))
      modifies directory
      ensures Progress(config, job, before, Mem(), Counting(|job.entries|))
    {
      hide Flatten, Progress, CountEntry, CopyEntry, PlaceWord, Target, Config.FirstSlot, Config.Valid;
      FlattenEnds(lists);
      for t := 0 to |lists|
        invariant Progress(config, job, before, Mem(), Counting(|Flatten(lists[..t])|))
      {
        FlattenNext(lists, t);
        for j := 0 to |lists[t]|
          invariant Progress(config, job, before, Mem(), Counting(|Flatten(lists[..t])| + j))
        {
          FlattenAt(lists, t, j);
          ProgressStep(config, job, before, Mem(), Counting(|Flatten(lists[..t])| + j));
          CountTuple(lists[t][j]);
        }
      }
    }

    method PlacePass(p: nat, cur0: U64, ghost job: Job, ghost before: Memory)
      requires job.p == p && Progress(config, job, before, Mem(), Placing(config.FirstSlot(p), cur0))
      modifies directory
      ensures Progress(config, job, before, Mem(), Copying(0))
    {
      hide Progress, CountEntry, CopyEntry, PlaceWord, Target, Config.FirstSlot, Config.Valid;
      ProgressStep(config, job, before, Mem(), Placing(config.FirstSlot(p), cur0));
      var cur := cur0;
      for i := config.FirstSlot(p) to config.FirstSlot(p + 1)
        invariant Progress(config, job, before, Mem(), Placing(i, cur))
      {
        ProgressStep(config, job, before, Mem(), Placing(i, cur));
        cur := PlaceSlot(i, cur);
      }
      ProgressStep(config, job, before, Mem(), Placing(config.FirstSlot(p + 1), cur));
    }

    method CopyPass(lists: seq<seq<Entry>>, ghost job: Job, ghost before: Memory)
      requires job.entries == Flatten(lists) && Progress(config, job, before, Mem(), Copying(0))
      modifies directory, tuples
      ensures Progress(config, job, before, Mem(), Copying(|job.entries|))
    {
      hide Flatten, Progress, CountEntry, CopyEntry, PlaceWord, Target, Config.FirstSlot, Config.Valid;
      FlattenEnds(lists);
      for t := 0 to |lists|
        invariant Progress(config, job, before, Mem(), Copying(|Flatten(lists[..t])|))
      {
        FlattenNext(lists, t);
        for j := 0 to |lists[t]|
          invariant Progress(config, job, before, Mem(), Copying(|Flatten(lists[..t])| + j))
        {
          FlattenAt(lists, t, j);
          ProgressStep(config, job, before, Mem(), Copying(|Flatten(lists[..t])| + j));
          CopyTuple(lists[t][j]);
        }
      }
    }

    /** build_parallel: partition the rows, lay out the partitions, and let every thread t build the partitions
        t, t + numThreads, t + 2 * numThreads, ... */
    method BuildParallel(column: seq<Option<int>>, numThreads: nat, arena: Arena) returns (ghost parts: seq<seq<Entry>>)
      requires config.Valid() && numThreads > 0 && arena.HeapIsSound()
      requires directory.Length == config.Slots() + 1 && |column| <= tuples.Length
      requires config.base + ENTRY_SIZE * (tuples.Length + 1) < POSITION_LIMIT
      requires directory[0] == Pack(config.base, 0) && forall i :: 0 < i < directory.Length ==> directory[i] == 0
      modifies directory, tuples
      ensures Built(config, Flatten(parts), Mem())
      ensures multiset(Flatten(parts)) == multiset(Rows(column, 0, |column|))
      ensures LeftByEverySchedule(config, parts, old(Mem()), Mem())
    {
      hide SlabMemory.Valid, Arena.HeapIsSound, Ready, AllInvariant, JobInvariant, WritesOnly, Flatten, Parts, Lists,
        Rows, Built, Ranges, Config.Valid, Config.Slots;
      var starts := SplitRows(|column|, numThreads);
      var slab := PartitionRows(config, column, starts, arena);
      parts := Parts(slab.log, numThreads);
      LogIsReady(config, column, starts, slab.log, Mem());
      AllStart(config, parts, Mem());
      var offsets := PartitionOffsets(slab);
      assert LaidOut(slab.log, numThreads, offsets, parts);
      ghost var before := Mem();
      BuildPartitions(slab, offsets, parts);
      EveryScheduleLeaves(config, parts, before, Mem());
    }

    /** The third step of build_parallel. */
    method BuildPartitions(slab: SlabMemory, offsets: seq<nat>, ghost parts: seq<seq<Entry>>)
      requires slab.Valid() && slab.threads > 0 && LaidOut(slab.log, slab.threads, offsets, parts)
      requires AllInvariant(config, parts, Mem(), seq(NUM_PARTITIONS, p => Counting(0))) && directory.Length > 0
      requires directory[0] == Pack(config.base, 0)
      modifies directory, tuples
      ensures Built(config, Flatten(parts), Mem()) && Outside(parts, old(Mem()), Mem())
    {
      hide SlabMemory.Valid, Arena.HeapIsSound, AllInvariant, LaidOut, Built, Flatten, Outside, DoneUpTo;
      var n := slab.threads;
      ghost var before := Mem();
      NothingOutside(config, parts, before);
      NothingDone(n);
      for t := 0 to n
        invariant slab.Valid() && slab.threads == n && LaidOut(slab.log, n, offsets, parts)
        invariant AllInvariant(config, parts, Mem(), DoneUpTo(n, t, t))
        invariant directory[0] == Pack(config.base, 0) && Outside(parts, before, Mem())
      {
        var p := t;
        SmallRemainder(t, n);
        while p < NUM_PARTITIONS
          invariant p % n == t && slab.Valid() && slab.threads == n && LaidOut(slab.log, n, offsets, parts)
          invariant AllInvariant(config, parts, Mem(), DoneUpTo(n, t, p))
          invariant directory[0] == Pack(config.base, 0) && Outside(parts, before, Mem())
        {
          ghost var now := Mem();
          PartitionDone(n, t, p);
          BuildPartition(p, slab, offsets, parts, DoneUpTo(n, t, p));
          OutsideTwice(parts, before, now, Mem());
          RoundRobin(p, n);
          p := p + n;
        }
        ThreadDone(n, t, p);
      }
      AllDone(n);
      FinishedIsBuilt(config, parts, Mem());
    }

    method BuildPartition(p: nat, slab: SlabMemory, offsets: seq<nat>, ghost parts: seq<seq<Entry>>,
                          ghost phases: seq<Phase>)
      requires slab.Valid() && p < NUM_PARTITIONS && LaidOut(slab.log, slab.threads, offsets, parts)
      requires AllInvariant(config, parts, Mem(), phases) && phases[p] == Counting(0) && directory.Length > 0
      modifies directory, tuples
      ensures AllInvariant(config, parts, Mem(), phases[p := Finished])
      ensures directory[0] == old(directory[0]) && Outside(parts, old(Mem()), Mem())
    {
      PartOf(config, slab.log, slab.threads, offsets, parts, Mem(), phases, p);
      hide SlabMemory.Valid, Arena.HeapIsSound, AllInvariant, LaidOut, WritesOnly, JobInvariant, Lists;
      var lists := CollectLists(slab, p);
      ghost var before := Mem();
      PostProcessBuild(p, offsets[p], lists);
      JobMoves(config, parts, before, Mem(), phases, p, Finished);
    }

    /** The range of tuple cells that may hold the key, or None if the Bloom tag rules the key out. */
    method Lookup(key: int, ghost es: seq<Entry>) returns (range: Option<(nat, nat)>)
      requires Built(config, es, Mem()) && config.base + ENTRY_SIZE * (tuples.Length + 1) < POSITION_LIMIT
      ensures range == None <==> !CouldContain(TagsOf(config, es, config.Slot(key)), config.Tag(key))
      ensures range == None <==> Rejected(config, es, key)
      ensures range == None ==> WithKey(es, key) == []
      ensures range.Some? ==> var (start, end) := range.value;
        && start <= end <= tuples.Length && tuples[start..end] == Bucket(config, es, config.Slot(key))
        && WithKey(tuples[start..end], key) == WithKey(es, key)
    {
      hide Bucket, Below, TagsOf, Config.Slot, Config.Tag, Built, Low16, Shr16, CouldContain, WithKey, Rejected;
      KeyRange(config, es, Mem(), key);
      RejectedIff(config, es, key);
      var slot := config.Slot(key);
      var entry := directory[slot + 1];
      if !CouldContain(Low16(entry), config.Tag(key)) {
        if WithKey(es, key) != [] { TagsCover(config, es, key); }
        return None;
      }
      var start, end := Shr16(directory[slot]), Shr16(entry);
      return Some(((start - config.base) / ENTRY_SIZE, (end - config.base) / ENTRY_SIZE));
    }
  }

  /** Bits 21 to 31 of the key's hash choose the key's tag from the table. */
  predicate TagHasBit(c: Config, key: int, b: nat)
    requires c.Valid()
  {
    Bit(c.tags[c.hash(key) % 0x1_0000_0000 / 0x20_0000], b)
  }

  /** The top k bits of the hash are equal. */
  predicate SameSlot(c: Config, a: int, b: int)
    requires c.Valid()
  {
    c.hash(a) / Pow2(64 - c.k) == c.hash(b) / Pow2(64 - c.k)
  }

  /** A bit of the key's tag that no entry of its slot has in its own tag. */
  ghost predicate MissingBit(c: Config, es: seq<Entry>, key: int, b: nat)
    requires c.Valid()
  {
    b < 16 && TagHasBit(c, key, b) && forall e :: e in es && SameSlot(c, e.key, key) ==> !TagHasBit(c, e.key, b)
  }

  ghost predicate Rejected(c: Config, es: seq<Entry>, key: int)
    requires c.Valid()
  {
    exists b: nat :: MissingBit(c, es, key, b)
  }

  lemma {:induction false} TagsOfBits(c: Config, es: seq<Entry>, key: int, b: nat)
    requires c.Valid()
    ensures Bit(TagsOf(c, es, c.Slot(key)), b) <==>
      exists n :: 0 <= n < |es| && SameSlot(c, es[n].key, key) && TagHasBit(c, es[n].key, b)
  {
    if es == [] {
      ZeroBit(b);
    } else {
      var before, e := es[..|es| - 1], es[|es| - 1];
      TagsOfBits(c, before, key, b);
      OrBit(TagsOf(c, before, c.Slot(key)), c.Tag(e.key), b);
      hide Bit, Or;
      forall n | 0 <= n < |before| ensures before[n] == es[n] {}
    }
  }

  lemma RejectedIff(c: Config, es: seq<Entry>, key: int)
    requires c.Valid()
    ensures Rejected(c, es, key) <==> !CouldContain(TagsOf(c, es, c.Slot(key)), c.Tag(key))
  {
    hide Bit, TagsOf, MissingBit, CouldContain, Config.Slot, Config.Tag;
    var tags, tag := TagsOf(c, es, c.Slot(key)), c.Tag(key);
    CouldContainBits(tags, tag);
    if Rejected(c, es, key) {
      var b: nat :| MissingBit(c, es, key, b);
      MissingIff(c, es, key, b);
    }
    if !CouldContain(tags, tag) {
      var b: nat :| Bit(tag, b) && !Bit(tags, b);
      MissingIff(c, es, key, b);
    }
  }

  lemma MissingIff(c: Config, es: seq<Entry>, key: int, b: nat)
    requires c.Valid()
    ensures MissingBit(c, es, key, b) <==> Bit(c.Tag(key), b) && !Bit(TagsOf(c, es, c.Slot(key)), b)
  {
    hide Bit, TagsOf, SameSlot, Config.Slot;
    TagsOfBits(c, es, key, b);
    WordSizes();
    if b >= 16 { HighBits(16, c.Tag(key), b); }
    if forall e :: e in es && SameSlot(c, e.key, key) ==> !TagHasBit(c, e.key, b) {
      forall n | 0 <= n < |es| && SameSlot(c, es[n].key, key) ensures !TagHasBit(c, es[n].key, b) {
        assert es[n] in es;
      }
    }
  }

  lemma NothingOutside(c: Config, parts: seq<seq<Entry>>, m: Memory)
    requires AllInvariant(c, parts, m, seq(NUM_PARTITIONS, p => Counting(0)))
    ensures Outside(parts, m, m)
  {
    hide Flatten;
  }

  lemma OutsideTwice(parts: seq<seq<Entry>>, m: Memory, m': Memory, m'': Memory)
    requires Outside(parts, m, m') && Outside(parts, m', m'')
    ensures Outside(parts, m, m'')
  {
    hide Flatten;
  }

  /** Run from memory m, every complete schedule of the partition jobs ends with memory m'. */
  ghost predicate LeftByEverySchedule(c: Config, parts: seq<seq<Entry>>, m: Memory, m': Memory) {
    var start: seq<Phase> := seq(NUM_PARTITIONS, p => Counting(0));
    AllInvariant(c, parts, m, start) &&
      forall schedule: seq<PartitionId> ::
        Run(c, parts, m, start, schedule).1 == seq(NUM_PARTITIONS, p => Finished) ==>
          Run(c, parts, m, start, schedule).0 == m'
  }

  lemma EveryScheduleLeaves(c: Config, parts: seq<seq<Entry>>, m: Memory, m': Memory)
    requires AllInvariant(c, parts, m, seq(NUM_PARTITIONS, p => Counting(0))) && |m.directory| > 0
    requires m.directory[0] == Pack(c.base, 0)
    requires Built(c, Flatten(parts), m') && Outside(parts, m, m')
    ensures LeftByEverySchedule(c, parts, m, m')
  {
    hide Run, AllInvariant, Built, Outside, Flatten;
    var start: seq<Phase> := seq(NUM_PARTITIONS, p => Counting(0));
    forall schedule: seq<PartitionId> | Run(c, parts, m, start, schedule).1 == seq(NUM_PARTITIONS, p => Finished)
      ensures Run(c, parts, m, start, schedule).0 == m'
    {
      ScheduleBuilds(c, parts, m, start, schedule, m');
    }
  }

  /** A slot's range ends at its own word's position and starts at its neighbour's. */
  lemma SlotRange(c: Config, es: seq<Entry>, m: Memory, i: nat)
    requires Built(c, es, m) && i < c.Slots() && c.base + ENTRY_SIZE * (|m.tuples| + 1) < POSITION_LIMIT
    ensures Shr16(m.directory[i]) == c.base + ENTRY_SIZE * Below(c, es, i)
    ensures Shr16(m.directory[i + 1]) == c.base + ENTRY_SIZE * Below(c, es, i + 1)
    ensures Low16(m.directory[i + 1]) == TagsOf(c, es, i)
    ensures Below(c, es, i) <= Below(c, es, i + 1) <= |m.tuples|
    ensures m.tuples[Below(c, es, i)..Below(c, es, i + 1)] == Bucket(c, es, i)
  {
    assert SlotBuilt(c, es, m, i);
    BelowNext(c, es, i);
    BelowMonotone(c, es, i, i + 1);
    if i == 0 {
      forall e | e in es ensures 0 <= c.Slot(e.key) < c.Slots() { PartitionOwnsSlots(c, e.key, 0); }
      BelowBounds(c, es, 0, c.Slots(), 0);
      Unpack(c.base, 0);
    } else {
      assert SlotBuilt(c, es, m, i - 1);
      hide Built, SlotBuilt;
      Unpack(c.base + ENTRY_SIZE * Below(c, es, i), TagsOf(c, es, i - 1));
    }
    Unpack(c.base + ENTRY_SIZE * Below(c, es, i + 1), TagsOf(c, es, i));
  }

  /** The words on both sides of a key's slot delimit the key's bucket. */
  lemma KeyRange(c: Config, es: seq<Entry>, m: Memory, key: int)
    requires Built(c, es, m) && c.base + ENTRY_SIZE * (|m.tuples| + 1) < POSITION_LIMIT
    ensures c.Valid() && 0 <= c.Slot(key) < c.Slots() && |m.directory| == c.Slots() + 1
    ensures Low16(m.directory[c.Slot(key) + 1]) == TagsOf(c, es, c.Slot(key))
    ensures var slot := c.Slot(key);
      var start := (Shr16(m.directory[slot]) - c.base) / ENTRY_SIZE;
      var end := (Shr16(m.directory[slot + 1]) - c.base) / ENTRY_SIZE;
      && 0 <= start <= end <= |m.tuples| && m.tuples[start..end] == Bucket(c, es, slot)
      && WithKey(m.tuples[start..end], key) == WithKey(es, key)
  {
    hide Bucket, Below, TagsOf, Config.Slot, Config.Slots, Low16, Shr16, WithKey;
    PartitionOwnsSlots(c, key, 0);
    SlotRange(c, es, m, c.Slot(key));
    BucketHasKey(c, es, key);
  }

  /** What a probe keeps of the range it is given: exactly the build rows with its key, whatever the hash function,
      the number of threads and the interleaving. */
  lemma LookupIsExact(c: Config, es: seq<Entry>, m: Memory, column: seq<Option<int>>, key: int)
    requires Built(c, es, m) && multiset(es) == multiset(Rows(column, 0, |column|))
    ensures multiset(WithKey(Bucket(c, es, c.Slot(key)), key)) == multiset(WithKey(Rows(column, 0, |column|), key))
  {
    BucketHasKey(c, es, key);
    var rows := Rows(column, 0, |column|);
    forall e ensures multiset(WithKey(es, key))[e] == multiset(WithKey(rows, key))[e] {
      WithKeyCounts(es, key, e);
      WithKeyCounts(rows, key, e);
    }
  }

  /** The partitions' entries, and the number of entries before each partition. */
  ghost predicate LaidOut(log: seq<seq<Entry>>, n: nat, offsets: seq<nat>, parts: seq<seq<Entry>>) {
    && |log| == n * NUM_PARTITIONS && parts == Parts(log, n) && |offsets| == NUM_PARTITIONS + 1
    && forall p :: 0 <= p <= NUM_PARTITIONS ==> offsets[p] == |Flatten(parts[..p])|
  }

  lemma PartOf(c: Config, log: seq<seq<Entry>>, n: nat, offsets: seq<nat>, parts: seq<seq<Entry>>, m: Memory,
               phases: seq<Phase>, p: nat)
    requires LaidOut(log, n, offsets, parts) && AllInvariant(c, parts, m, phases) && p < NUM_PARTITIONS
    ensures |log| == n * NUM_PARTITIONS && |offsets| == NUM_PARTITIONS + 1 && |parts| == |phases| == NUM_PARTITIONS
    ensures JobOf(parts, p) == Job(p, offsets[p], Flatten(Lists(log, n, p)))
    ensures JobInvariant(c, JobOf(parts, p), m, phases[p])
  {
  }

  lemma LogIsReady(c: Config, column: seq<Option<int>>, starts: seq<nat>, log: seq<seq<Entry>>, m: Memory)
    requires Ranges(starts, |column|) && RowsLogged(c, column, starts, starts[1..], log)
    requires c.Valid() && |m.directory| == c.Slots() + 1 && |column| <= |m.tuples|
    requires c.base + ENTRY_SIZE * (|m.tuples| + 1) < POSITION_LIMIT
    ensures Ready(c, Parts(log, |starts| - 1), m)
    ensures multiset(Flatten(Parts(log, |starts| - 1))) == multiset(Rows(column, 0, |column|))
  {
    var parts := Parts(log, |starts| - 1);
    PartsAreRows(c, column, starts, log);
    RowsBound(column, 0, |column|);
    assert |multiset(Flatten(parts))| == |Flatten(parts)|;
    forall p, e: Entry | 0 <= p < NUM_PARTITIONS && e in parts[p] ensures c.Partition(e.key) == p {
      PartHasPartition(c, column, starts, log, p, e);
    }
  }

  /** After partition p, thread p % n goes on with p + n and skips none of its own. */
  lemma RoundRobin(p: nat, n: nat)
    requires n > 0
    ensures (p + n) % n == p % n
    ensures forall q: nat :: q % n == p % n ==> (q < p + n <==> q <= p)
  {
    SameRemainder(p, n);
    forall q: nat | q % n == p % n && p < q ensures q >= p + n {
      Quotient(p, n);
      Quotient(q, n);
      Gap(p / n, q / n, n, p % n);
    }
  }

  /** Where the jobs stand when threads before t are done and thread t has come to partition p. */
  function DoneUpTo(n: nat, t: nat, p: nat): (phases: seq<Phase>)
    requires n > 0
    ensures |phases| == NUM_PARTITIONS
  {
    seq(NUM_PARTITIONS, q => if q % n < t || (q % n == t && q < p) then Finished else Counting(0))
  }

  lemma NothingDone(n: nat)
    requires n > 0
    ensures DoneUpTo(n, 0, 0) == seq(NUM_PARTITIONS, p => Counting(0))
  {
  }

  lemma PartitionDone(n: nat, t: nat, p: nat)
    requires n > 0 && p % n == t && p < NUM_PARTITIONS
    ensures DoneUpTo(n, t, p)[p] == Counting(0) && DoneUpTo(n, t, p)[p := Finished] == DoneUpTo(n, t, p + n)
  {
    RoundRobin(p, n);
  }

  lemma ThreadDone(n: nat, t: nat, p: nat)
    requires n > 0 && p >= NUM_PARTITIONS
    ensures DoneUpTo(n, t, p) == DoneUpTo(n, t + 1, t + 1)
  {
    forall q | 0 <= q < NUM_PARTITIONS && q % n == t + 1 ensures q >= t + 1 { RemainderAtMost(q, n); }
  }

  lemma AllDone(n: nat)
    requires n > 0
    ensures DoneUpTo(n, n, n) == seq(NUM_PARTITIONS, p => Finished)
  {
  }

  lemma RemainderAtMost(q: nat, n: nat)
    requires n > 0
    ensures q % n <= q
  {
    Quotient(q, n);
    MulMono(0, q / n, n);
  }

  lemma SmallRemainder(t: nat, n: nat)
    requires t < n
    ensures t % n == t
  {
    DivRange(t, n, 0);
    Quotient(t, n);
  }

  lemma Quotient(p: nat, n: nat)
    requires n > 0
    ensures p == (p / n) * n + p % n
  {
  }

  lemma SameRemainder(p: nat, n: nat)
    requires n > 0
    ensures (p + n) % n == p % n
  {
    DivRange(p, n, p / n);
    assert (p / n + 1) * n == (p / n) * n + n && (p / n + 2) * n == (p / n) * n + 2 * n;
    DivRange(p + n, n, p / n + 1);
    Quotient(p, n);
    Quotient(p + n, n);
  }

  lemma Gap(a: nat, b: nat, n: nat, r: nat)
    requires a * n + r < b * n + r
    ensures a * n + r + n <= b * n + r
  {
    if b <= a { MulMono(b, a, n); } else { MulMono(a + 1, b, n); }
  }

  lemma ProgressIs(c: Config, job: Job, before: Memory, m: Memory, ph: Phase)
    requires Progress(c, job, before, m, ph)
    ensures JobInvariant(c, job, m, ph) && WritesOnly(c, job, before, m)
  {
  }

  /** The job has come from memory `before` to memory m, and stands at ph. */
  ghost predicate Progress(c: Config, job: Job, before: Memory, m: Memory, ph: Phase) {
    JobInvariant(c, job, m, ph) && WritesOnly(c, job, before, m)
  }

  lemma ProgressStep(c: Config, job: Job, before: Memory, m: Memory, ph: Phase)
    requires Progress(c, job, before, m, ph)
    ensures c.Valid() && |m.directory| == c.Slots() + 1 && c.FirstSlot(job.p) <= c.FirstSlot(job.p + 1) <= c.Slots()
    ensures c.base + ENTRY_SIZE * job.prev < 0x1_0000_0000_0000_0000
    ensures var (m', ph') := Step(c, job, m, ph); Progress(c, job, before, m', ph')
    ensures ph.Copying? && ph.n < |job.entries| ==> 0 <= Target(c, m.directory, job.entries[ph.n]) < |m.tuples|
  {
    JobStep(c, job, m, ph);
    hide Step, JobInvariant, Target, Config.FirstSlot, Config.Slots;
    WritesOnlyTwice(c, job, before, m, Step(c, job, m, ph).0);
  }

  lemma JobStep(c: Config, job: Job, m: Memory, ph: Phase)
    requires JobInvariant(c, job, m, ph)
    ensures c.Valid() && |m.directory| == c.Slots() + 1 && c.FirstSlot(job.p) <= c.FirstSlot(job.p + 1) <= c.Slots()
    ensures c.base + ENTRY_SIZE * job.prev < 0x1_0000_0000_0000_0000
    ensures var (m', ph') := Step(c, job, m, ph); JobInvariant(c, job, m', ph') && WritesOnly(c, job, m, m')
    ensures ph.Copying? && ph.n < |job.entries| ==> 0 <= Target(c, m.directory, job.entries[ph.n]) < |m.tuples|
  {
    OwnSlots(c, m, job);
    StepKeepsOwn(c, job, m, ph);
    StepWritesOnlyOwn(c, job, m, ph);
    if ph.Copying? && ph.n < |job.entries| { CopyInBounds(c, job, m, ph.n); }
    hide Step, Invariant, Owns, Target, Config.FirstSlot, WritesOnly;
  }

  lemma WritesOnlyTwice(c: Config, job: Job, m: Memory, m': Memory, m'': Memory)
    requires WritesOnly(c, job, m, m') && WritesOnly(c, job, m', m'')
    ensures WritesOnly(c, job, m, m'')
  {
    hide Owns;
  }

  lemma {:induction false} Pow2Monotone(m: nat, n: nat)
    requires m <= n
    ensures Pow2(m) <= Pow2(n)
  {
    if m < n { Pow2Monotone(m, n - 1); }
  }

  lemma Doubled(k: nat)
    ensures Pow2(k + 1) == 2 * Pow2(k)
  {
  }

  lemma Capacity(k: nat)
    requires k <= 30
    ensures Pow2(k) <= 0x4000_0000 == Pow2(30)
  {
    Pow2Monotone(k, 30);
    WordSizes();
    Pow2Add(16, 14);
    Pow2Add(8, 6);
  }
}

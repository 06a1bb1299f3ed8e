/** The lock-free third step of the parallel build.  The entries of one partition are one job; a job runs three
    passes over shared memory, one entry or one slot to a step, and the steps of different jobs may interleave
    freely. */
module Builder {
  import opened Bits
  import opened PackedWord
  import opened Slab
  import opened Directory

  /** The table's memory.  Cell i + 1 of directory is the program's directory[i]; cell 0 is directory[-1]. */
  datatype Memory = Memory(directory: seq<U64>, tuples: seq<Entry>)

  /** One partition: its number, how many entries come before it, and its own entries in visiting order. */
  datatype Job = Job(p: nat, prev: nat, entries: seq<Entry>)

  /** Where a job stands: counting entry n, turning slot i into a cursor, copying entry n, or done. */
  datatype Phase = Counting(n: nat) | Placing(i: nat, cur: U64) | Copying(n: nat) | Finished

  ghost predicate Fits(c: Config, m: Memory, job: Job) {
    && c.Valid()
    && |m.directory| == c.Slots() + 1
    && job.p < NUM_PARTITIONS
    && job.prev + |job.entries| <= |m.tuples|
    && c.base + ENTRY_SIZE * (|m.tuples| + 1) < POSITION_LIMIT
    && forall e :: e in job.entries ==> c.Partition(e.key) == job.p
  }

  ghost predicate Owns(c: Config, job: Job, i: nat) {
    c.FirstSlot(job.p) <= i < c.FirstSlot(job.p + 1)
  }

  // One step of a job, as the program executes it.

  function Step(c: Config, job: Job, m: Memory, ph: Phase): (Memory, Phase)
    requires c.Valid() && |m.directory| == c.Slots() + 1
    requires c.base + ENTRY_SIZE * job.prev < 0x1_0000_0000_0000_0000 && c.FirstSlot(job.p + 1) <= c.Slots()
  {
    match ph
    case Counting(n) =>
      if n < |job.entries| then
        (m.(directory := CountEntry(c, m.directory, job.entries[n])), Counting(n + 1))
      else (m, Placing(c.FirstSlot(job.p), c.base + ENTRY_SIZE * job.prev))
    case Placing(i, cur) =>
      if i < c.FirstSlot(job.p + 1) then
        (m.(directory := m.directory[i + 1 := PlaceWord(m.directory[i + 1], cur)]),
         Placing(i + 1, Add64(cur, Shr16(m.directory[i + 1]))))
      else (m, Copying(0))
    case Copying(n) =>
      if n < |job.entries| then (CopyEntry(c, m, job.entries[n]), Copying(n + 1)) else (m, Finished)
    case Finished => (m, ph)
  }

  function CountEntry(c: Config, directory: seq<U64>, e: Entry): seq<U64>
    requires c.Valid() && |directory| == c.Slots() + 1
  {
    PartitionOwnsSlots(c, e.key, 0);
    var s := c.Slot(e.key) + 1;
    directory[s := CountWord(directory[s], c.Tag(e.key))]
  }

  /** The cell that the cursor of e's slot points at. */
  function Target(c: Config, directory: seq<U64>, e: Entry): int
    requires c.Valid() && |directory| == c.Slots() + 1
  {
    PartitionOwnsSlots(c, e.key, 0);
    (Shr16(directory[c.Slot(e.key) + 1]) - c.base) / ENTRY_SIZE
  }

  /** Stores the entry where its slot's cursor points and moves the cursor on.  A target outside the tuple storage
      would be lost; CopyInBounds shows that there is none. */
  function CopyEntry(c: Config, m: Memory, e: Entry): Memory
    requires c.Valid() && |m.directory| == c.Slots() + 1
  {
    PartitionOwnsSlots(c, e.key, 0);
    var s, t := c.Slot(e.key) + 1, Target(c, m.directory, e);
    Memory(m.directory[s := AdvanceWord(m.directory[s])], if 0 <= t < |m.tuples| then m.tuples[t := e] else m.tuples)
  }

  // What holds of a job's own part of memory in each phase.

  function CountedWord(c: Config, es: seq<Entry>, i: nat): nat
    requires c.Valid()
  {
    Pack(ENTRY_SIZE * |Bucket(c, es, i)|, TagsOf(c, es, i))
  }

  /** Where the n-entry prefix of bucket i ends. */
  function Cursor(c: Config, job: Job, n: nat, i: nat): nat
    requires c.Valid() && n <= |job.entries|
  {
    job.prev + Below(c, job.entries, i) + |Bucket(c, job.entries[..n], i)|
  }

  function CursorWord(c: Config, job: Job, n: nat, i: nat): nat
    requires c.Valid() && n <= |job.entries|
  {
    Pack(c.base + ENTRY_SIZE * Cursor(c, job, n, i), TagsOf(c, job.entries, i))
  }

  ghost predicate Stored(m: Memory, start: nat, es: seq<Entry>) {
    start + |es| <= |m.tuples| && m.tuples[start..start + |es|] == es
  }

  ghost predicate BucketsStored(c: Config, job: Job, m: Memory, n: nat)
    requires c.Valid() && n <= |job.entries|
  {
    forall i: nat :: Owns(c, job, i) ==> Stored(m, job.prev + Below(c, job.entries, i), Bucket(c, job.entries[..n], i))
  }

  ghost predicate WordsAre(c: Config, job: Job, m: Memory, n: nat)
    requires c.Valid() && n <= |job.entries| && |m.directory| == c.Slots() + 1 && job.p < NUM_PARTITIONS
  {
    forall i: nat :: Owns(c, job, i) && i < c.Slots() ==> m.directory[i + 1] == CursorWord(c, job, n, i)
  }

  ghost predicate CountsAre(c: Config, job: Job, m: Memory, n: nat)
    requires c.Valid() && n <= |job.entries| && |m.directory| == c.Slots() + 1
  {
    forall i: nat :: Owns(c, job, i) && i < c.Slots() ==> m.directory[i + 1] == CountedWord(c, job.entries[..n], i)
  }

  ghost predicate PlacedUpTo(c: Config, job: Job, m: Memory, k: nat)
    requires c.Valid() && |m.directory| == c.Slots() + 1
  {
    forall i: nat :: Owns(c, job, i) && i < c.Slots() ==>
      m.directory[i + 1] == if i < k then CursorWord(c, job, 0, i) else CountedWord(c, job.entries, i)
  }

  ghost predicate Invariant(c: Config, job: Job, m: Memory, ph: Phase)
    requires Fits(c, m, job)
  {
    match ph
    case Counting(n) => n <= |job.entries| && CountsAre(c, job, m, n)
    case Placing(k, cur) =>
      && c.FirstSlot(job.p) <= k <= c.FirstSlot(job.p + 1) && cur == c.base + ENTRY_SIZE * Cursor(c, job, 0, k)
      && PlacedUpTo(c, job, m, k)
    case Copying(n) =>
      n <= |job.entries| && WordsAre(c, job, m, n) && BucketsStored(c, job, m, n)
    case Finished =>
      WordsAre(c, job, m, |job.entries|) && BucketsStored(c, job, m, |job.entries|)
  }

  lemma OwnSlots(c: Config, m: Memory, job: Job)
    requires Fits(c, m, job)
    ensures c.FirstSlot(job.p) <= c.FirstSlot(job.p + 1) <= c.Slots()
    ensures forall e :: e in job.entries ==> Owns(c, job, c.Slot(e.key))
  {
    FirstSlotIs(c, 0);
    FirstSlotMonotone(c, job.p, job.p + 1);
    FirstSlotMonotone(c, job.p + 1, NUM_PARTITIONS);
    forall e | e in job.entries ensures Owns(c, job, c.Slot(e.key)) { PartitionOwnsSlots(c, e.key, job.p); }
  }

  /** No slot's cursor leaves its bucket: it stays within [start, start + count]. */
  lemma CursorBounds(c: Config, job: Job, n: nat, i: nat)
    requires c.Valid() && n <= |job.entries|
    ensures Below(c, job.entries, i) + |Bucket(c, job.entries[..n], i)| <= Below(c, job.entries, i + 1) <= |job.entries|
    ensures n < |job.entries| && c.Slot(job.entries[n].key) == i ==>
              Below(c, job.entries, i) + |Bucket(c, job.entries[..n], i)| < Below(c, job.entries, i + 1)
  {
    hide Config.FirstSlot, Config.Slot, Config.Tag, Config.Partition, Bucket, Below, TagsOf;
    var es := job.entries;
    BelowNext(c, es, i);
    BelowMonotone(c, es, i + 1, i + 1);
    assert es == es[..n] + es[n..];
    Concat(c, es[..n], es[n..], i);
    if n < |es| {
      assert es == es[..n + 1] + es[n + 1..];
      assert es[..n + 1] == es[..n] + [es[n]];
      Concat(c, es[..n + 1], es[n + 1..], i);
      Extend(c, es[..n], es[n], i);
    }
  }

  // How the words of one slot move through the passes.

  lemma CountedNext(c: Config, es: seq<Entry>, n: nat, i: nat)
    requires c.Valid() && n < |es| && ENTRY_SIZE * (|es| + 1) < POSITION_LIMIT
    ensures CountedWord(c, es[..n], i) < 0x1_0000_0000_0000_0000
    ensures CountedWord(c, es[..n + 1], i) ==
      var w := CountedWord(c, es[..n], i); if c.Slot(es[n].key) == i then CountWord(w, c.Tag(es[n].key)) else w
  {
    hide Config.FirstSlot, Config.Slot, Config.Tag, Config.Partition;
    assert es[..n + 1] == es[..n] + [es[n]];
    Extend(c, es[..n], es[n], i);
    CursorBounds(c, Job(0, 0, es), n, i);
    CountActsOnPair(ENTRY_SIZE * |Bucket(c, es[..n], i)|, TagsOf(c, es[..n], i), c.Tag(es[n].key));
  }

  lemma PlacedNext(c: Config, m: Memory, job: Job, i: nat)
    requires Fits(c, m, job)
    ensures CountedWord(c, job.entries, i) < 0x1_0000_0000_0000_0000
    ensures c.base + ENTRY_SIZE * Cursor(c, job, 0, i + 1) < POSITION_LIMIT
    ensures var w, cur := CountedWord(c, job.entries, i), c.base + ENTRY_SIZE * Cursor(c, job, 0, i);
      && cur < POSITION_LIMIT && PlaceWord(w, cur) == CursorWord(c, job, 0, i)
      && Add64(cur, Shr16(w)) == c.base + ENTRY_SIZE * Cursor(c, job, 0, i + 1)
  {
    hide Config.FirstSlot, Config.Slot, Config.Tag, Config.Partition, Bucket, Below, TagsOf, PlaceWord, Shr16, Cursor;
    BelowNext(c, job.entries, i);
    BelowMonotone(c, job.entries, i + 1, i + 1);
    NoneYet(c, job, i);
    NoneYet(c, job, i + 1);
    var pos, tag := ENTRY_SIZE * |Bucket(c, job.entries, i)|, TagsOf(c, job.entries, i);
    PlaceActsOnPair(pos, tag, c.base + ENTRY_SIZE * Cursor(c, job, 0, i));
    Unpack(pos, tag);
  }

  lemma NoneYet(c: Config, job: Job, i: nat)
    requires c.Valid()
    ensures Bucket(c, job.entries[..0], i) == [] && Cursor(c, job, 0, i) == job.prev + Below(c, job.entries, i)
  {
  }

  lemma CursorNext(c: Config, m: Memory, job: Job, n: nat, i: nat)
    requires Fits(c, m, job) && n < |job.entries|
    ensures CursorWord(c, job, n, i) < 0x1_0000_0000_0000_0000
    ensures Shr16(CursorWord(c, job, n, i)) == c.base + ENTRY_SIZE * Cursor(c, job, n, i)
    ensures CursorWord(c, job, n + 1, i) ==
      var w := CursorWord(c, job, n, i); if c.Slot(job.entries[n].key) == i then AdvanceWord(w) else w
  {
    hide Config.FirstSlot, Config.Slot, Config.Tag, Config.Partition;
    var es := job.entries;
    assert es[..n + 1] == es[..n] + [es[n]];
    Extend(c, es[..n], es[n], i);
    CursorBounds(c, job, n, i);
    hide Bucket, Below, TagsOf;
    AdvanceActsOnPair(c.base + ENTRY_SIZE * Cursor(c, job, n, i), TagsOf(c, es, i));
    Unpack(c.base + ENTRY_SIZE * Cursor(c, job, n, i), TagsOf(c, es, i));
  }

  // Every step keeps the invariant of its own job.

  lemma CountingStep(c: Config, job: Job, m: Memory, n: nat)
    requires Fits(c, m, job) && n < |job.entries| && Invariant(c, job, m, Counting(n))
    ensures var m' := m.(directory := CountEntry(c, m.directory, job.entries[n]));
            Fits(c, m', job) && Invariant(c, job, m', Counting(n + 1))
  {
    hide Config.FirstSlot, Config.Slot, Config.Tag, Config.Partition;
    var es, e := job.entries, job.entries[n];
    var m' := m.(directory := CountEntry(c, m.directory, e));
    PartitionOwnsSlots(c, e.key, 0);
    hide CountedWord, Owns;
    forall i: nat | Owns(c, job, i) && i < c.Slots() ensures m'.directory[i + 1] == CountedWord(c, es[..n + 1], i) {
      CountedNext(c, es, n, i);
    }
  }

  lemma PlacingStep(c: Config, job: Job, m: Memory, k: nat, cur: U64)
    requires Fits(c, m, job) && k < c.FirstSlot(job.p + 1) && Invariant(c, job, m, Placing(k, cur))
    ensures k < c.Slots()
    ensures var w := m.directory[k + 1];
            var m' := m.(directory := m.directory[k + 1 := PlaceWord(w, cur)]);
            Fits(c, m', job) && Invariant(c, job, m', Placing(k + 1, Add64(cur, Shr16(w))))
  {
    hide Config.FirstSlot, Config.Slot, Config.Tag, Config.Partition;
    hide CountedWord, CursorWord, Cursor, PlaceWord, Add64, Shr16, PlacedUpTo, CountsAre, WordsAre, BucketsStored;
    OwnSlots(c, m, job);
    PlacedNext(c, m, job, k);
    NotPlacedYet(c, job, m, k);
    WordPlaced(c, job, m, k, PlaceWord(m.directory[k + 1], cur));
  }

  lemma NotPlacedYet(c: Config, job: Job, m: Memory, k: nat)
    requires c.Valid() && |m.directory| == c.Slots() + 1 && k < c.Slots() && Owns(c, job, k)
    requires PlacedUpTo(c, job, m, k)
    ensures m.directory[k + 1] == CountedWord(c, job.entries, k)
  {
    hide CountedWord, CursorWord, Owns;
  }

  lemma WordPlaced(c: Config, job: Job, m: Memory, k: nat, w: U64)
    requires c.Valid() && |m.directory| == c.Slots() + 1 && k < c.Slots()
    requires PlacedUpTo(c, job, m, k) && w == CursorWord(c, job, 0, k)
    ensures PlacedUpTo(c, job, m.(directory := m.directory[k + 1 := w]), k + 1)
  {
    hide CountedWord, CursorWord, Owns;
  }

  lemma CopyInBounds(c: Config, job: Job, m: Memory, n: nat)
    requires Fits(c, m, job) && n < |job.entries| && Invariant(c, job, m, Copying(n))
    ensures var t, s := Target(c, m.directory, job.entries[n]), c.Slot(job.entries[n].key);
      && t == Cursor(c, job, n, s) && job.prev + Below(c, job.entries, s) <= t < job.prev + Below(c, job.entries, s + 1)
      && t < |m.tuples|
  {
    hide Config.FirstSlot, Config.Slot, Config.Tag, Config.Partition;
    hide Bucket, Below, TagsOf, CursorWord, BucketsStored;
    var s := c.Slot(job.entries[n].key);
    OwnSlots(c, m, job);
    PartitionOwnsSlots(c, job.entries[n].key, 0);
    CursorNext(c, m, job, n, s);
    CursorBounds(c, job, n, s);
    assert m.directory[s + 1] == CursorWord(c, job, n, s);
    hide WordsAre, Shr16;
    CellNumber(c.base, Cursor(c, job, n, s));
  }

  /** The position of a cell gives back its number. */
  lemma CellNumber(base: nat, cell: nat)
    ensures (base + ENTRY_SIZE * cell - base) / ENTRY_SIZE == cell
  {
  }

  lemma StoredAppend(m: Memory, m': Memory, start: nat, es: seq<Entry>, e: Entry, t: nat)
    requires Stored(m, start, es) && t < |m.tuples| && m'.tuples == m.tuples[t := e]
    ensures t == start + |es| ==> Stored(m', start, es + [e])
    ensures t < start || start + |es| <= t ==> Stored(m', start, es)
  {
    if t == start + |es| {
      assert m'.tuples[start..t + 1] == m.tuples[start..t] + [e];
    }
  }

  /** The words after copying entry n: only its own slot's cursor moves. */
  lemma CopyingWords(c: Config, job: Job, m: Memory, n: nat)
    requires Fits(c, m, job) && n < |job.entries| && Invariant(c, job, m, Copying(n))
    requires 0 <= Target(c, m.directory, job.entries[n]) < |m.tuples|
    ensures var m' := CopyEntry(c, m, job.entries[n]); Fits(c, m', job) && WordsAre(c, job, m', n + 1)
  {
    hide Config.FirstSlot, Config.Slot, Config.Tag, Config.Partition, CursorWord, Owns, BucketsStored, Stored, Target;
    var m' := CopyEntry(c, m, job.entries[n]);
    PartitionOwnsSlots(c, job.entries[n].key, 0);
    forall i: nat | Owns(c, job, i) && i < c.Slots() ensures m'.directory[i + 1] == CursorWord(c, job, n + 1, i) {
      CursorNext(c, m, job, n, i);
    }
  }

  lemma CopyingStep(c: Config, job: Job, m: Memory, n: nat)
    requires Fits(c, m, job) && n < |job.entries| && Invariant(c, job, m, Copying(n))
    ensures var m' := CopyEntry(c, m, job.entries[n]); Fits(c, m', job) && Invariant(c, job, m', Copying(n + 1))
  {
    hide Config.FirstSlot, Config.Slot, Config.Tag, Config.Partition, WordsAre, Target, Cursor, Owns, Stored;
    var es, e, s := job.entries, job.entries[n], c.Slot(job.entries[n].key);
    CopyInBounds(c, job, m, n);
    CopyingWords(c, job, m, n);
    var m' := CopyEntry(c, m, e);
    assert m'.tuples == m.tuples[Cursor(c, job, n, s) := e];
    hide CopyEntry;
    forall i: nat | Owns(c, job, i)
      ensures Stored(m', job.prev + Below(c, es, i), Bucket(c, es[..n + 1], i))
    {
      CopyingBucket(c, job, m, m', n, i);
    }
  }

  /** The cursor that entry n is copied through lies at the end of its own bucket and in no other. */
  lemma CursorsApart(c: Config, job: Job, n: nat, i: nat)
    requires c.Valid() && n < |job.entries|
    ensures var s, start := c.Slot(job.entries[n].key), job.prev + Below(c, job.entries, i);
            var t, size := Cursor(c, job, n, s), |Bucket(c, job.entries[..n], i)|;
            if s == i then t == start + size else t < start || start + size <= t
  {
    hide Config.Slot, Bucket, Below;
    var s := c.Slot(job.entries[n].key);
    CursorBounds(c, job, n, i);
    CursorBounds(c, job, n, s);
    if i < s { BelowMonotone(c, job.entries, i + 1, s); }
    if i > s { BelowMonotone(c, job.entries, s + 1, i); }
  }

  lemma CopyingBucket(c: Config, job: Job, m: Memory, m': Memory, n: nat, i: nat)
    requires c.Valid() && n < |job.entries|
    requires var t := Cursor(c, job, n, c.Slot(job.entries[n].key));
      t < |m.tuples| && m'.tuples == m.tuples[t := job.entries[n]]
    requires Stored(m, job.prev + Below(c, job.entries, i), Bucket(c, job.entries[..n], i))
    ensures Stored(m', job.prev + Below(c, job.entries, i), Bucket(c, job.entries[..n + 1], i))
  {
    hide Config.FirstSlot, Config.Slot, Config.Tag, Config.Partition;
    var es, e, s := job.entries, job.entries[n], c.Slot(job.entries[n].key);
    var start, b, t := job.prev + Below(c, es, i), Bucket(c, es[..n], i), Cursor(c, job, n, s);
    assert Bucket(c, es[..n + 1], i) == b + (if s == i then [e] else []) by {
      assert es[..n + 1] == es[..n] + [e];
      Extend(c, es[..n], e, i);
    }
    CursorsApart(c, job, n, i);
    hide Bucket, Below, Cursor, Stored;
    StoredAppend(m, m', start, b, e, t);
    assert b + [] == b;
  }

  /** Whatever the phase, a step keeps the job's own invariant. */
  lemma StepKeepsOwn(c: Config, job: Job, m: Memory, ph: Phase)
    requires Fits(c, m, job) && Invariant(c, job, m, ph)
    ensures c.FirstSlot(job.p + 1) <= c.Slots()
    ensures var (m', ph') := Step(c, job, m, ph); Fits(c, m', job) && Invariant(c, job, m', ph')
  {
    hide Config.FirstSlot, Config.Slot, Config.Tag, Config.Partition;
    OwnSlots(c, m, job);
    match ph
    case Counting(n) => CountingKeeps(c, job, m, n);
    case Placing(i, cur) =>
      hide CountEntry, CopyEntry;
      if i < c.FirstSlot(job.p + 1) { PlacingStep(c, job, m, i, cur); } else { CopyingStarts(c, job, m, cur); }
    case Copying(n) => CopyingKeeps(c, job, m, n);
    case Finished =>
  }

  lemma CountingKeeps(c: Config, job: Job, m: Memory, n: nat)
    requires Fits(c, m, job) && Invariant(c, job, m, Counting(n)) && c.FirstSlot(job.p + 1) <= c.Slots()
    ensures var (m', ph') := Step(c, job, m, Counting(n)); Fits(c, m', job) && Invariant(c, job, m', ph')
  {
    hide Config.FirstSlot, Config.Slot, Config.Tag, Config.Partition;
    if n < |job.entries| {
      CountingStep(c, job, m, n);
      hide Invariant, CountEntry, CopyEntry;
    } else {
      assert job.entries[..n] == job.entries;
      OwnSlots(c, m, job);
      FirstCursor(c, m, job);
      hide CountEntry, CopyEntry, CursorWord, CountedWord;
    }
  }

  lemma CopyingKeeps(c: Config, job: Job, m: Memory, n: nat)
    requires Fits(c, m, job) && Invariant(c, job, m, Copying(n)) && c.FirstSlot(job.p + 1) <= c.Slots()
    ensures var (m', ph') := Step(c, job, m, Copying(n)); Fits(c, m', job) && Invariant(c, job, m', ph')
  {
    hide Config.FirstSlot, Config.Slot, Config.Tag, Config.Partition;
    hide CountEntry, CopyEntry, WordsAre, BucketsStored;
    if n < |job.entries| {
      CopyingStep(c, job, m, n);
      hide Invariant;
    }
  }

  lemma FirstCursor(c: Config, m: Memory, job: Job)
    requires Fits(c, m, job)
    ensures Cursor(c, job, 0, c.FirstSlot(job.p)) == job.prev
  {
    OwnSlots(c, m, job);
    BelowBounds(c, job.entries, c.FirstSlot(job.p), c.FirstSlot(job.p + 1), c.FirstSlot(job.p));
  }

  lemma CopyingStarts(c: Config, job: Job, m: Memory, cur: U64)
    requires Fits(c, m, job) && Invariant(c, job, m, Placing(c.FirstSlot(job.p + 1), cur))
    ensures Invariant(c, job, m, Copying(0))
  {
    hide Config.FirstSlot, Config.Slot, Config.Tag, Config.Partition;
    hide CursorWord;
    forall i: nat | Owns(c, job, i)
      ensures Stored(m, job.prev + Below(c, job.entries, i), Bucket(c, job.entries[..0], i))
    {
      CursorBounds(c, job, 0, i);
      hide Below;
    }
  }

  // Steps of different jobs touch different words.

  /** Two memories agree on the directory slots and tuple cells that belong to a job. */
  ghost predicate Agree(c: Config, job: Job, m: Memory, m': Memory) {
    && |m.directory| == |m'.directory| && |m.tuples| == |m'.tuples|
    && (forall i: nat :: Owns(c, job, i) && i + 1 < |m.directory| ==> m.directory[i + 1] == m'.directory[i + 1])
    && (forall x :: job.prev <= x < job.prev + |job.entries| && x < |m.tuples| ==> m.tuples[x] == m'.tuples[x])
  }

  lemma InvariantIsLocal(c: Config, job: Job, m: Memory, m': Memory, ph: Phase)
    requires Fits(c, m, job) && Invariant(c, job, m, ph) && Agree(c, job, m, m')
    ensures Fits(c, m', job) && Invariant(c, job, m', ph)
  {
    hide Config.FirstSlot, Config.Slot, Config.Tag, Config.Partition;
    if ph.Copying? || ph.Finished? {
      var n := if ph.Copying? then ph.n else |job.entries|;
      assert BucketsStored(c, job, m', n) by {
        hide WordsAre, Bucket, Below;
        forall i: nat | Owns(c, job, i)
          ensures Stored(m', job.prev + Below(c, job.entries, i), Bucket(c, job.entries[..n], i))
        {
          var start, b := job.prev + Below(c, job.entries, i), Bucket(c, job.entries[..n], i);
          CursorBounds(c, job, n, i);
          assert Stored(m, start, b);
          assert m'.tuples[start..start + |b|] == m.tuples[start..start + |b|];
        }
      }
    }
    hide BucketsStored, CursorWord, CountedWord, Cursor;
  }

  /** The ranges of two jobs have nothing in common. */
  ghost predicate Apart(c: Config, a: Job, b: Job)
  {
    && (c.FirstSlot(a.p + 1) <= c.FirstSlot(b.p) || c.FirstSlot(b.p + 1) <= c.FirstSlot(a.p))
    && (a.prev + |a.entries| <= b.prev || b.prev + |b.entries| <= a.prev)
  }

  /** m' differs from m at most in the directory slots and tuple cells of the job. */
  ghost predicate WritesOnly(c: Config, job: Job, m: Memory, m': Memory) {
    && |m.directory| == |m'.directory| > 0 && |m.tuples| == |m'.tuples|
    && m'.directory[0] == m.directory[0]
    && (forall i: nat :: i + 1 < |m.directory| && !Owns(c, job, i) ==> m'.directory[i + 1] == m.directory[i + 1])
    && (forall x :: 0 <= x < |m.tuples| && !(job.prev <= x < job.prev + |job.entries|) ==> m'.tuples[x] == m.tuples[x])
  }

  lemma WritesElsewhere(c: Config, job: Job, other: Job, m: Memory, m': Memory)
    requires WritesOnly(c, job, m, m') && Apart(c, job, other)
    ensures Agree(c, other, m, m')
  {
    hide Config.FirstSlot;
    forall i: nat | Owns(c, other, i) && i + 1 < |m.directory| ensures m.directory[i + 1] == m'.directory[i + 1] {
      assert !Owns(c, job, i);
    }
  }

  lemma WriteOneSlot(c: Config, job: Job, m: Memory, m': Memory, s: nat, w: U64)
    requires s + 1 < |m.directory| && Owns(c, job, s) && m' == m.(directory := m.directory[s + 1 := w])
    ensures WritesOnly(c, job, m, m')
  {
    hide Owns;
  }

  lemma StepWritesOnlyOwn(c: Config, job: Job, m: Memory, ph: Phase)
    requires Fits(c, m, job) && Invariant(c, job, m, ph)
    ensures c.FirstSlot(job.p + 1) <= c.Slots()
    ensures WritesOnly(c, job, m, Step(c, job, m, ph).0)
  {
    OwnSlots(c, m, job);
    match ph
    case Copying(n) =>
      if n < |job.entries| { CopyWritesOnlyOwn(c, job, m, n); }
      hide Config.FirstSlot, CopyEntry, CountEntry, WordsAre, BucketsStored;
    case Counting(n) =>
      if n < |job.entries| {
        var e := job.entries[n];
        PartitionOwnsSlots(c, e.key, job.p);
        hide Config.FirstSlot, Config.Slot, Config.Tag;
        WriteOneSlot(c, job, m, Step(c, job, m, ph).0, c.Slot(e.key), CountEntry(c, m.directory, e)[c.Slot(e.key) + 1]);
      }
    case Placing(i, cur) =>
      hide Config.FirstSlot;
      if i < c.FirstSlot(job.p + 1) {
        WriteOneSlot(c, job, m, Step(c, job, m, ph).0, i, PlaceWord(m.directory[i + 1], cur));
      }
    case Finished =>
  }

  lemma CopyWritesOnlyOwn(c: Config, job: Job, m: Memory, n: nat)
    requires Fits(c, m, job) && n < |job.entries| && Invariant(c, job, m, Copying(n))
    ensures WritesOnly(c, job, m, CopyEntry(c, m, job.entries[n]))
  {
    hide Below, Cursor, Target, AdvanceWord, Config.FirstSlot, Config.Slot, Config.Tag, Config.Partition;
    hide CountsAre, PlacedUpTo, WordsAre, BucketsStored;
    var e := job.entries[n];
    var s, t := c.Slot(e.key), Target(c, m.directory, e);
    OwnSlots(c, m, job);
    CopyInBounds(c, job, m, n);
    BelowMonotone(c, job.entries, s + 1, s + 1);
    WriteOneSlot(c, job, m, m.(directory := m.directory[s + 1 := AdvanceWord(m.directory[s + 1])]), s,
      AdvanceWord(m.directory[s + 1]));
  }
}

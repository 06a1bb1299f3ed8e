/** The three-level slab allocator that the parallel build partitions rows into: one arena shared by all
    threads hands out large chunks, every thread carves small chunks from its own large chunk, and every
    partition of a thread carves entries from its own small chunks, which form a LIFO list. */
module Slab {
  import opened Bits

  /** A build row: the join key and its row number. */
  datatype Entry = Entry(key: int, row: nat)

  const NUM_PARTITIONS: nat := 64
  const SMALL_CHUNK_SIZE: nat := 4096
  const LARGE_CHUNK_SIZE: nat := 65536
  const POINTER_SIZE: nat := 8                  // the next field at the front of every chunk
  const ENTRY_SIZE: nat := 8
  const ENTRIES_PER_CHUNK: nat := 511           // (SMALL_CHUNK_SIZE - POINTER_SIZE) / ENTRY_SIZE
  const SMALLS_PER_LARGE: nat := 15             // (LARGE_CHUNK_SIZE - POINTER_SIZE) / SMALL_CHUNK_SIZE

  function PartitionOf(hash: U64): (p: nat)
    ensures p < NUM_PARTITIONS
  {
    hash / 0x400_0000_0000_0000                 // the top six bits
  }

  /** Number of the list that partition p of thread t fills. */
  function ListOf(t: nat, p: nat): nat {
    t * NUM_PARTITIONS + p
  }

  /** A bump allocator: current, end and head of the chunk list, all addresses; 0 is the null pointer. */
  datatype Bump = Bump(current: nat, end: nat, chunks: nat) {
    function FreeSpace(): int { end - current }
  }

  /** Where large chunks live: the arena first, then whatever blocks the heap returns. */
  datatype Arena = Arena(base: nat, capacity: nat, heap: nat -> nat) {
    function LargeAddr(i: nat): nat {
      if i < capacity then base + LARGE_CHUNK_SIZE * i else heap(i)
    }

    /** The heap returns non-null blocks that overlap neither each other nor the arena. */
    ghost predicate HeapIsSound() {
      && 0 < base
      && (forall i :: capacity <= i ==> 0 < heap(i))
      && (forall i :: capacity <= i ==>
            heap(i) + LARGE_CHUNK_SIZE <= base || base + LARGE_CHUNK_SIZE * capacity <= heap(i))
      && (forall i, j :: capacity <= i < j ==>
            heap(i) + LARGE_CHUNK_SIZE <= heap(j) || heap(j) + LARGE_CHUNK_SIZE <= heap(i))
    }

    function SmallAddr(id: ChunkId): nat {
      LargeAddr(id.large) + POINTER_SIZE + SMALL_CHUNK_SIZE * id.slice
    }

    /** Address of entry i of a small chunk. */
    function CellAddr(id: ChunkId, i: nat): nat {
      SmallAddr(id) + POINTER_SIZE + ENTRY_SIZE * i
    }
  }

  /** Small chunk number `slice` of large chunk number `large`. */
  datatype ChunkId = ChunkId(large: nat, slice: nat)

  lemma LargeChunksDisjoint(a: Arena, i: nat, j: nat)
    requires a.HeapIsSound() && i != j
    ensures a.LargeAddr(i) + LARGE_CHUNK_SIZE <= a.LargeAddr(j) || a.LargeAddr(j) + LARGE_CHUNK_SIZE <= a.LargeAddr(i)
    ensures a.LargeAddr(i) > 0
  {
  }

  /** Small chunks with different identities never share a byte. */
  lemma SmallChunksDisjoint(a: Arena, x: ChunkId, y: ChunkId)
    requires a.HeapIsSound() && x != y && x.slice < SMALLS_PER_LARGE && y.slice < SMALLS_PER_LARGE
    ensures a.SmallAddr(x) + SMALL_CHUNK_SIZE <= a.SmallAddr(y) || a.SmallAddr(y) + SMALL_CHUNK_SIZE <= a.SmallAddr(x)
  {
    if x.large != y.large { LargeChunksDisjoint(a, x.large, y.large); }
  }

  /** The order in which a partition's entries are visited: newest chunk first, oldest entry of each chunk first. */
  function Lifo(s: seq<Entry>): seq<Entry>
    decreases |s|
  {
    if s == [] then [] else
      s[|s| - HeadCount(|s|)..] + Lifo(s[..|s| - HeadCount(|s|)])
  }

  /** How many of n entries sit in the newest chunk. */
  function HeadCount(n: nat): (c: nat)
    requires n > 0
    ensures 0 < c <= n
  {
    if n % ENTRIES_PER_CHUNK == 0 then ENTRIES_PER_CHUNK else n % ENTRIES_PER_CHUNK
  }

  /** No entry is skipped or visited twice. */
  lemma {:induction false} LifoIsPermutation(s: seq<Entry>)
    ensures multiset(Lifo(s)) == multiset(s)
    decreases |s|
  {
    if s != [] {
      var k := |s| - HeadCount(|s|);
      LifoIsPermutation(s[..k]);
      assert s == s[..k] + s[k..];
    }
  }

  function ChunksFor(n: nat): nat {
    (n + ENTRIES_PER_CHUNK - 1) / ENTRIES_PER_CHUNK
  }

  /** One partition of one thread: the entries consumed so far are stored, in order, in the chunks `ids`,
      which are linked newest first; only the newest chunk may be partial, or just added and empty. */
  ghost predicate PartitionOk(a: Arena, next: map<nat, nat>, cells: map<nat, Entry>, b: Bump, count: nat,
                              log: seq<Entry>, ids: seq<ChunkId>)
  {
    && count == |log|
    && ChunksFor(|log|) <= |ids| <= |log| / ENTRIES_PER_CHUNK + 1
    && b == HeadBump(a, |log|, ids)
    && LinksOk(a, next, ids)
    && CellsOk(a, cells, log, ids)
  }

  function HeadBump(a: Arena, count: nat, ids: seq<ChunkId>): Bump
    requires ChunksFor(count) <= |ids| <= count / ENTRIES_PER_CHUNK + 1
  {
    ChunkArithmetic(count, |ids|);
    if ids == [] then Bump(0, 0, 0) else
      var id := ids[|ids| - 1];
      Bump(a.CellAddr(id, count - ENTRIES_PER_CHUNK * (|ids| - 1)), a.SmallAddr(id) + SMALL_CHUNK_SIZE, a.SmallAddr(id))
  }

  ghost predicate LinksOk(a: Arena, next: map<nat, nat>, ids: seq<ChunkId>) {
    forall j :: 0 <= j < |ids| ==>
      ids[j].slice < SMALLS_PER_LARGE && a.SmallAddr(ids[j]) in next && next[a.SmallAddr(ids[j])] == HeadAddr(a, ids, j)
  }

  /** Address of the newest of the first j chunks. */
  function HeadAddr(a: Arena, ids: seq<ChunkId>, j: nat): nat
    requires j <= |ids|
  {
    if j == 0 then 0 else a.SmallAddr(ids[j - 1])
  }

  ghost predicate CellsOk(a: Arena, cells: map<nat, Entry>, log: seq<Entry>, ids: seq<ChunkId>) {
    forall n :: 0 <= n < |log| ==> HoldsCell(a, cells, ids, n, log[n])
  }

  ghost predicate HoldsCell(a: Arena, cells: map<nat, Entry>, ids: seq<ChunkId>, n: nat, e: Entry) {
    && n / ENTRIES_PER_CHUNK < |ids|
    && EntryAddr(a, ids, n) in cells
    && cells[EntryAddr(a, ids, n)] == e
  }

  /** Address of the n-th entry consumed from a partition whose chunks are ids. */
  function EntryAddr(a: Arena, ids: seq<ChunkId>, n: nat): nat
    requires n / ENTRIES_PER_CHUNK < |ids|
  {
    a.CellAddr(ids[n / ENTRIES_PER_CHUNK], n % ENTRIES_PER_CHUNK)
  }

  ghost predicate Distinct(ids: seq<ChunkId>) {
    forall j, k :: 0 <= j < k < |ids| ==> ids[j] != ids[k]
  }

  /** Entries in different cells never overlap, even within one chunk. */
  lemma CellsDisjoint(a: Arena, x: ChunkId, i: nat, y: ChunkId, j: nat)
    requires a.HeapIsSound() && (x != y || i != j)
    requires x.slice < SMALLS_PER_LARGE && y.slice < SMALLS_PER_LARGE && i < ENTRIES_PER_CHUNK && j < ENTRIES_PER_CHUNK
    ensures a.CellAddr(x, i) + ENTRY_SIZE <= a.CellAddr(y, j) || a.CellAddr(y, j) + ENTRY_SIZE <= a.CellAddr(x, i)
  {
    if x != y { SmallChunksDisjoint(a, x, y); }
  }

  /** Writing a cell that holds none of the partition's entries leaves its entries as they were. */
  lemma CellsFrame(a: Arena, cells: map<nat, Entry>, log: seq<Entry>, ids: seq<ChunkId>, id: ChunkId, i: nat, e: Entry)
    requires a.HeapIsSound() && CellsOk(a, cells, log, ids)
    requires forall j :: 0 <= j < |ids| ==> ids[j].slice < SMALLS_PER_LARGE
    requires id.slice < SMALLS_PER_LARGE && i < ENTRIES_PER_CHUNK
    requires forall n: nat :: n < |log| && n / ENTRIES_PER_CHUNK < |ids| ==>
               ids[n / ENTRIES_PER_CHUNK] != id || n % ENTRIES_PER_CHUNK != i
    ensures CellsOk(a, cells[a.CellAddr(id, i) := e], log, ids)
  {
    var cells' := cells[a.CellAddr(id, i) := e];
    forall n | 0 <= n < |log| ensures HoldsCell(a, cells', ids, n, log[n]) {
      assert HoldsCell(a, cells, ids, n, log[n]);
      CellsDisjoint(a, ids[n / ENTRIES_PER_CHUNK], n % ENTRIES_PER_CHUNK, id, i);
    }
  }

  /** Linking a chunk that the partition does not own leaves its list as it was. */
  lemma LinksFrame(a: Arena, next: map<nat, nat>, ids: seq<ChunkId>, id: ChunkId, link: nat)
    requires a.HeapIsSound() && LinksOk(a, next, ids)
    requires id !in ids && id.slice < SMALLS_PER_LARGE
    ensures LinksOk(a, next[a.SmallAddr(id) := link], ids)
  {
    forall j | 0 <= j < |ids| ensures a.SmallAddr(ids[j]) != a.SmallAddr(id) {
      SmallChunksDisjoint(a, ids[j], id);
    }
  }

  /** The newest chunk has room exactly when the next entry belongs in it. */
  lemma RoomInHead(a: Arena, count: nat, ids: seq<ChunkId>)
    requires ChunksFor(count) <= |ids| <= count / ENTRIES_PER_CHUNK + 1
    ensures HeadBump(a, count, ids).FreeSpace() >= ENTRY_SIZE <==> count < ENTRIES_PER_CHUNK * |ids|
    ensures HeadBump(a, count, ids).FreeSpace() >= ENTRY_SIZE ==>
              && ids != [] && count / ENTRIES_PER_CHUNK == |ids| - 1 && ChunksFor(count + 1) == |ids|
              && HeadBump(a, count, ids).current == EntryAddr(a, ids, count)
    ensures HeadBump(a, count, ids).FreeSpace() < ENTRY_SIZE ==>
              count == ENTRIES_PER_CHUNK * |ids| && count / ENTRIES_PER_CHUNK == |ids|
  {
    ChunkArithmetic(count, |ids|);
    if ids != [] {
      assert HeadBump(a, count, ids).FreeSpace()
          == SMALL_CHUNK_SIZE - POINTER_SIZE - ENTRY_SIZE * (count - ENTRIES_PER_CHUNK * (|ids| - 1));
    }
  }

  lemma ChunkArithmetic(n: nat, m: nat)
    requires ChunksFor(n) <= m <= n / ENTRIES_PER_CHUNK + 1
    ensures ENTRIES_PER_CHUNK * (m - 1) <= n <= ENTRIES_PER_CHUNK * m
    ensures n < ENTRIES_PER_CHUNK * m ==>
              n / ENTRIES_PER_CHUNK == m - 1 && n % ENTRIES_PER_CHUNK == n - ENTRIES_PER_CHUNK * (m - 1)
                && ChunksFor(n + 1) == m
    ensures n == ENTRIES_PER_CHUNK * m ==> n / ENTRIES_PER_CHUNK == m && n % ENTRIES_PER_CHUNK == 0
  {
  }

  /** Storing one more entry in a partition that has room in its newest chunk. */
  lemma PartitionAppend(a: Arena, next: map<nat, nat>, cells: map<nat, Entry>, b: Bump, count: nat,
                        log: seq<Entry>, ids: seq<ChunkId>, e: Entry)
    requires a.HeapIsSound() && PartitionOk(a, next, cells, b, count, log, ids) && Distinct(ids)
    requires b.FreeSpace() >= ENTRY_SIZE
    ensures count / ENTRIES_PER_CHUNK == |ids| - 1 && b.current == EntryAddr(a, ids, count)
    ensures PartitionOk(a, next, cells[b.current := e], b.(current := b.current + ENTRY_SIZE), count + 1, log
      + [e], ids)
    ensures |ids| == ChunksFor(count + 1)
  {
    RoomInHead(a, count, ids);
    ChunkArithmetic(count, |ids|);
    var k := |ids| - 1;
    var cells' := cells[b.current := e];
    forall n: nat | n < |log| && n / ENTRIES_PER_CHUNK < |ids|
      ensures ids[n / ENTRIES_PER_CHUNK] != ids[k] || n % ENTRIES_PER_CHUNK != count % ENTRIES_PER_CHUNK
    {
      if n / ENTRIES_PER_CHUNK == count / ENTRIES_PER_CHUNK && n % ENTRIES_PER_CHUNK == count % ENTRIES_PER_CHUNK {
        SameCell(n, count);
      }
    }
    CellsFrame(a, cells, log, ids, ids[k], count % ENTRIES_PER_CHUNK, e);
    CellsExtend(a, cells', log, ids, e);
  }

  lemma SameCell(n: nat, m: nat)
    requires n / ENTRIES_PER_CHUNK == m / ENTRIES_PER_CHUNK && n % ENTRIES_PER_CHUNK == m % ENTRIES_PER_CHUNK
    ensures n == m
  {
  }

  lemma CellsExtend(a: Arena, cells: map<nat, Entry>, log: seq<Entry>, ids: seq<ChunkId>, e: Entry)
    requires CellsOk(a, cells, log, ids) && HoldsCell(a, cells, ids, |log|, e)
    ensures CellsOk(a, cells, log + [e], ids)
  {
    forall n | 0 <= n < |log + [e]| ensures HoldsCell(a, cells, ids, n, (log + [e])[n]) {
      if n < |log| { assert HoldsCell(a, cells, ids, n, log[n]); }
    }
  }

  /** Pushing a fresh small chunk in front of a partition's full list. */
  lemma PartitionGrow(a: Arena, next: map<nat, nat>, cells: map<nat, Entry>, b: Bump, count: nat,
                      log: seq<Entry>, ids: seq<ChunkId>, id: ChunkId)
    requires a.HeapIsSound() && PartitionOk(a, next, cells, b, count, log, ids)
    requires b.FreeSpace() < ENTRY_SIZE
    requires id !in ids && id.slice < SMALLS_PER_LARGE
    ensures PartitionOk(a, next[a.SmallAddr(id) := b.chunks], cells,
                        Bump(a.CellAddr(id, 0), a.SmallAddr(id) + SMALL_CHUNK_SIZE, a.SmallAddr(id)),
                        count, log, ids + [id])
    ensures count == ENTRIES_PER_CHUNK * |ids|
  {
    RoomInHead(a, count, ids);
    ChunkArithmetic(count, |ids|);
    LinksFrame(a, next, ids, id, b.chunks);
    LinksPush(a, next[a.SmallAddr(id) := b.chunks], ids, id);
    CellsWiden(a, cells, log, ids, id);
  }

  lemma LinksPush(a: Arena, next: map<nat, nat>, ids: seq<ChunkId>, id: ChunkId)
    requires LinksOk(a, next, ids) && id.slice < SMALLS_PER_LARGE && a.SmallAddr(id) in next
    requires next[a.SmallAddr(id)] == HeadAddr(a, ids, |ids|)
    ensures LinksOk(a, next, ids + [id])
  {
    forall j | 0 <= j <= |ids| ensures HeadAddr(a, ids + [id], j) == HeadAddr(a, ids, j) {}
  }

  lemma CellsWiden(a: Arena, cells: map<nat, Entry>, log: seq<Entry>, ids: seq<ChunkId>, id: ChunkId)
    requires CellsOk(a, cells, log, ids)
    ensures CellsOk(a, cells, log, ids + [id])
  {
    forall n | 0 <= n < |log| ensures HoldsCell(a, cells, ids + [id], n, log[n]) {
      assert HoldsCell(a, cells, ids, n, log[n]);
    }
  }

  /** The place of a small chunk: the j-th chunk of list q. */
  datatype Place = Place(q: nat, j: nat)

  ghost predicate ListsOk(a: Arena, next: map<nat, nat>, cells: map<nat, Entry>, level3: seq<Bump>, counts: seq<nat>,
                          log: seq<seq<Entry>>, ids: seq<seq<ChunkId>>)
    requires |level3| == |counts| == |log| == |ids|
  {
    forall q :: 0 <= q < |log| ==> PartitionOk(a, next, cells, level3[q], counts[q], log[q], ids[q])
  }

  /** Every chunk has one owner, so no two lists share a chunk and no list holds one twice. */
  ghost predicate OwnersOk(ids: seq<seq<ChunkId>>, owner: map<ChunkId, Place>) {
    forall q, j :: 0 <= q < |ids| && 0 <= j < |ids[q]| ==> ids[q][j] in owner && owner[ids[q][j]] == Place(q, j)
  }

  /** Where a thread's level 2 is not null it stands at the slice carving[t] of a large chunk that no other
      thread carves; that slice and the later ones were handed to nobody. */
  ghost predicate CarvingsOk(a: Arena, nextIdx: nat, level2: seq<Bump>, carving: seq<ChunkId>, owner: map<ChunkId,
                             Place>)
    requires |level2| == |carving|
  {
    && (forall id :: id in owner ==> id.large < nextIdx)
    && (forall t :: 0 <= t < |level2| && level2[t] != Bump(0, 0, 0) ==>
          && carving[t].large < nextIdx && carving[t].slice <= SMALLS_PER_LARGE
          && level2[t] == CarveBump(a, carving[t]))
    && (forall t, id ::
          0 <= t < |level2| && level2[t] != Bump(0, 0, 0) && id in owner && id.large == carving[t].large ==>
          id.slice < carving[t].slice)
    && (forall t, u :: 0 <= t < u < |level2| && level2[t] != Bump(0, 0, 0) && level2[u] != Bump(0, 0, 0) ==>
          carving[t].large != carving[u].large)
  }

  function CarveBump(a: Arena, c: ChunkId): Bump {
    Bump(a.SmallAddr(c), a.LargeAddr(c.large) + LARGE_CHUNK_SIZE, a.LargeAddr(c.large))
  }

  lemma PartitionLinkFrame(a: Arena, next: map<nat, nat>, cells: map<nat, Entry>, b: Bump, count: nat,
                           log: seq<Entry>, ids: seq<ChunkId>, id: ChunkId, link: nat)
    requires a.HeapIsSound() && PartitionOk(a, next, cells, b, count, log, ids)
    requires id !in ids && id.slice < SMALLS_PER_LARGE
    ensures PartitionOk(a, next[a.SmallAddr(id) := link], cells, b, count, log, ids)
  {
    LinksFrame(a, next, ids, id, link);
  }

  lemma PartitionCellFrame(a: Arena, next: map<nat, nat>, cells: map<nat, Entry>, b: Bump, count: nat,
                           log: seq<Entry>, ids: seq<ChunkId>, id: ChunkId, i: nat, e: Entry)
    requires a.HeapIsSound() && PartitionOk(a, next, cells, b, count, log, ids)
    requires id !in ids && id.slice < SMALLS_PER_LARGE && i < ENTRIES_PER_CHUNK
    ensures PartitionOk(a, next, cells[a.CellAddr(id, i) := e], b, count, log, ids)
  {
    CellsFrame(a, cells, log, ids, id, i, e);
  }

  lemma ListsGrow(a: Arena, next: map<nat, nat>, cells: map<nat, Entry>, level3: seq<Bump>, counts: seq<nat>,
                  log: seq<seq<Entry>>, ids: seq<seq<ChunkId>>, owner: map<ChunkId, Place>, q: nat, id: ChunkId)
    requires |level3| == |counts| == |log| == |ids|
    requires a.HeapIsSound() && ListsOk(a, next, cells, level3, counts, log, ids) && OwnersOk(ids, owner)
    requires q < |log| && level3[q].FreeSpace() < ENTRY_SIZE && id !in owner && id.slice < SMALLS_PER_LARGE
    ensures ListsOk(a, next[a.SmallAddr(id) := level3[q].chunks], cells,
                    level3[q := Bump(a.CellAddr(id, 0), a.SmallAddr(id) + SMALL_CHUNK_SIZE, a.SmallAddr(id))],
                    counts, log, ids[q := ids[q] + [id]])
    ensures OwnersOk(ids[q := ids[q] + [id]], owner[id := Place(q, |ids[q]|)])
  {
    hide PartitionOk;
    var b := Bump(a.CellAddr(id, 0), a.SmallAddr(id) + SMALL_CHUNK_SIZE, a.SmallAddr(id));
    var next', level3', ids' := next[a.SmallAddr(id) := level3[q].chunks], level3[q := b], ids[q := ids[q] + [id]];
    forall r | 0 <= r < |log| ensures PartitionOk(a, next', cells, level3'[r], counts[r], log[r], ids'[r]) {
      if r == q {
        PartitionGrow(a, next, cells, level3[q], counts[q], log[q], ids[q], id);
      } else {
        PartitionLinkFrame(a, next, cells, level3[r], counts[r], log[r], ids[r], id, level3[q].chunks);
      }
    }
  }

  lemma ListsAppend(a: Arena, next: map<nat, nat>, cells: map<nat, Entry>, level3: seq<Bump>, counts: seq<nat>,
                    log: seq<seq<Entry>>, ids: seq<seq<ChunkId>>, owner: map<ChunkId, Place>, q: nat, e: Entry)
    requires |level3| == |counts| == |log| == |ids|
    requires a.HeapIsSound() && ListsOk(a, next, cells, level3, counts, log, ids) && OwnersOk(ids, owner)
    requires q < |log| && level3[q].FreeSpace() >= ENTRY_SIZE
    ensures ListsOk(a, next, cells[level3[q].current := e],
      level3[q := level3[q].(current := level3[q].current + ENTRY_SIZE)],
                    counts[q := counts[q] + 1], log[q := log[q] + [e]], ids)
    ensures |ids[q]| == ChunksFor(|log[q]| + 1)
    ensures |log[q]| / ENTRIES_PER_CHUNK < |ids[q]| && level3[q].current == EntryAddr(a, ids[q], |log[q]|)
  {
    hide PartitionOk, EntryAddr, ChunksFor;
    OneList(a, next, cells, level3[q], counts[q], log[q], ids[q]);
    PartitionAppend(a, next, cells, level3[q], counts[q], log[q], ids[q], e);
    OwnedApart(ids, owner, q);
    var id, i := ids[q][|ids[q]| - 1], |log[q]| % ENTRIES_PER_CHUNK;
    HeadCell(a, ids[q], |log[q]|);
    var cells' := cells[level3[q].current := e];
    forall r | 0 <= r < |log| && r != q ensures PartitionOk(a, next, cells', level3[r], counts[r], log[r], ids[r]) {
      PartitionCellFrame(a, next, cells, level3[r], counts[r], log[r], ids[r], id, i, e);
    }
  }

  lemma OneList(a: Arena, next: map<nat, nat>, cells: map<nat, Entry>, b: Bump, count: nat,
                log: seq<Entry>, ids: seq<ChunkId>)
    requires PartitionOk(a, next, cells, b, count, log, ids)
    ensures count == |log| && forall j :: 0 <= j < |ids| ==> ids[j].slice < SMALLS_PER_LARGE
  {
  }

  /** The chunks of list q are distinct, and no other list has one of them. */
  lemma OwnedApart(ids: seq<seq<ChunkId>>, owner: map<ChunkId, Place>, q: nat)
    requires OwnersOk(ids, owner) && q < |ids|
    ensures Distinct(ids[q])
    ensures forall j, r :: 0 <= j < |ids[q]| && 0 <= r < |ids| && r != q ==> ids[q][j] !in ids[r]
  {
  }

  lemma HeadCell(a: Arena, ids: seq<ChunkId>, n: nat)
    requires ids != [] && n / ENTRIES_PER_CHUNK == |ids| - 1
    ensures EntryAddr(a, ids, n) == a.CellAddr(ids[|ids| - 1], n % ENTRIES_PER_CHUNK)
  {
  }

  /** A level 2 that has room stands at a slice of its large chunk. */
  lemma CarvingsRoom(a: Arena, nextIdx: nat, level2: seq<Bump>, carving: seq<ChunkId>, owner: map<ChunkId, Place>,
                     t: nat)
    requires |level2| == |carving| && CarvingsOk(a, nextIdx, level2, carving, owner)
    requires t < |level2| && level2[t].FreeSpace() >= SMALL_CHUNK_SIZE
    ensures level2[t] == CarveBump(a, carving[t]) && carving[t].slice < SMALLS_PER_LARGE
  {
  }

  /** Starting on the large chunk that the arena hands out next. */
  lemma CarvingsRefill(a: Arena, nextIdx: nat, level2: seq<Bump>, carving: seq<ChunkId>, owner: map<ChunkId, Place>,
                       t: nat)
    requires a.HeapIsSound() && |level2| == |carving| && CarvingsOk(a, nextIdx, level2, carving, owner) && t < |level2|
    ensures CarvingsOk(a, nextIdx + 1, level2[t := CarveBump(a, ChunkId(nextIdx, 0))],
      carving[t := ChunkId(nextIdx, 0)], owner)
    ensures CarveBump(a, ChunkId(nextIdx, 0)) != Bump(0, 0, 0)
  {
    LargeChunksDisjoint(a, nextIdx, nextIdx + 1);
  }

  /** Handing out the slice that thread t stands at. */
  lemma CarvingsTake(a: Arena, nextIdx: nat, level2: seq<Bump>, carving: seq<ChunkId>, owner: map<ChunkId, Place>,
                     t: nat, p: Place)
    requires a.HeapIsSound() && |level2| == |carving| && CarvingsOk(a, nextIdx, level2, carving, owner)
    requires t < |level2| && level2[t] != Bump(0, 0, 0) && carving[t].slice < SMALLS_PER_LARGE
    ensures carving[t] !in owner
    ensures CarvingsOk(a, nextIdx, level2[t := level2[t].(current := level2[t].current + SMALL_CHUNK_SIZE)],
                       carving[t := ChunkId(carving[t].large, carving[t].slice + 1)], owner[carving[t] := p])
  {
  }

  /** An object handed out: the n-th entry of list q. */
  datatype Object = Object(q: nat, n: nat)

  /** Each pointer handed out is, and stays, the address of the entry it was handed out for; no two are for the same. */
  ghost predicate HandedOk(a: Arena, log: seq<seq<Entry>>, ids: seq<seq<ChunkId>>, handed: seq<nat>,
                           objects: seq<Object>) {
    && |handed| == |objects|
    && (forall k :: 0 <= k < |handed| ==> IsHanded(a, log, ids, handed[k], objects[k]))
    && (forall j, k :: 0 <= j < k < |objects| ==> objects[j] != objects[k])
  }

  ghost predicate IsHanded(a: Arena, log: seq<seq<Entry>>, ids: seq<seq<ChunkId>>, ptr: nat, o: Object) {
    && o.q < |log| && o.q < |ids| && o.n < |log[o.q]| && o.n / ENTRIES_PER_CHUNK < |ids[o.q]|
    && ptr == EntryAddr(a, ids[o.q], o.n)
  }

  /** List q keeps its chunks, and may have new ones behind them; the other lists are as they were. */
  ghost predicate ListGrew(ids: seq<seq<ChunkId>>, ids': seq<seq<ChunkId>>, q: nat)
    requires q < |ids|
  {
    |ids'| == |ids| && ids[q] <= ids'[q] && ids' == ids[q := ids'[q]]
  }

  /** A new entry moves nothing that was handed out. */
  lemma HandedNext(a: Arena, log: seq<seq<Entry>>, ids: seq<seq<ChunkId>>, q: nat, e: Entry, handed: seq<nat>,
                   objects: seq<Object>)
    requires HandedOk(a, log, ids, handed, objects) && |log| == |ids| && q < |ids|
    requires |log[q]| / ENTRIES_PER_CHUNK < |ids[q]|
    ensures HandedOk(a, log[q := log[q] + [e]], ids, handed + [EntryAddr(a, ids[q], |log[q]|)], objects
      + [Object(q, |log[q]|)])
  {
    hide EntryAddr;
    var log' := log[q := log[q] + [e]];
    forall k | 0 <= k < |handed| ensures IsHanded(a, log', ids, handed[k], objects[k]) {}
  }

  /** Neither does a new chunk. */
  lemma HandedWiden(a: Arena, log: seq<seq<Entry>>, ids: seq<seq<ChunkId>>, q: nat, id: ChunkId, handed: seq<nat>,
                    objects: seq<Object>)
    requires HandedOk(a, log, ids, handed, objects) && q < |ids|
    ensures HandedOk(a, log, ids[q := ids[q] + [id]], handed, objects)
  {
    hide EntryAddr;
    var ids' := ids[q := ids[q] + [id]];
    forall k | 0 <= k < |handed| ensures IsHanded(a, log, ids', handed[k], objects[k]) {
      AddrKept(a, ids[objects[k].q], ids'[objects[k].q], objects[k].n);
    }
  }

  lemma AddrKept(a: Arena, ids: seq<ChunkId>, ids': seq<ChunkId>, n: nat)
    requires ids <= ids' && n / ENTRIES_PER_CHUNK < |ids|
    ensures EntryAddr(a, ids', n) == EntryAddr(a, ids, n)
  {
  }

  /** Two handed-out objects share no byte. */
  lemma HandedApart(a: Arena, next: map<nat, nat>, log: seq<seq<Entry>>, ids: seq<seq<ChunkId>>, owner: map<ChunkId,
                    Place>, p: nat, x: Object, p': nat, y: Object)
    requires a.HeapIsSound() && OwnersOk(ids, owner) && forall q :: 0 <= q < |ids| ==> LinksOk(a, next, ids[q])
    requires IsHanded(a, log, ids, p, x) && IsHanded(a, log, ids, p', y) && x != y
    ensures p + ENTRY_SIZE <= p' || p' + ENTRY_SIZE <= p
  {
    var c, d := ids[x.q][x.n / ENTRIES_PER_CHUNK], ids[y.q][y.n / ENTRIES_PER_CHUNK];
    assert LinksOk(a, next, ids[x.q]) && LinksOk(a, next, ids[y.q]);
    assert owner[c] == Place(x.q, x.n / ENTRIES_PER_CHUNK) && owner[d] == Place(y.q, y.n / ENTRIES_PER_CHUNK);
    if c == d && x.n % ENTRIES_PER_CHUNK == y.n % ENTRIES_PER_CHUNK { SameCell(x.n, y.n); }
    CellsDisjoint(a, c, x.n % ENTRIES_PER_CHUNK, d, y.n % ENTRIES_PER_CHUNK);
  }

  /** A handed-out object does not touch the next field of any list's chunk, not even of its own. */
  lemma HandedOffLinks(a: Arena, next: map<nat, nat>, log: seq<seq<Entry>>, ids: seq<seq<ChunkId>>, p: nat, x: Object,
                       r: nat, j: nat)
    requires a.HeapIsSound() && forall q :: 0 <= q < |ids| ==> LinksOk(a, next, ids[q])
    requires IsHanded(a, log, ids, p, x) && r < |ids| && j < |ids[r]|
    ensures p + ENTRY_SIZE <= a.SmallAddr(ids[r][j]) || a.SmallAddr(ids[r][j]) + POINTER_SIZE <= p
  {
    assert LinksOk(a, next, ids[x.q]) && LinksOk(a, next, ids[r]);
    var c, d := ids[x.q][x.n / ENTRIES_PER_CHUNK], ids[r][j];
    if c != d { SmallChunksDisjoint(a, c, d); }
  }

  /** The memory all threads allocate from, with every thread's local state.  Only nextIdx is shared between
      threads and it changes by one atomic increment, so calls of Consume by different threads may be
      interleaved in any order.  Partition p of thread t fills list number ListOf(t, p). */
  class SlabMemory {
    const arena: Arena
    const threads: nat
    // GlobalAllocator
    var nextIdx: nat
    // Contents of memory, by address: the next field of each small chunk, and each entry.
    var next: map<nat, nat>
    var cells: map<nat, Entry>
    // ThreadLocalState: level2 by thread, the others by list
    var level2: seq<Bump>
    var level3: seq<Bump>
    var counts: seq<nat>
    // What was consumed, in order, and which chunks hold it.
    ghost var log: seq<seq<Entry>>
    ghost var ids: seq<seq<ChunkId>>
    ghost var owner: map<ChunkId, Place>
    ghost var carving: seq<ChunkId>             // the slice that thread t carves next, if level2[t] is not null
    // Every pointer that Consume has returned, and for which entry.
    ghost var handed: seq<nat>
    ghost var objects: seq<Object>

    ghost predicate Valid()
      reads this
    {
      Consistent() && forall q :: 0 <= q < |log| ==> |ids[q]| == ChunksFor(|log[q]|)
    }

    /** Valid, except that a list's newest chunk may still be empty. */
    ghost predicate Consistent()
      reads this
    {
      && arena.HeapIsSound()
      && |level2| == |carving| == threads && |log| == threads * NUM_PARTITIONS
      && |level3| == |counts| == |log| == |ids|
      && ListsOk(arena, next, cells, level3, counts, log, ids)
      && OwnersOk(ids, owner)
      && CarvingsOk(arena, nextIdx, level2, carving, owner)
      && HandedOk(arena, log, ids, handed, objects)
    }

    constructor (threads: nat, arena: Arena)
      requires arena.HeapIsSound()
      ensures Valid() && this.arena == arena && this.threads == threads
      ensures log == seq(threads * NUM_PARTITIONS, q => []) && handed == []
    {
      this.arena, this.threads := arena, threads;
      nextIdx, next, cells := 0, map[], map[];
      level2, carving := seq(threads, t => Bump(0, 0, 0)), seq(threads, t => ChunkId(0, 0));
      level3 := seq(threads * NUM_PARTITIONS, q => Bump(0, 0, 0));
      counts := seq(threads * NUM_PARTITIONS, q => 0);
      log := seq(threads * NUM_PARTITIONS, q => []);
      ids, owner := seq(threads * NUM_PARTITIONS, q => []), map[];
      handed, objects := [], [];
    }

    /** A small chunk from thread t's level 2, after taking a large chunk from the arena if level 2 has no room.  The
        chunk returned was handed to nobody before. */
    method TakeSmall(t: nat, ghost p: Place) returns (chunk: nat, ghost id: ChunkId)
      requires Consistent() && t < threads
      modifies this`nextIdx, this`level2, this`carving
      ensures |level2| == |carving| == threads && CarvingsOk(arena, nextIdx, level2, carving, owner[id := p])
      ensures chunk == arena.SmallAddr(id) && id.slice < SMALLS_PER_LARGE && id !in owner
      ensures nextIdx == old(nextIdx) + (if old(level2[t].FreeSpace()) < SMALL_CHUNK_SIZE then 1 else 0)
    {
      hide ListsOk, OwnersOk, CarvingsOk;
      if level2[t].FreeSpace() < SMALL_CHUNK_SIZE {
        CarvingsRefill(arena, nextIdx, level2, carving, owner, t);
        var large := arena.LargeAddr(nextIdx);
        assert Bump(large + POINTER_SIZE, large + LARGE_CHUNK_SIZE, large) == CarveBump(arena, ChunkId(nextIdx, 0));
        level2 := level2[t := Bump(large + POINTER_SIZE, large + LARGE_CHUNK_SIZE, large)];
        carving := carving[t := ChunkId(nextIdx, 0)];
        nextIdx := nextIdx + 1;
      } else {
        CarvingsRoom(arena, nextIdx, level2, carving, owner, t);
      }
      assert level2[t] == CarveBump(arena, carving[t]) && level2[t] != Bump(0, 0, 0);
      CarvingsTake(arena, nextIdx, level2, carving, owner, t, p);
      id := carving[t];
      chunk := level2[t].current;
      level2 := level2[t := level2[t].(current := chunk + SMALL_CHUNK_SIZE)];
      carving := carving[t := ChunkId(id.large, id.slice + 1)];
    }

    /** List q of thread t gets a new small chunk. */
    method AddSpace(t: nat, q: nat)
      requires Consistent() && t < threads && q < |log| && level3[q].FreeSpace() < ENTRY_SIZE
      modifies this`nextIdx, this`level2, this`carving, this`next, this`level3, this`owner, this`ids
      ensures Consistent() && level3[q].FreeSpace() >= ENTRY_SIZE
      ensures ListGrew(old(ids), ids, q) && |ids[q]| == |old(ids)[q]| + 1
      ensures level3[q].chunks == arena.SmallAddr(ids[q][|ids[q]| - 1])
    {
      hide ListsOk, OwnersOk, CarvingsOk, HandedOk;
      var chunk; ghost var id;
      chunk, id := TakeSmall(t, Place(q, |ids[q]|));
      ListsGrow(arena, next, cells, level3, counts, log, ids, owner, q, id);
      next := next[chunk := level3[q].chunks];
      level3 := level3[q := Bump(chunk + POINTER_SIZE, chunk + SMALL_CHUNK_SIZE, chunk)];
      owner := owner[id := Place(q, |ids[q]|)];
      HandedWiden(arena, log, ids, q, id, handed, objects);
      ids := ids[q := ids[q] + [id]];
    }

    /** List q hands out its next free place, and the caller's store through the pointer fills it. */
    method AllocateEntry(q: nat, e: Entry) returns (ptr: nat)
      requires Consistent() && q < |log| && level3[q].FreeSpace() >= ENTRY_SIZE
      modifies this`level3, this`counts, this`cells, this`log, this`handed, this`objects
      ensures Consistent() && |ids[q]| == ChunksFor(|log[q]|)
      ensures log == old(log)[q := old(log)[q] + [e]] && |log[q]| - 1 < ENTRIES_PER_CHUNK * |ids[q]|
      ensures ptr == EntryAddr(arena, ids[q], |log[q]| - 1)
      ensures handed == old(handed) + [ptr] && cells == old(cells)[ptr := e]
    {
      hide ListsOk, OwnersOk, CarvingsOk, HandedOk, EntryAddr;
      ListsAppend(arena, next, cells, level3, counts, log, ids, owner, q, e);
      HandedNext(arena, log, ids, q, e, handed, objects);
      counts := counts[q := counts[q] + 1];
      ptr := level3[q].current;
      level3 := level3[q := level3[q].(current := ptr + ENTRY_SIZE)];
      cells := cells[ptr := e];
      handed, objects := handed + [ptr], objects + [Object(q, |log[q]|)];
      log := log[q := log[q] + [e]];
    }

    /** ThreadLocalState::consume by thread t; the caller's store is part of AllocateEntry. */
    method Consume(t: nat, hash: U64, e: Entry) returns (ptr: nat)
      requires Valid() && t < threads
      modifies this
      ensures Valid()
      ensures var q := ListOf(t, PartitionOf(hash));
        && log == old(log)[q := old(log)[q] + [e]]
        && |log[q]| - 1 < ENTRIES_PER_CHUNK * |ids[q]| && ptr == EntryAddr(arena, ids[q], |log[q]| - 1)
        && ListGrew(old(ids), ids, q)
      ensures handed == old(handed) + [ptr] && cells == old(cells)[ptr := e]
    {
      hide ListsOk, OwnersOk, CarvingsOk, HandedOk, EntryAddr, ChunksFor;
      var q := ListOf(t, PartitionOf(hash));
      if level3[q].FreeSpace() < ENTRY_SIZE {
        AddSpace(t, q);
      }
      ptr := AllocateEntry(q, e);
    }

    /** Whatever the interleaving, no two pointers that were ever handed out, by any thread for any partition, are
        less than an entry apart, and none points into the next field of a chunk of any list. */
    lemma ObjectsDisjoint(j: nat, k: nat)
      requires Valid() && j < |handed| && k < |handed| && j != k
      ensures handed[j] + ENTRY_SIZE <= handed[k] || handed[k] + ENTRY_SIZE <= handed[j]
      ensures forall r, c :: 0 <= r < |ids| && 0 <= c < |ids[r]| ==>
        var h := arena.SmallAddr(ids[r][c]); handed[k] + ENTRY_SIZE <= h || h + POINTER_SIZE <= handed[k]
    {
      AllLinked();
      hide ListsOk, OwnersOk, CarvingsOk, LinksOk, IsHanded;
      HandedApart(arena, next, log, ids, owner, handed[j], objects[j], handed[k], objects[k]);
      forall r, c | 0 <= r < |ids| && 0 <= c < |ids[r]|
        ensures var h := arena.SmallAddr(ids[r][c]); handed[k] + ENTRY_SIZE <= h || h + POINTER_SIZE <= handed[k]
      {
        HandedOffLinks(arena, next, log, ids, handed[k], objects[k], r, c);
      }
    }

    lemma AllLinked()
      requires Valid()
      ensures forall q :: 0 <= q < |ids| ==> LinksOk(arena, next, ids[q])
    {
      hide LinksOk;
      forall q | 0 <= q < |ids| ensures LinksOk(arena, next, ids[q]) {
        assert PartitionOk(arena, next, cells, level3[q], counts[q], log[q], ids[q]);
      }
    }

    /** What was stored through a pointer is still there. */
    lemma StoredStays(k: nat)
      requires Valid() && k < |handed|
      ensures var o := objects[k];
        o.q < |log| && o.n < |log[o.q]| && handed[k] in cells && cells[handed[k]] == log[o.q][o.n]
    {
      var o := objects[k];
      assert IsHanded(arena, log, ids, handed[k], o);
      assert PartitionOk(arena, next, cells, level3[o.q], counts[o.q], log[o.q], ids[o.q]);
      assert HoldsCell(arena, cells, ids[o.q], o.n, log[o.q][o.n]);
    }

    /** The visits to the first `count` entries of a chunk. */
    method ReadChunk(chunk: nat, count: nat, ghost s: seq<Entry>) returns (entries: seq<Entry>)
      requires |s| == count && ChunkHolds(cells, chunk, s)
      ensures entries == s
    {
      entries := [];
      for i := 0 to count
        invariant entries == s[..i]
      {
        entries := entries + [cells[chunk + POINTER_SIZE + ENTRY_SIZE * i]];
      }
    }

    /** forEachEntryInPartition on list q: walk the chunk list, whose head alone may be partial. */
    method ForEachEntry(q: nat) returns (visited: seq<Entry>)
      requires Valid() && q < |log|
      ensures visited == Lifo(log[q])
    {
      hide Valid, Consistent, PartitionOk, ListsOk, OwnersOk, CarvingsOk, ChunksFor, Lifo, HeadAddr, ChunkHolds;
      ListHead(q);
      visited := [];
      var total := counts[q];
      if total == 0 { return; }

      var chunk := level3[q].chunks;
      var firstChunkEntries := total % ENTRIES_PER_CHUNK;
      if firstChunkEntries == 0 { firstChunkEntries := ENTRIES_PER_CHUNK; }
      var remaining, isFirst := total, true;
      while chunk != 0 && remaining > 0
        invariant 0 <= remaining <= total && isFirst == (remaining == total)
        invariant remaining > 0 && !isFirst ==> HeadCount(remaining) == ENTRIES_PER_CHUNK
        invariant ChunksFor(remaining) <= |ids[q]| && chunk == HeadAddr(arena, ids[q], ChunksFor(remaining))
        invariant visited + Lifo(log[q][..remaining]) == Lifo(log[q])
        decreases remaining
      {
        HeadChunk(arena, next, cells, level3[q], counts[q], log[q], ids[q], remaining);
        HeadArithmetic(remaining);
        var count := if isFirst then firstChunkEntries else ENTRIES_PER_CHUNK;
        count := if count <= remaining then count else remaining;
        var entries := ReadChunk(chunk, count, log[q][remaining - count..remaining]);
        visited := visited + entries;
        LifoStep(log[q], remaining);
        remaining := remaining - count;
        isFirst := false;
        chunk := next[chunk];
      }
      if remaining > 0 {
        HeadChunk(arena, next, cells, level3[q], counts[q], log[q], ids[q], remaining);
      } else {
        assert log[q][..remaining] == [] && visited + [] == visited;
      }
    }

    lemma ListHead(q: nat)
      requires Valid() && q < |log|
      ensures |level3| == |counts| == |log| == |ids| && arena.HeapIsSound()
      ensures PartitionOk(arena, next, cells, level3[q], counts[q], log[q], ids[q])
      ensures counts[q] == |log[q]| && ChunksFor(counts[q]) == |ids[q]| && Lifo([]) == []
      ensures level3[q].chunks == HeadAddr(arena, ids[q], |ids[q]|) && log[q][..counts[q]] == log[q]
    {
      hide OwnersOk, CarvingsOk, LinksOk, CellsOk;
      assert PartitionOk(arena, next, cells, level3[q], counts[q], log[q], ids[q]);
    }
  }

  /** A chunk holds the entries s from its front on. */
  ghost predicate ChunkHolds(cells: map<nat, Entry>, chunk: nat, s: seq<Entry>) {
    forall i :: 0 <= i < |s| ==>
      chunk + POINTER_SIZE + ENTRY_SIZE * i in cells && cells[chunk + POINTER_SIZE + ENTRY_SIZE * i] == s[i]
  }

  /** The chunk at the head of the first `remaining` entries of a list. */
  lemma HeadChunk(a: Arena, next: map<nat, nat>, cells: map<nat, Entry>, b: Bump, count: nat,
                  log: seq<Entry>, ids: seq<ChunkId>, remaining: nat)
    requires a.HeapIsSound() && PartitionOk(a, next, cells, b, count, log, ids) && 0 < remaining <= |log|
    ensures 0 < ChunksFor(remaining) <= |ids|
    ensures var chunk := HeadAddr(a, ids, ChunksFor(remaining));
      && chunk != 0 && chunk in next && next[chunk] == HeadAddr(a, ids, ChunksFor(remaining) - 1)
      && ChunkHolds(cells, chunk, log[remaining - HeadCount(remaining)..remaining])
  {
    assert 0 < ChunksFor(remaining) <= ChunksFor(|log|);
    hide ChunksFor;
    HeadCells(a, cells, log, ids, remaining);
  }

  lemma HeadCells(a: Arena, cells: map<nat, Entry>, log: seq<Entry>, ids: seq<ChunkId>, n: nat)
    requires CellsOk(a, cells, log, ids) && 0 < n <= |log| && 0 < ChunksFor(n) <= |ids|
    ensures ChunkHolds(cells, HeadAddr(a, ids, ChunksFor(n)), log[n - HeadCount(n)..n])
  {
    var c, id := HeadCount(n), ids[ChunksFor(n) - 1];
    var chunk, newest := a.SmallAddr(id), log[n - c..n];
    forall i | 0 <= i < c
      ensures chunk + POINTER_SIZE + ENTRY_SIZE * i in cells
      ensures cells[chunk + POINTER_SIZE + ENTRY_SIZE * i] == newest[i]
    {
      HeadArithmeticAt(n, i);
      hide ChunksFor, HeadCount;
      assert HoldsCell(a, cells, ids, n - c + i, log[n - c + i]);
    }
  }

  lemma HeadArithmetic(n: nat)
    requires n > 0
    ensures var c := HeadCount(n);
      ChunksFor(n) > 0 && ChunksFor(n - c) == ChunksFor(n) - 1 && (n - c) % ENTRIES_PER_CHUNK == 0
        && c <= ENTRIES_PER_CHUNK
    ensures n > HeadCount(n) ==> HeadCount(n - HeadCount(n)) == ENTRIES_PER_CHUNK
  {
  }

  lemma HeadArithmeticAt(n: nat, i: nat)
    requires n > 0 && i < HeadCount(n)
    ensures var k := n - HeadCount(n) + i; k / ENTRIES_PER_CHUNK == ChunksFor(n) - 1 && k % ENTRIES_PER_CHUNK == i
  {
    HeadArithmetic(n);
  }

  lemma LifoStep(s: seq<Entry>, n: nat)
    requires 0 < n <= |s|
    ensures var k := n - HeadCount(n); Lifo(s[..n]) == s[k..n] + Lifo(s[..k])
  {
    var k := n - HeadCount(n);
    assert s[..n][k..] == s[k..n] && s[..n][..k] == s[..k];
  }
}

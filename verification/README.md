# A verified model of an in-memory hash-join engine

This project models the hash-join engine in Dafny, from the CSV file to the pages of a query result, and proves
that what comes out is what the query means. `dafny verify dfyconfig.toml` checks everything.

## What is proved

The chain of main results, from the inside out:

1. **Unchained hash table.** Threads partition the build rows into private slab-allocated chunk lists
   (`Slab`, `Partitioning`), then 64 jobs fill one shared directory and one shared tuple array without locks
   (`Builder`, `Interleaving`, `UnchainedTable`). A directory word is in turn a byte count, a write cursor and an end
   pointer above a 16-bit Bloom tag (`PackedWord`). For any hash function, tag table, number of threads and
   interleaving, every tuple cell is written exactly once (`Copies`), a lookup's range holds exactly the build rows
   with the key among the rows of its slot, and a tag rejection means that there is none.
2. **Join and plan execution.** `Join.Run` probes with threads that claim pages or buffers from an atomic counter,
   under an arbitrary schedule, and emits the bag of nested-loop matches, whichever side is hashed. By recursion over
   the plan, `Executor.ExecuteImpl` returns aligned columns that denote, as a bag, the rows of naive evaluation
   (`Relations.NaiveRows`).
3. **Pages.** The INT32 and VARCHAR page formats, byte by byte (`PageBytes`): encoder and decoder are inverse for every
   sequence of nullable values (`IntCodec`, `StringCodec`, `ColumnCodec`, `RowTables`), and the written pages meet what
   the scan relies on when it reads a page in place (`Scan`, `Columns`).
4. **Late materialisation.** `Materialize.Execute` joins 2 and 3: decoding the result pages of a query gives the bag of
   rows of naive evaluation, under any interleaving of the writing threads, in columns of the right number, types and
   length also if there are no rows. It asks that the string columns which the result shows can be read back
   (`StringReads`); columns that are joined on, dropped or never read are free to hold nulls and long strings.
5. **Thread pool** (`ThreadPool`, `ThreadPoolRuns`). A transition system with mutex, condition variables, generation
   counter, spurious wake-ups and shutdown: exact counting, every call's task run exactly once by every worker, no lost
   wake-up, no deadlock, and a bound on the number of steps.
6. **Loader.** The CSV parser's outcome does not depend on where the input is cut and inverts RFC 4180, section 2, as
   well as the loader's backslash dialect (`CsvSpec` to `CsvQuoting`); what no encoder writes is read as `CsvReading`
   says. Fields become typed records (`TableParsing`, cell by cell in `LoadedCells`) and records become growing columns
   (`InnerTables`); the column filter agrees with the row filter (`FilterKernels`, `Filters`), both select the rows that
   the operators mean (`FilterMeaning`), and the written pages hold exactly the records that pass (`Loader`,
   `TableParsing.FromCsv`). Union-find closes the join equalities and lists every column in one group, once
   (`UnionFind`).

## How it is modelled

Integers are unbounded; every machine width that matters (16-bit page numbers and offsets, 32-bit literals, the 64-bit
directory word) is written out with `%` or a subset type. Bit operations are defined on natural numbers in `Bits`.
Addresses in the tuple array are byte positions above a base and lie below 2^48, as the directory word requires; the
slab memory is a map from addresses.
`crc_hash` and the table of tags are arbitrary functions of the key, and `stoi` is an arbitrary function of the text.

Classes and arrays stand where the program updates in place: the hash table, the slab memory, the two page writers, a
thread's result columns, the CSV parser, its callback, the loader's growing columns, the filter's output bitmap, the
union-find array. Each of their methods is proved against a specification function, and the lemmas are about that
function.

Concurrency is interleaving of atomic steps. Where threads share data, a loop picks *any* thread that can move with
`:|` (`Partitioning.PartitionRows`, `Join.ProbeAll`, `Materialize.WriteStringColumn`, `FilterKernels.RunKernel`) or
the schedule is an argument (`Interleaving.Run`, `ThreadPoolRuns.Run`). `UnchainedTable.BuildPartitions` runs the 64
jobs one after the other; `UnchainedTable.UnchainedHashTable.BuildParallel` promises that every other complete
schedule of their steps leaves the same directory and tuples, and `Interleaving.CompleteIff` says which schedules are
complete.

## Where the code does not do what one might expect

For each of these there is an input that shows it and a condition that holds exactly when the code does what one would
expect.

- Short strings are read back with an offset computed from the page's row count, while the codec used the number of
  non-null rows. All pages with a given header are read right exactly if their number of nulls is a multiple of 32768,
  in practice zero, or there is no string, or no room for a string byte (`StringReads.HeaderIff`; input
  `NullsShiftStrings`).
- Reading back a long string looks at the page behind it. That page exists exactly if something follows the string in
  the column, or the column has 65536 pages and the 16-bit page number comes round (`StringReads.ReadLongString`;
  input `LastLongUnread`).
- With trailing separators, cutting a CSV input behind a carriage return changes the reported error, unless the
  carriage return is the separator (`CsvProperties.CutAnywhereIff`; input `TrailingChunks`).
- An accepted input was reported as whole rows exactly if the separator is not a line feed (`CsvRecords.RectangleIff`;
  input `RaggedEnd`).
- Where quotes escape themselves, an input whose last record lacks its line break is accepted exactly if it does not
  end in a closing quote; in every dialect an empty last line behind other records is dropped
  (`CsvQuoting.LastLineIff`; input `QuotedAtEnd`).
- The column filter casts integer literals to 32 bits. A comparison stays right for every value exactly if the
  literal fits, or wraps to the end of the range at which the comparison is constant anyway (`Filters.LiteralIff`;
  input `LiteralWraps`).
- A file whose lines are narrower than the table is accepted and loads no record at all. Every line behind the header
  is loaded exactly if the lines are as wide as the table and all fields can be converted
  (`TableParsing.AcceptedLoads`; input `NarrowFile`).

## Model

| member | source | states |
|---|---|---|
| PackedWord.CountActsOnPair | include/unchained_ht.h:434-435 | the counting pass adds one entry's bytes to the position field and ORs the tag into the low 16 bits; neither field disturbs the other while positions stay below 2^48 |
| PackedWord.PlaceActsOnPair | include/unchained_ht.h:444-446 | the prefix pass replaces the position field and keeps the tag |
| PackedWord.AdvanceActsOnPair | include/unchained_ht.h:455 | the copy pass moves the position by one entry and keeps the tag |
| PackedWord.CouldContainBits | include/unchained_ht.h:393-396 | the Bloom test passes exactly if every bit of the key's tag is set in the word |
| Slab.SmallChunksDisjoint | include/utils.h:254-262 | small chunks carved from different places never share a byte, arena and heap fallback alike |
| Slab.LifoIsPermutation | include/unchained_ht.h:402-426 | visiting newest chunk first is a permutation of what was consumed |
| Slab.SlabMemory.constructor | include/utils.h:278-284 | fresh thread-local states have consumed nothing and handed out no pointer |
| Slab.SlabMemory.TakeSmall | include/utils.h:289-293 | the small chunk handed out was handed to nobody before; one large chunk is fetched if level 2 has no room, and none otherwise |
| Slab.SlabMemory.AddSpace | include/utils.h:180-185 | the list gets one chunk more, which becomes its head and has room; the chunks it had stay where they are, and the other lists are untouched |
| Slab.SlabMemory.Consume | include/utils.h:286-297 | the entry is appended to exactly one list, that of its thread and partition, and one pointer is handed out; no list loses or moves a chunk, and only the memory behind the new pointer is written |
| Slab.SlabMemory.ObjectsDisjoint | include/utils.h:170-193 | any two pointers ever handed out, in whatever order threads and partitions asked, are at least an entry apart, and none points into a chunk's next field |
| Slab.SlabMemory.StoredStays | include/unchained_ht.h:319-322 | behind every pointer that was handed out there is still the entry that was stored there |
| Slab.SlabMemory.ForEachEntry | include/unchained_ht.h:402-426 | the chunk walk visits exactly the consumed entries, each once, because only the head chunk may be partial |
| Partitioning.SplitRows | include/unchained_ht.h:306-310 | the threads' row ranges are consecutive and cover all rows |
| Partitioning.PartitionRows | include/unchained_ht.h:308-324 | under any interleaving each thread's lists hold its non-null rows by partition, in row order |
| Partitioning.PartitionOffsets | include/unchained_ht.h:326-337 | the prefix sums are the sizes of the preceding partitions' entry lists |
| Partitioning.PartsAreRows | include/unchained_ht.h:308-337 | all partitions together hold exactly the bag of non-null rows |
| Partitioning.PartHasPartition | include/utils.h:288 | an entry lies in the partition that its hash names |
| Directory.PartitionOwnsSlots | include/unchained_ht.h:440-442 | a key's slot lies in the slot range of its partition and of no other |
| Directory.BucketHasKey | include/unchained_ht.h:376-385 | a key's bucket holds every entry with that key |
| Directory.TagsCover | include/unchained_ht.h:376-396 | the OR of a slot's tags passes the Bloom test of every key stored in the slot |
| Builder.CursorBounds | include/unchained_ht.h:449-456 | a slot's write cursor stays within [start, start + count], strictly below the end before each write |
| Builder.CopyInBounds | include/unchained_ht.h:453-454 | each copy goes to a tuple cell of the entry's own slot and inside the array |
| Builder.CursorsApart | include/unchained_ht.h:449-456 | the cell about to be written is the next one of its own bucket and lies outside what every bucket already holds |
| Builder.StepKeepsOwn | include/unchained_ht.h:428-457 | every step of a partition job keeps that job's invariant through counting, prefix and copy passes |
| Builder.InvariantIsLocal | include/unchained_ht.h:339-343 | a job's invariant depends only on its own slots and cells |
| Builder.StepWritesOnlyOwn | include/unchained_ht.h:439-457 | a job writes only directory slots and tuple cells that it owns |
| Interleaving.JobsApart | include/unchained_ht.h:333-343 | different partitions own disjoint slots and disjoint tuple ranges |
| Interleaving.JobMoves | include/unchained_ht.h:339-343 | a step of one job keeps the invariants of all 64 |
| Interleaving.Run | include/unchained_ht.h:339-343 | along every schedule all invariants hold, and directory[-1] and the cells past the last entry are never written |
| Interleaving.SlotOfPartition | include/unchained_ht.h:333-343 | a slot's bucket, tags and start position over all entries are those of the owning partition, shifted by the partition's offset |
| Interleaving.FinishedIsBuilt | include/unchained_ht.h:376-385 | when all jobs are done, every word is the end of its slot and the start of the next, across partition borders and at slot 0, and every bucket is stored in its range |
| Interleaving.BuiltIsUnique | include/unchained_ht.h:428-457 | the finished directory and the occupied tuples are determined by the entries |
| Interleaving.InterleavingsAgree | include/unchained_ht.h:339-343 | any two complete schedules leave the same memory |
| Interleaving.ScheduleBuilds | include/unchained_ht.h:339-343 | a complete schedule leaves the memory of any other complete build from the same start, the one in round-robin order included |
| Interleaving.CompleteIff | include/unchained_ht.h:339-343 | a schedule finishes all jobs if and only if every job gets at least as many turns as it has steps |
| Interleaving.CompleteSchedule | include/unchained_ht.h:339-343 | such a schedule exists |
| Interleaving.EveryStepCounts | include/unchained_ht.h:428-457 | each step of an unfinished job brings that job one step closer to its end |
| Copies.EveryCellOnce | include/unchained_ht.h:449-456 | the cells that a complete schedule copies to are the numbers below the total, each once, in some order |
| UnchainedTable.UnchainedHashTable.constructor | include/unchained_ht.h:357-369 | capacity is a power of two above the row count (at least 512, at most twice the rows), the directory is zero but for directory[-1] |
| UnchainedTable.UnchainedHashTable.PostProcessBuild | include/unchained_ht.h:428-458 | the three in-place passes end in the job's finished state and write only what the job owns |
| UnchainedTable.UnchainedHashTable.BuildParallel | include/unchained_ht.h:279-348 | the built table indexes exactly the bag of non-null rows of the column, and every complete schedule of the partition jobs would leave the same memory |
| UnchainedTable.UnchainedHashTable.BuildPartitions | include/unchained_ht.h:339-343 | the round-robin assignment builds every partition exactly once |
| UnchainedTable.UnchainedHashTable.Lookup | include/unchained_ht.h:376-385 | the range is the key's whole bucket and holds every entry with the key; it is null exactly if some bit of the key's tag, chosen by bits 21 to 31 of its hash, is in no tag of the entries with the same top hash bits, and then no entry has the key |
| UnchainedTable.SlotRange | include/unchained_ht.h:382-383 | a slot's range starts at its neighbour's position and ends at its own, and those cells are its bucket |
| UnchainedTable.LookupIsExact | include/unchained_ht.h:376-396 | filtered by key, a lookup's range is the bag of build rows with that key, whatever hash function and thread order |
| Matching.EitherSide | src/execute.cpp:46-48 | the bag of matches is the same whether the left or the right side is hashed |
| Matching.LookupBag | src/execute.cpp:96-104 | any arrangement of the build rows, filtered by the probe key, gives exactly the probe row's matches |
| Matching.AllFound | src/execute.cpp:90-125 | probing every row of every unit finds all matches |
| Join.UnitRow | src/execute.cpp:90-102 | row i of a page or buffer is row page_rowids[u] + i, respectively u * 1024 + i, of the column, with the same key |
| Join.Claim | src/execute.cpp:90 | fetch_add claims a fresh unit for one thread, or tells the thread to stop |
| Join.AllDone | src/execute.cpp:84-122 | when all threads have stopped, every unit has been probed to its end |
| Join.ProbeKey | src/execute.cpp:97-121 | a probe row emits exactly its matches: other keys in the range are skipped, a null range emits nothing |
| Join.ProbeAll | src/execute.cpp:84-166 | for every schedule of the claiming counter the emitted pairs are the bag of all matches, and the probe ends |
| Results.ResultSet.Emit | src/execute.cpp:106-119 | one pair appends its value to every output column, so that all columns of a thread stay aligned and packed |
| Results.MergeBuffer | src/execute.cpp:189-196 | values are moved in order, and only full buffers are put away |
| Results.MergeColumn | src/execute.cpp:171-206 | the merged column is the concatenation of the threads' columns, with all buffers but the last full |
| Join.MergedIs | src/execute.cpp:171-206 | merging the threads' columns gives the output column of their pairs, one thread after the other |
| Join.MergeAll | src/execute.cpp:168-209 | all output columns follow the same pair order |
| Join.Run | src/execute.cpp:37-210 | the result pairs are the bag of nested-loop matches, and output column o holds attribute o over left ++ right of each pair; empty inputs give empty columns |
| Columns.OverlayIsRight | include/utils.h:74-89 | the two readings of value_t: integers and references are recovered from the halves, and the shared null test is right for both |
| Columns.PushAppends | src/execute.cpp:112-118 | appending keeps all buffers but the last full |
| Columns.PackedAt | include/utils.h:136-139 | row / 1024 and row % 1024 find the row in packed buffers |
| Columns.PageStart | src/execute.cpp:339-346 | page_rowids holds the prefix sums, and page u starts at u * rows_per_page |
| Columns.DirectAt | include/utils.h:140-148 | division by rows_per_page finds the page and place of every row of a null-free column |
| Columns.GetValueIs | include/utils.h:135-149 | get_value returns the row-th value of the column's pages or buffers |
| Scan.BuildIntColumn | src/execute.cpp:321-376 | the engine column holds the decoded rows; it is read in place exactly if there are pages and none has a null, and copied otherwise |
| Scan.BuildStringColumn | src/execute.cpp:377-422 | the references name exactly the decoded strings, long strings included |
| Scan.RefsContinued | src/execute.cpp:398-400 | a continuation page extends the string of the last reference and no other |
| Scan.RowRefRefers | src/execute.cpp:402-413 | the reference made for row i of a regular page resolves to row i |
| Relations.JoinBagPermutation | src/execute.cpp:213-240 | nested loops over permuted inputs give the same bag |
| Relations.PairsJoin | src/execute.cpp:106-119 | a list of pairs that is the bag of key matches yields the bag of joined rows |
| Executor.ExecuteScan | src/execute.cpp:244-259 | a scan's columns denote the projected table rows in order |
| Executor.JoinIsNaive | src/execute.cpp:37-210 | joined result rows are, as a bag, the nested loops over what the inputs denote |
| Executor.ResultTyped | src/execute.cpp:106-110 | result values are values of the inputs, so that references stay well-formed and keep pointing into the table column they originate from |
| Executor.ExecuteHashJoin | src/execute.cpp:213-240 | a join node's columns denote the bag of rows of naive evaluation |
| Executor.ExecuteImpl | src/execute.cpp:261-274 | for every well-formed plan the columns are aligned and denote the bag of rows of naive evaluation |
| StringReads.ShortStartIs | src/execute.cpp:511-523 | a short string is read from where the codec wrote it if and only if the page's null count is a multiple of 32768 |
| StringReads.NullsShiftStrings | src/execute.cpp:514 | one null row on the page makes the string "a" come back as a zero byte |
| StringReads.ShortIsRight | src/execute.cpp:511-523 | under that condition the string read is the decoder's |
| StringReads.HeaderIff | src/execute.cpp:511-523 | all strings of all pages with a given row and value count are read right if and only if the null count is a multiple of 32768, all rows are null, or there is no room for a string byte |
| StringReads.ReadLongString | src/execute.cpp:492-509 | the chained string is recovered, and the read leaves the column exactly if nothing follows the string |
| StringReads.LastLongUnread | src/execute.cpp:492-509 | a column of one string of 8186 bytes is written and decoded, but its string cannot be read back |
| StringReads.ReadString | src/execute.cpp:481-523 | a reference to a readable column is read as the string it denotes |
| Materialize.IntNullTest | src/execute.cpp:474 | the shared null test is right for integers |
| Materialize.StringNullTest | src/execute.cpp:474 | the shared null test is right for string references |
| Materialize.WriteIntColumn | src/execute.cpp:463-542 | under any interleaving of the threads, the concatenated pages decode to the column's integers in row order |
| Materialize.WriteStringColumn | src/execute.cpp:463-542 | under any interleaving of the threads, the concatenated pages decode to the strings the column refers to, in row order |
| Materialize.MaterializeColumn | src/execute.cpp:444-545 | with any number of threads and any schedule, the pages decode to the column's values in row order; only a string column asks anything of the column it is read from |
| Materialize.MaterializeTable | src/execute.cpp:443-545 | row r of the table is what row r of the result columns denotes; every column has its type and decodes to the number of rows, also if that is 0 |
| Materialize.Execute | src/execute.cpp:278-304 | decoding the result of a query gives the bag of rows of naive evaluation of its plan; with or without rows it has a column of the right type for each output of the root, and each decodes to the stated number of rows |
| IntCodec.HoldsValue | include/plan.h:265-274 | writing a value keeps values and bitmap apart and right: 4 + 4 * nonnull + ceil(rows / 8) <= 8192 |
| IntCodec.HoldsNull | include/plan.h:276-282 | a null clears its own bit, so that a stale bit of an earlier page is never read |
| IntCodec.SealedDecodes | include/plan.h:241-251 | a saved page decodes to the rows inserted since the last one |
| IntCodec.IntInserter.Insert | include/plan.h:265-274 | appends the value; the page is saved first exactly if value and null bit would not fit |
| IntCodec.IntInserter.InsertNull | include/plan.h:276-282 | appends a null; the page is saved first exactly if its bit would not fit |
| IntCodec.IntInserter.Finalize | include/plan.h:284-288 | the column's pages decode to everything inserted |
| IntCodec.FromIntPages | src/build_table.cpp:525-544 | decodes all pages into the column's cells, and fails exactly if a value lies beyond the row count |
| Pages.DecodeIntPagesCat | src/build_table.cpp:523-544 | pages of two columns, one behind the other, decode to the rows of both |
| StringPages.StringAtIs | src/build_table.cpp:608-623 | the bytes between two end offsets are the string that was written there |
| StringPages.DecodeStringPagesCat | src/build_table.cpp:583-629 | pages that do not start inside a long string decode the same behind other pages |
| StringCodec.HoldsString | include/plan.h:369-380 | appending a string keeps offsets, string bytes and bitmap apart and right |
| StringCodec.SealedDecodes | include/plan.h:336-348 | a saved page is laid out for its rows, of which there are fewer than the marker values 0xfffe and 0xffff |
| StringCodec.StringInserter.SaveLongString | include/plan.h:317-334 | a string of any length is split over marked pages, all full but the last, and decodes to itself |
| StringCodec.StringInserter.Insert | include/plan.h:362-381 | appends the string; one of more than 8185 bytes goes on pages of its own behind the current page, and for any other the current page is saved first exactly if it would not fit |
| StringCodec.StringInserter.InsertNull | include/plan.h:383-389 | appends a null, saving the current page first exactly if its bit would not fit |
| StringCodec.StringInserter.Finalize | include/plan.h:391-395 | saves the current page exactly if it has rows; the column's pages are well-formed and decode to everything inserted |
| PageBytes.IntPageBytes | include/plan.h:218-280 | where the row count, the value count, each null bit and each value of an INT32 page are, byte by byte, the lower byte first |
| PageBytes.StringPageBytes | include/plan.h:336-381 | where the counts, the end offsets and the characters of each string of a regular VARCHAR page are, byte by byte |
| PageBytes.StringNullBits | include/plan.h:336-389 | where each row's null bit is on a VARCHAR page |
| PageBytes.LongPageBytes | include/plan.h:317-334 | the pages of a long string start with ff ff or fe ff and the number of their characters |
| PageBytes.DecodedCell | src/build_table.cpp:430-629 | a decoded column tells null from every value, the empty string included |
| StringCodec.FromStringPages | src/build_table.cpp:583-629 | decodes all pages, and fails exactly if a value lies beyond the row count or a continuation page follows no string |
| ColumnCodec.SavedPageOk | include/plan.h:265-282 | a page without nulls is saved only when it holds 1984 rows |
| ColumnCodec.LastPageOk | src/execute.cpp:335-347 | in a null-free column all pages but the last have equally many rows and the last has no more |
| ColumnCodec.RoundTripInts | include/plan.h:212-289 | writing and reading back any sequence of nullable integers is the identity |
| ColumnCodec.RoundTripStrings | include/plan.h:291-396 | writing and reading back any sequence of nullable strings is the identity |
| RowTables.PutBit | src/build_table.cpp:639-655 | the growing bitmap gets its next bit and keeps the others |
| RowTables.SaveIntPage | src/build_table.cpp:674-683 | the page put together from the vectors is laid out for the gathered rows |
| RowTables.ToIntPages | src/build_table.cpp:667-709 | the INT32 pages decode to the column and can be scanned |
| RowTables.SaveStringPage | src/build_table.cpp:824-835 | offsets, bytes and bitmap are copied without overlap |
| RowTables.LongStringPages | src/build_table.cpp:804-823 | a long string becomes marked pages that decode to it |
| RowTables.ToStringPages | src/build_table.cpp:796-878 | the VARCHAR pages decode to the column and can be scanned |
| RowTables.ToColumnar | src/build_table.cpp:657-882 | every column of the records is written as pages that decode to it |
| RowTables.CopyScan | src/build_table.cpp:384-511 | the records hold the chosen columns as read, and the scan fails exactly if one of them cannot be read |
| RowTables.FromColumnar | src/build_table.cpp:513-637 | the same for all columns in order |
| RowTables.RoundTrip | src/build_table.cpp:513-882 | any table of typed records survives to_columnar and from_columnar |
| Bitmaps.SetBitLaw | include/plan.h:253-257 | setting a bit sets that bit and leaves every other |
| Bitmaps.ClearBitLaw | include/plan.h:259-263 | clearing a bit clears that bit and leaves every other |
| ThreadPool.StepInv | include/utils.h:317-374 | every step of the caller or a worker keeps the invariant: mutex ownership, exact count, task history, no sleeper without a pending wake-up |
| ThreadPoolRuns.RunInv | include/utils.h:317-374 | the protocol invariant holds after every run, for any interleaving, spurious wake-ups and shutdown included |
| ThreadPoolRuns.CountIsLagging | include/utils.h:333-336 | active_count is the number of workers not past the current generation |
| ThreadPoolRuns.DispatchedIsCalls | include/utils.h:361-367 | the tasks that were dispatched are those that were passed to run_parallel, in order, but for one that is just being dispatched |
| ThreadPoolRuns.LogsFollowDispatch | include/utils.h:320-374 | each worker has run the tasks that were passed to run_parallel, in the order of the calls, each once, except for at most the newest; never another or a stale one |
| ThreadPoolRuns.ReturnMeansDone | include/utils.h:361-374 | run_parallel returns only when every worker has run the tasks of all calls so far, each exactly once |
| ThreadPoolRuns.BetweenCalls | include/utils.h:347-374 | between calls, and during and after the destruction of the pool, every worker has run the tasks of all calls in order; when the pool is gone every worker has ended |
| ThreadPoolRuns.NoLostWakeup | include/utils.h:321-336 | if the caller sleeps with count 0 a worker is about to wake it; if a worker sleeps on work or shutdown the caller is about to wake it |
| ThreadPoolRuns.MovesDecrease | include/utils.h:317-374 | every step but a spurious wake-up lowers a measure |
| ThreadPoolRuns.SomebodyCanMove | include/utils.h:317-374 | no deadlock: until the call or the destructor has returned, somebody can move |
| ThreadPoolRuns.RunsEnd | include/utils.h:347-374 | every run without spurious wake-ups ends within the measure, with run_parallel returned or the pool destroyed |
| CsvParsing.CSVParser.Execute | src/csv_parser.cpp:3-163 | one buffer, with look-ahead, has the effect of feeding its characters one at a time; same callbacks, state and error |
| CsvParsing.CSVParser.Finish | src/csv_parser.cpp:165-175 | the end of input: unclosed quotes are an error, an announced or missing record end is supplied |
| CsvSpec.AdvanceIs | src/csv_parser.cpp:60-161 | looking ahead in the buffer comes to the same as keeping the decision pending |
| CsvSpec.ResumeIs | src/csv_parser.cpp:5-59 | resuming from the flags of the previous buffer comes to the same as not having been cut |
| CsvProperties.ParseAll | src/build_table.cpp:301-315 | the loader's loop over chunks has the outcome of the chunk-wise machine, stopping at the first error |
| CsvProperties.ChunksDoNotMatter | src/csv_parser.cpp:3-175 | without trailing separators, or with a carriage return for separator, callbacks and outcome are those of the whole text, wherever it is cut |
| CsvProperties.TrailingChunks | src/csv_parser.cpp:28-32 | with trailing separators other than a carriage return, one text and two ways to cut it give different errors |
| CsvProperties.CutAnywhereIff | src/csv_parser.cpp:3-175 | the input may be cut anywhere if and only if the format has no trailing separators, or its separator is a carriage return |
| CsvRecords.AcceptedIsRectangle | src/csv_parser.cpp:42-58 | an accepted input was reported as whole rows of equal width, row by row and column by column, with trailing separators or without |
| CsvRecords.RectangleIff | src/csv_parser.cpp:165-175 | every accepted input is such a rectangle if and only if the separator is not a line feed, which finish would take for the end of a field |
| CsvQuoting.FeedEscaped | src/csv_parser.cpp:123-154 | a quoted text with escaped quotes and escape characters is read as the text, whether quotes escape themselves or a backslash does |
| CsvQuoting.RoundTrip | src/csv_parser.cpp:3-175 | text encoded by RFC 4180, section 2, or with an escape character of its own, cut anywhere, yields every field at its row and column |
| CsvQuoting.LastLineIff | src/csv_parser.cpp:165-175 | a last record without line break is accepted and complete if and only if it does not end in a closing quote that could be an escape, and is not an empty line behind others |
| CsvQuoting.QuotedAtEnd | src/csv_parser.cpp:165-175 | one quoted field without line break is refused as not closed |
| CsvReading.QuotedIsRead | src/csv_parser.cpp:123-159 | between quotes, an escape character makes a quote or an escape character ordinary and stands for itself before anything else |
| CsvReading.UnquotedEscaped | src/csv_parser.cpp:123-159 | reading quoted text by that rule undoes the escaping of any text |
| CsvReading.EscapeIsKept | src/csv_parser.cpp:12-20 | an escape character before an ordinary character is kept, wherever the input is cut |
| CsvReading.QuotedPart | src/csv_parser.cpp:123-159 | a quoted part may stand anywhere in a field and adds its text to what the field has already |
| CsvReading.ReturnEndsRecord | src/csv_parser.cpp:24-58 | outside quotes a carriage return, alone or before a line feed, ends a record just as a line feed does |
| CsvReading.RaggedIsRefused | src/csv_parser.cpp:42-58 | a line with more or fewer fields than the lines before it is refused for that reason, wherever the input is cut |
| FilterKernels.OneOwner | include/inner_column.h:23-27 | every bitmap byte belongs to exactly one thread's range |
| FilterKernels.KernelRow | include/inner_column.h:250-261 | one row sets its own bit exactly if it is not null and passes |
| FilterKernels.RunKernel | include/inner_column.h:85-104 | under any schedule the result bitmap has exactly the bits of the non-null rows that pass |
| FilterKernels.BitmapNot | src/statement.cpp:8-16 | every byte is complemented once |
| FilterKernels.BitmapAnd | src/statement.cpp:18-30 | every byte is the conjunction of the two |
| FilterKernels.BitmapOr | src/statement.cpp:32-44 | every byte is the disjunction of the two |
| FilterKernels.ByteOperations | src/statement.cpp:8-44 | on rows, the byte operations are negation, conjunction and disjunction |
| InnerColumns.InnerInts.PushBack | include/inner_column.h:154-157 | appends a value to the column's rows |
| InnerColumns.InnerInts.PushBackNull | include/inner_column.h:159-162 | appends a null to the column's rows |
| InnerColumns.InnerInts.BitmapPushBack | include/inner_column.h:136-152 | the bitmap has room for one row more, whose bit says whether it is null; the bits of all earlier rows are as before |
| InnerColumns.InnerStrings.PushBack | include/inner_column.h:360-364 | appends a string to the column's rows |
| InnerColumns.InnerStrings.PushBackNull | include/inner_column.h:366-369 | appends a null to the column's rows |
| InnerColumns.InnerStrings.BitmapPushBack | include/inner_column.h:341-358 | the same for a string column, whose row count goes up by one |
| Filters.LiteralIff | src/statement.cpp:56 | the cast of an integer literal to 32 bits leaves a comparison right for every value if and only if the literal fits or wraps to the constant end |
| Filters.LiteralWraps | src/statement.cpp:56 | the literal 2^32 equals a row that holds 0 for the column evaluator, not for the row evaluator |
| Filters.EvalColumn | src/statement.cpp:46-133 | a comparison on a column agrees with the comparison on every row |
| Filters.EvalTable | src/statement.cpp:186-228 | a statement on columns agrees with the statement on every record, nulls and NOT included; `FilterMeaning` says which rows those are |
| FilterMeaning.NullRows | src/statement.cpp:139-143 | a null passes IS_NULL and no other comparison |
| FilterMeaning.IntRows | src/statement.cpp:154-166 | EQ, NEQ, LT, GT, LEQ and GEQ select the rows whose integer is equal, unequal, less, greater, at most or at least the literal |
| FilterMeaning.TextRows | src/statement.cpp:145-184 | strings are ordered by the byte where they first differ, a proper prefix first; LIKE selects the rows that match and NOT_LIKE the other non-null rows |
| FilterMeaning.ConnectedRows | src/statement.cpp:186-228 | AND, OR and NOT select the rows that both, either and not the first statement select |
| FilterMeaning.LessIsBefore | src/statement.cpp:175-178 | the order in which strings are compared is that of the first difference |
| FilterMeaning.WrapKeeps | src/statement.cpp:56 | the cast to 32 bits keeps the number modulo 2^32 |
| Loader.FromInnerInts | src/build_table.cpp:104-129 | the pages decode to the selected rows of an INT32 column, which are counted |
| Loader.FromInnerStrings | src/build_table.cpp:104-129 | the pages decode to the selected rows of a VARCHAR column, which are counted |
| Loader.LoadFiltered | src/build_table.cpp:319-374 | the loaded table holds exactly the records that pass the filter, in order, with all columns aligned |
| Loader.LoadedTableOk | src/build_table.cpp:319-374 | a loaded table is a legal input of a query plan |
| InnerTables.InnerTable.AddRecord | src/build_table.cpp:249-298 | the record is appended to the table: each field to its column, as null if it is not of the column's type |
| InnerTables.InnerTable.View | src/build_table.cpp:319-326 | the columns hold exactly the records added, in order |
| TableParsing.TableParser.OnField | src/build_table.cpp:39-88 | a field is skipped in the header, converted by its column's type otherwise, and the last one of a line passes the record on |
| TableParsing.OnLines | src/build_table.cpp:39-88 | lines of the table's width become records, one each and in order, unless a field cannot be converted |
| TableParsing.FileLoads | src/build_table.cpp:300-317 | a file encoded in the loader's dialect and cut anywhere yields the values of its fields, line by line but for the header |
| LoadedCells.LinesToCells | src/build_table.cpp:39-88 | lines of the table's width are loaded exactly if the non-empty fields of INT32 columns can be converted; a field then is null if and only if it is empty, and else the number it converts to or a string of the same characters |
| LoadedCells.FileToCells | src/build_table.cpp:300-317 | the same for the fields of any input that the parser accepts |
| LoadedCells.TwoLines | src/build_table.cpp:300-317 | the records of a file of two lines, with a number, an empty field and escapes between quotes, character by character |
| TableParsing.LinesLoad | src/build_table.cpp:39-88 | lines of the table's width are loaded with the values of their fields, of narrower lines none is |
| TableParsing.AcceptedLoads | src/build_table.cpp:300-317 | any input that the parser accepts is a list of lines of equal width, and every line behind the header is loaded if and only if that is the table's width and all fields can be converted |
| TableParsing.NarrowFile | src/build_table.cpp:83-87 | a line of one field for a table of two columns is accepted and not loaded |
| TableParsing.FromCsv | src/build_table.cpp:207-376 | the loaded table holds exactly the records that were read and pass the filter; it is refused exactly if the text is, or a field cannot be converted |
| UnionFind.Compressed | include/common.h:117 | pointing an element at its root changes no root and keeps the array acyclic |
| UnionFind.Linked | include/common.h:119 | hanging one root below another joins the two classes and no others |
| UnionFind.MergedCloses | include/common.h:119 | same root means related by the equivalence closure of the united pairs, before and after |
| UnionFind.DSU.constructor | include/common.h:112-115 | at first every element is its own class |
| UnionFind.DSU.Find | include/common.h:117 | returns the root, terminates, and its path compression changes no root |
| UnionFind.DSU.Unite | include/common.h:119 | adds one pair to the relation that the structure closes |
| UnionFind.DSU.Groups | tests/read_sql.cpp:816-830 | two columns are in one group if and only if the join equalities relate them; every column is in one group only, and is listed there once; groups are in rising order |

## Left out

- The whole repository outside the files named above: SQL parsing, JSON plans, comparison with DuckDB, benchmark driver, pretty printing, caches, the literal tag table and the hardware headers.
- I/O, `mmap`, `MappedMemory`, `from_cache` and file reading are not modelled; chunks of the CSV file and rows of tables are arguments.
- INT64 and FP64 columns, which the executor never joins, and floating-point comparison. `LIKE` is an arbitrary predicate.
- Weak memory: atomics and mutex sections are single steps. `GlobalAllocator.reserve` is not modelled; the heap fallback is part of the allocation, so no claim depends on its estimate.
- The thread-local states, the arena and the bump allocators are fields of one object with sequences and maps (`Slab.SlabMemory`); freeing memory is not modelled.
- `ThreadPool` runs the tasks as opaque steps; that the tasks of the build, the probe and the materialisation may interleave is shown where they are modelled. `FilterThreadPool`'s own hand-shake is not modelled, only its split of the work. `bitmap_not`, `bitmap_and` and `bitmap_or` go through the threads' disjoint byte ranges one after the other.
- The probe step of a thread is one row: lookup and output go to memory that no other thread writes.
- Reads beyond a page's end, undefined in the program, give 0 or the empty string in `Pages.IntAt` and `StringPages.StringAt`; on pages that the codec writes there are none.
- `Join.Run`, `Executor.ExecuteImpl` and `Materialize.Execute` ask that of each join's inputs one has fewer than 2^30 rows, as the table's constructor does; `JoinNode.build_left` is ignored, as in the program.
- Scan: table, column and page numbers of VARCHAR columns must fit in the 16 bits that a reference has for them.
- Plans: children precede parents, join keys are INT32, nodes have at least one output attribute, and the columns of a table have equally many rows.
- Ghost parameters such as the row list of a hash table or the rows of a page being written record what the mutable state stands for; they have no counterpart in the program.
- CsvQuoting.RoundTrip: asks that separator, escape character, quote and line breaks are different characters, except that a quote may be its own escape character; fields without trailing separators.
- StringCodec.FromStringPages: a continuation page before any row, or behind a null beyond the row count, makes the program index its results out of range; the model reports the exception there.
- RowTables.CopyScan: reports the exception where such a continuation page makes the program index out of range.
- RowTables.FromColumnar: the same.
- TableParsing.FromCsv: on a line wider than the table the program reads past its list of attributes; the model gives no table there. Conversion of integers is a parameter, and characters are taken as bytes.
- `Table.to_columnar` is modelled for typed records; the exception for a wrongly typed string column is not.

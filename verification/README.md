# CarinaDB in Dafny

CarinaDB is a small log-structured merge-tree key-value engine with a vector index. This project models
its C++ core and proves what the engine rests on, from the bytes of a memtable node up to the map the
whole engine represents.

* **Skip list** (`SkipListMachine`, `SkipListInvariant`, `SkipListTheorems`, `SkipListLinks`): the lock-free list as a step
  machine. A schedule names the thread that takes the next step, and a step is one allocation, one pointer
  read, one pointer write or one compare-and-swap, so a statement about all schedules is a statement about
  all interleavings. `Arena`, `NodeAccessor` and `OffHeapSkipList` are the same list as a class over a byte
  array with one caller at a time: its bytes hold the abstract nodes of the machine, and its contract is the
  ordered list of versions (`Layers.Insert`). `BlockWrites` shows that the byte writes of many threads
  interleave harmlessly. `MemTable` is built on that class and gives the state that `Engine` works with.
* **HNSW** (`HnswSearch`, `HnswIndex`): the graph index as a class, with exact integer distances.
* **Log** (`Crc32`, `CrcDefinition`, `RecordLayout`, `FrameLog`, `WalRecovery`, `GroupCommit`,
  `CommitOutcomes`, `CommitDurability`, `TornLog`): checksum and its definition by polynomial division, record
  coder, recovery scan and the leader/follower group commit as a step machine, what an append tells its caller,
  and group commit joined with recovery, without and with writes that stopped inside a record.
* **SSTable** (`BloomFilter`, `Bisection`, `SparseIndex`, `TableFormat`, `SSTableBuilder`, `SSTableReader`,
  `SSTableScanner`, `BlockCache`): the file format, its writer and its two readers, with the shared caches.
* **Compaction and engine** (`Compactor`, `CompactionView`, `Layers`, `MemTable`, `ReaderStack`, `Engine`,
  `EngineObjects`, `CrashRecovery`): the k-way merge, what memtables and tables answer together, the engine
  as one map, its query over the real memtable and reader objects, and crashes between the steps of put,
  switch and flush, with recoveries that may fail or be interrupted.

`Formats` states every byte format in numbers, apart from the readers and writers that share it.

Keys are compared in one lexicographic order on unsigned bytes (`Bytes.Less`), proved total once. Numbers
are mathematical integers; 32-bit and 64-bit wrap-around is written out where the program relies on it.
I/O becomes byte sequences: a file is an immutable sequence, a log file is bytes plus the length the last
fsync covered. Random heights and levels, filter sizes, file names and clock values are parameters.

## Where the code does not do what it promises

The table below holds the exact conditions, most with a concrete failing input.

* **What a flushed table answers.** Three things can make a reader give a wrong answer, and one condition
  covers them all: a key gets its newest version if and only if that version fits a 4096-byte block and the
  index search reads it first (`SSTableReader.BuiltTableExact`, `SparseIndex.SearchExact`). The search stops
  at the first index entry equal to the target, so with several blocks that end with one key it can return
  an older version (`SSTableReader.LateLandingHappens`). A block is read up to an empty key
  (`SSTableReader.EmptyKeyHides`). A record that does not fit a block is dropped
  (`SSTableReader.OversizedResurfaces`). `ReaderStack.FlushExact` says for which keys a flush therefore
  changes what a query answers; `ReaderStack.FlushBringsBack` and `ReaderStack.FlushHides` are two such
  flushes. Compacted tables never land late (`SSTableReader.StrictKeysNeverLate`).
* **Compactions that show.** A compaction brings in the newest version that the blocks of its inputs hold.
  Where the index searches of the inputs did not read that version before, the answer changes, always to
  that version (`ReaderStack.CompactExact`); `ReaderStack.CompactionBringsForward` is such a compaction.
* **Failed log writes.** A batch whose `write` fails half-way leaves its bytes in the file, and later
  batches are appended behind them, synced and acknowledged (`GroupCommit.AcknowledgedIsDurable` holds in
  every run). If every failed write stopped between two requests, every acknowledged record is recovered
  (`CommitDurability.AcknowledgedSurviveCrash`). Otherwise the first torn request decides: what was
  acknowledged before it is recovered, and recovery ends there, losing all that was acknowledged behind it,
  if and only if its checks fail where that request begins (`TornLog.TheTearDecides`). They do fail for the
  torn headers of `TornLog.TornByteFails` and `TornLog.TornHeaderFails`, and behind the header exactly as
  `TornLog.TornPayloadDecides` says; in general a 32-bit checksum may match by chance, so the condition
  names the check. `TornLog.AcknowledgedRetryLost` is a run that loses an acknowledged retry.
* **Recovery into one arena.** All logs are replayed into one memtable of 64 MiB, and a full arena ends the
  constructor. `CrashRecovery.CrashIsInvisible` says exactly when a recovery completes. Two returned writes,
  or one put that was refused and returned, can leave logs that never open again
  (`CrashRecovery.ReturnedWritesBlock`, `CrashRecovery.RefusedPutBlocks`, `CrashRecovery.NeverOpens`).
* **Interrupted recovery.** A recovery that fails or crashes half-way leaves the records it replayed in a
  new log behind the old ones, so an older version can be replayed last and win
  (`CrashRecovery.InterruptionLoses`). `CrashRecovery.IncompleteRecoveryExact` says for which keys.
* **Large puts.** A record that does not fit an empty memtable is lost by the engine, as
  `Engine.CarinaEngine.Write` states.
* **Dropped tombstones.** Compaction drops tombstones at level 1 although older level-1 tables may exist.
  While the engine runs this is harmless because the input readers stay in the stack
  (`CompactionView.KeepingInputsChangesNothing`); `CompactionView.ReplacingInputsExact` says exactly which
  keys would change if they did not.

## Assumptions

Reads and compare-and-swaps are sequentially consistent. Engine calls are atomic steps, flushes complete in
freeze order, and no flush overlaps a compaction. Node and vector dimensions agree and vector ids are fresh.
A directory holds level-0 files only when it is opened, ids are below one million so that name order is id
order, log timestamps are distinct, and SSTable files are created atomically. An fsync makes durable what it
covers (the program ignores its return value).

## Model

| member | source | states |
|---|---|---|
| Bytes.CompareKeys | carina-engine/include/carina/engine/memtable/offheap_skiplist.hpp:162-169 | the comparison loop that four classes repeat returns a negative, zero or positive number exactly when the first key is below, equal to or above the second in the one lexicographic byte order |
| Bytes.LessTrichotomy | carina-engine/include/carina/engine/compaction/compaction_comparator.hpp:20-27 | that order is total and antisymmetric |
| Bytes.LessTransitive | carina-engine/include/carina/engine/compaction/compaction_comparator.hpp:20-27 | and transitive |
| Bytes.LessIs | carina-engine/include/carina/engine/compaction/compaction_comparator.hpp:20-27 | a key is smaller exactly if it is a proper beginning of the other, or has the smaller byte at the first position where they differ |
| Formats.Int32Is | carina-common/include/carina/common/byte_io.hpp:11-16 | an integer is stored as four bytes, highest first, which add up to it modulo 2 to the 32 |
| Formats.Int32ReadIs | carina-common/include/carina/common/byte_io.hpp:32-38 | four bytes read as a number whose highest bit is the sign |
| Formats.Int64Is | carina-common/include/carina/common/byte_io.hpp:18-22 | a 64-bit integer is stored as its higher word, then its lower word |
| Bytes.Int32RoundTrip | carina-common/include/carina/common/byte_io.hpp:11-16 | an integer put big-endian anywhere in a buffer is got back, wrapped to 32 bits |
| Bytes.Int64RoundTrip | carina-common/include/carina/common/byte_io.hpp:18-22 | the same for 64 bits |
| ByteReader.ByteReader.GetInt32BE | carina-common/include/carina/common/byte_io.hpp:32-38 | the cursor reads the four bytes it stands on as a signed number and moves past them, or throws (None) and stays |
| ByteReader.ByteReader.GetInt64BE | carina-common/include/carina/common/byte_io.hpp:40-48 | the shift-and-or loop reads the signed 64-bit number, or throws and the cursor stays |
| ByteReader.ByteReader.GetBytes | carina-common/include/carina/common/byte_io.hpp:55-60 | reads exactly the next bytes, or throws and the cursor stays |
| SkipListInvariant.StepKeepsInv | carina-engine/include/carina/engine/memtable/offheap_skiplist.hpp:26-63 | one step (an allocation, one pointer read, one pointer write or one CAS) of any thread keeps the whole invariant, including every other thread's position and the ownership of unpublished nodes |
| SkipListTheorems.SafeInEverySchedule | carina-engine/include/carina/engine/memtable/offheap_skiplist.hpp:26-63 | in every interleaving of any number of puts and gets: allocations disjoint, aligned and off the null offset; level 0 acyclic, in key order, newest published first within a key, holding exactly the published nodes; every upper link of a published node leads strictly forward to a published node tall enough for it |
| SkipListInvariant.LinkKeeps | carina-engine/include/carina/engine/memtable/offheap_skiplist.hpp:50-60 | an upper-level CAS with possibly stale search results keeps all of that, although a retry does not rewrite the node's own pointer |
| SkipListInvariant.PublishKeeps | carina-engine/include/carina/engine/memtable/offheap_skiplist.hpp:40-48 | the level-0 CAS inserts the node at its key's front and keeps every invariant of the list |
| SkipListTheorems.AccessInRange | carina-engine/include/carina/engine/memtable/node_accessor.hpp:65-71 | in every schedule the pointer cell a thread is about to read or write exists |
| SkipListTheorems.GrowsAlong | carina-engine/include/carina/engine/memtable/offheap_skiplist.hpp:26-63 | along a schedule nodes keep their key and height and nothing published is ever lost or reordered |
| SkipListTheorems.LastReadDecides | carina-engine/include/carina/engine/memtable/offheap_skiplist.hpp:76-105 | a level-0 pointer read that ends a search finds the newest published version of the key, or shows that none is published |
| SkipListTheorems.GetLinearizable | carina-engine/include/carina/engine/memtable/offheap_skiplist.hpp:71-107 | a get that runs concurrently with puts returns what was the newest published version of its key at one moment between its call and its return |
| SkipListTheorems.PutLinearizable | carina-engine/include/carina/engine/memtable/offheap_skiplist.hpp:40-48 | a node unpublished at one moment and published at a later one is appended to the history by a step in between |
| SkipListTheorems.PutTakesEffect | carina-engine/include/carina/engine/memtable/offheap_skiplist.hpp:26-63 | between the call of a put and its return exactly one step of the whole schedule publishes the node of that call, it is a step of the calling thread, and the node holds the record and height of the call |
| SkipListLinks.PutEntersEveryLevel | carina-engine/include/carina/engine/memtable/offheap_skiplist.hpp:50-61 | between the call of a put and its return its thread enters the node on every level from 1 up to the height of the call, each time by a compare-and-swap that found the expected successor |
| SkipListLinks.OnlySwaps | carina-engine/include/carina/engine/memtable/offheap_skiplist.hpp:42-58 | whatever step changes a pointer of a listed node, it is the compare-and-swap of a thread on the predecessor it found, from the successor it found to its own node |
| SkipListTheorems.PutPublishes | carina-engine/include/carina/engine/memtable/offheap_skiplist.hpp:26-63 | a put that finishes has published its node |
| OffHeapSkipList.FirstVersionIsNewest | carina-engine/include/carina/engine/memtable/offheap_skiplist.hpp:110-131 | after any concurrent schedule the level-0 list is sorted and its first version of a key is the last one published, which is what a flush writes first |
| Arena.Arena.Allocate | carina-engine/include/carina/engine/memtable/arena.hpp:27-34 | the bump allocator hands out the old pointer rounded up by the aligned size, or fails, and moves in both cases |
| Arena.Arena.PutBytes | carina-engine/include/carina/engine/memtable/arena.hpp:50-52 | the buffer afterwards is the old one with exactly those bytes overwritten |
| Arena.Arena.CompareExchange | carina-engine/include/carina/engine/memtable/arena.hpp:60-62 | the word is replaced exactly when it held the expected value |
| NodeAccessor.AllocateAndWriteNode | carina-engine/include/carina/engine/memtable/node_accessor.hpp:17-45 | a written node reads back field by field with null pointers, and every byte below the block is as before; a full arena leaves the buffer alone |
| NodeAccessor.GetRecordAt | carina-engine/include/carina/engine/memtable/node_accessor.hpp:47-61 | the field readers give back the stored record, an empty pointer as none |
| Formats.NodeIs | carina-engine/include/carina/engine/memtable/node_accessor.hpp:9-61 | a node stands in the arena as kind, three lengths at offsets 4, 8 and 12, the height at 16, the pointers from 20 on, then key, value and pointer |
| NodeAccessor.StoreHolds | carina-engine/include/carina/engine/memtable/node_accessor.hpp:68-71 | a pointer write on the bytes is the pointer write on the abstract heap: key, value, pointer, kind and height of every node stay |
| NodeAccessor.FreshHolds | carina-engine/include/carina/engine/memtable/node_accessor.hpp:17-45 | a later allocation changes no earlier node |
| BlockWrites.OwnWritesDecide | carina-engine/include/carina/engine/memtable/node_accessor.hpp:17-71 | in any interleaving of byte writes, a block ends up as the writes into it alone make it, in their own order |
| BlockWrites.NodeApplied | carina-engine/include/carina/engine/memtable/node_accessor.hpp:17-45 | a node's own field writes, applied in their order to any buffer, put the node into its block |
| BlockWrites.ScheduleWrites | carina-engine/include/carina/engine/memtable/node_accessor.hpp:17-71 | in every schedule of the skip list the bytes that its steps write into a block (the fresh node field by field, then its pointer writes and compare-and-swaps by any thread) put exactly the machine's node there, and no write leaves its block |
| BlockWrites.AnyInterleavingHolds | carina-engine/include/carina/engine/memtable/node_accessor.hpp:17-71 | so however the byte writes of a schedule are reordered across blocks, each block's in its own order, the buffer holds the node heap of that schedule |
| OffHeapSkipList.OffHeapSkipList.FindPredecessors | carina-engine/include/carina/engine/memtable/offheap_skiplist.hpp:142-160 | on every level the lanes hold the last node below the key and its successor |
| OffHeapSkipList.OffHeapSkipList.Put | carina-engine/include/carina/engine/memtable/offheap_skiplist.hpp:26-63 | on the byte arena a put is an insertion of the record before the first version that is not smaller, and a predecessor on each level below the height leads to the new node; a full arena leaves the list as it was |
| OffHeapSkipList.OffHeapSkipList.GetRecord | carina-engine/include/carina/engine/memtable/offheap_skiplist.hpp:71-107 | returns the first version of the key in level-0 order, or none exactly when there is none |
| OffHeapSkipList.OffHeapSkipList.ForEach | carina-engine/include/carina/engine/memtable/offheap_skiplist.hpp:110-131 | visits every version once, in level-0 order |
| OffHeapSkipList.PublishInserts | carina-engine/include/carina/engine/memtable/offheap_skiplist.hpp:40-48 | publishing a node behind its predecessor is exactly an ordered insertion into the list of versions |
| HnswSearch.SearchWithin | carina-engine/include/carina/engine/index/hnsw/hnsw_index.hpp:30-72 | the best-first loop terminates on any graph and returns at most ef distinct nodes with their distances, locally closed: a layer neighbour of a returned node is returned or, with the result full, no nearer than any returned one |
| HnswSearch.L2IsDistance | carina-engine/include/carina/engine/math/vector_math.hpp:21-29 | the measure is never negative, zero exactly between equal vectors, and symmetric |
| HnswSearch.L2Adds | carina-engine/include/carina/engine/math/vector_math.hpp:21-29 | it adds over the parts of two vectors |
| HnswSearch.L2OneCoordinate | carina-engine/include/carina/engine/math/vector_math.hpp:21-29 | and vectors that differ by d in one coordinate are d squared apart |
| HnswSearch.SmallLayerIsFound | carina-engine/include/carina/engine/index/hnsw/hnsw_index.hpp:30-72 | if no more than ef nodes are reachable from the entry, exactly the reachable ones are returned |
| HnswSearch.SelectHeuristic | carina-engine/include/carina/engine/index/hnsw/hnsw_index.hpp:143-161 | the neighbour heuristic returns a greedy diverse subset: at most the limit, ascending, each strictly closer to the base than to any earlier choice, and every candidate left out before the limit is shadowed by a choice |
| HnswSearch.SortByDistance | carina-engine/include/carina/engine/index/hnsw/hnsw_index.hpp:146-147 | a permutation in ascending distance |
| HnswIndex.HnswIndex.SearchLayer | carina-engine/include/carina/engine/index/hnsw/hnsw_index.hpp:30-72 | on the index graph every lookup is in range and the answer is locally closed within the nodes reachable from the entry |
| HnswIndex.HnswIndex.Descend | carina-engine/include/carina/engine/index/hnsw/hnsw_index.hpp:88-93 | greedy descent never moves further from the query and ends at a node no farther than any of its neighbours on the last layer walked |
| HnswIndex.HnswIndex.LinkOne | carina-engine/include/carina/engine/index/hnsw/hnsw_index.hpp:103-116 | one bidirectional edge with overflow pruning keeps the graph well formed and other nodes' lists alone; the far list is the old one plus the new id while it held fewer than twice maxM in layer 0, or than maxM above, else a greedy diverse subset of at most that size |
| HnswIndex.HnswIndex.Insert | carina-engine/include/carina/engine/index/hnsw/hnsw_index.hpp:74-123 | after an insert of a fresh id: edges only between registered nodes tall enough, no self-edge, no duplicate; lists of at most twice maxM in layer 0 and maxM above, where a chosen neighbour with room only gains the new id; entry point of maximal level; old vectors and levels unchanged, untouched layers unchanged, every touched layer linked as the heuristic chose |
| HnswIndex.HnswIndex.Search | carina-engine/include/carina/engine/index/hnsw/hnsw_index.hpp:125-139 | the answer is at most k distinct nodes reachable in layer 0 from where the descent ends, in ascending distance, and exactly the k nearest of the reachable nodes when these are at most ef; a stored vector equal to the query is then among them |
| Crc32.PolyIsConstant | carina-common/include/carina/common/crc32.hpp:16 | the reflected generator polynomial of section 8 of RFC 1952 is the constant 0xEDB88320 |
| Crc32.MakeCrc32Table | carina-common/include/carina/common/crc32.hpp:11-21 | every table entry is eight division steps of its index |
| Crc32.LookupIsFeed | carina-common/include/carina/common/crc32.hpp:32 | one table lookup is eight single-bit steps of the definition |
| Crc32.ComputeCrc32 | carina-common/include/carina/common/crc32.hpp:28-35 | the table-driven loop computes the bit-by-bit checksum of every input |
| CrcDefinition.CrcIsRemainder | carina-common/include/carina/common/crc32.hpp:28-35 | the complement of the checksum is the remainder of the message, its first 32 bits complemented and 32 zero bits appended, divided by the generator x^32 + x^26 + ... + 1, as section 8.1.1.6.2 of ITU-T V.42 defines it |
| CrcDefinition.RemainderIsUnique | carina-common/include/carina/common/crc32.hpp:28-35 | only one polynomial below x^32 is that remainder |
| CrcDefinition.MessageBitIs | carina-common/include/carina/common/crc32.hpp:32 | message bit 8i + j is binary digit j of byte i |
| CrcDefinition.ResidueIsFixed | carina-common/include/carina/common/crc32.hpp:28-35 | a message followed by its own checksum leaves the same register whatever the message |
| Crc32.FeedByteBijective | carina-common/include/carina/common/crc32.hpp:32 | the step of one data byte is a bijection on registers |
| Crc32.BurstDetected | carina-common/include/carina/common/crc32.hpp:28-35 | any change confined to 32 consecutive bits of a message changes its checksum |
| Crc32.FourBytesDetected | carina-common/include/carina/common/crc32.hpp:28-35 | so does any change confined to four consecutive bytes |
| RecordLayout.ParseRecordBytes | carina-common/include/carina/common/log_record_coder.hpp:26-34 | a record's bytes, wherever they stand, read back as the record with an empty pointer as none |
| RecordLayout.ParseExact | carina-common/include/carina/common/log_record_coder.hpp:47-60 | any bytes decode exactly if the 13 fixed bytes and the three lengths fit; a length that is not positive reads as empty |
| Formats.RecordIs | carina-common/include/carina/common/log_record_coder.hpp:26-34 | a record is kind, three lengths, key, value and pointer, at these offsets |
| Formats.FrameIs | carina-common/include/carina/common/log_record_coder.hpp:18-44 | a log frame is the checksum, the payload length and the payload, and the payload bound is 104857600 |
| Formats.EntryIs | carina-engine/include/carina/engine/wal/wal.hpp:88-112 | recovery reads a frame on exactly with a length of 1 to 104857600, all its bytes in the file, and a matching checksum |
| Formats.KindsAre | carina-common/include/carina/common/log_record_coder.hpp:26-34 | a put is kind 0, a put with a vector kind 1, a tombstone kind 2 |
| WalRecovery.EncodeRecord | carina-common/include/carina/common/log_record_coder.hpp:18-44 | the coder writes checksum, payload size and payload |
| WalRecovery.DecodePayload | carina-common/include/carina/common/log_record_coder.hpp:47-60 | decoding reads the record at the front of the payload and throws exactly when a length runs past the end |
| WalRecovery.Recover | carina-engine/include/carina/engine/wal/wal.hpp:71-126 | the recovery loop terminates on arbitrary bytes and delivers what the frame-by-frame scan of the file delivers |
| WalRecovery.FrameEntry | carina-engine/include/carina/engine/wal/wal.hpp:88-117 | at a stored frame the scan goes on exactly when the checksum of the stored payload matches |
| WalRecovery.RecoverAnyCut | carina-engine/include/carina/engine/wal/wal.hpp:71-126 | for any records and any byte cut of their log, recovery delivers exactly the records whose frames lie wholly before the cut, and stops at the end of the last one |
| WalRecovery.RecoverStable | carina-engine/include/carina/engine/wal/wal.hpp:71-126 | on any bytes, the part of the file that recovery accepted recovers to the same records |
| WalRecovery.RecoverDamaged | carina-engine/include/carina/engine/wal/wal.hpp:108-112 | damage within 32 consecutive bits of one record's payload ends recovery exactly before that record, whatever follows |
| GroupCommit.StepKeepsInv | carina-engine/include/carina/engine/wal/wal.hpp:35-58 | one step of any thread keeps the protocol invariant and only extends data, file, sync marks and outcomes |
| GroupCommit.SafeInEveryRun | carina-engine/include/carina/engine/wal/wal.hpp:35-58 | in every run of any number of appending threads, with failed and partial writes, the invariant holds: one leader, queue and batch are consecutive requests, exactly the earlier ones are completed, the file is the written requests and the failed remains |
| GroupCommit.LogInOrderOfArrival | carina-engine/include/carina/engine/wal/wal.hpp:134-157 | without a failed write the file is at every moment a prefix of all requests' bytes in order of arrival; with the lock free it holds exactly the requests that left the queue, each once |
| GroupCommit.AcknowledgedIsDurable | carina-engine/include/carina/engine/wal/wal.hpp:158-168 | in every run a request completed with a value stands whole in the fsynced part of the file, and its blob bytes were synced before |
| GroupCommit.LockFreeMeansQueued | carina-engine/include/carina/engine/wal/wal.hpp:45-56 | whenever no thread holds the leader lock, the queue holds exactly the requests without an outcome |
| GroupCommit.LeaderLeavesCompleted | carina-engine/include/carina/engine/wal/wal.hpp:45-57 | at most one thread leads; it gives up the lock only with its own request completed, and a call returns only its own outcome |
| CommitOutcomes.OutcomeExact | carina-engine/include/carina/engine/wal/wal.hpp:151-168 | in every run a completed request has a value if and only if its bytes were written whole, and an exception if and only if it stands in a batch whose write failed |
| CommitOutcomes.ReturnsExactly | carina-engine/include/carina/engine/wal/wal.hpp:35-58 | so an append returns normally if and only if its bytes were written whole |
| CommitOutcomes.NoFailureAllSucceed | carina-engine/include/carina/engine/wal/wal.hpp:134-168 | in a run without a failed write every completed request has a value, and with the lock free every request that left the queue |
| CommitOutcomes.DrainTakes | carina-engine/include/carina/engine/wal/wal.hpp:135-143 | a leader takes the first thousand waiting requests, or all if they are fewer, and leaves the others waiting in order |
| GroupCommit.WriteCases | carina-engine/include/carina/engine/wal/wal.hpp:151-157 | a write extends the file by exactly what it reports, goes on with the rest, and fails the batch at zero or less with bytes left |
| GroupCommit.GrowsAlong | carina-engine/include/carina/engine/wal/wal.hpp:134-170 | along a run the file, the durable marks, the log and all outcomes only grow |
| GroupCommit.FailuresShow | carina-engine/include/carina/engine/wal/wal.hpp:153-157 | the log shows a failed segment exactly when some write of the run failed |
| CommitDurability.AcknowledgedSurviveCrash | carina-engine/include/carina/engine/wal/wal.hpp:35-126 | commit and recovery together: in every run whose failed writes stopped between two requests or before the first, whatever part beyond the durable bytes a crash keeps, recovery delivers a prefix of the requests in file order that contains every acknowledged one |
| CommitDurability.NoFailureIsClean | carina-engine/include/carina/engine/wal/wal.hpp:151-160 | a run without a failed write is such a run |
| TornLog.BeforeTheTear | carina-engine/include/carina/engine/wal/wal.hpp:71-170 | in every other run, everything acknowledged before the first write that stopped inside a request is delivered, in order |
| TornLog.TheTearDecides | carina-engine/include/carina/engine/wal/wal.hpp:71-170 | recovery delivers exactly the requests standing before that one, and so of the acknowledged ones exactly those written before it, if and only if the checks of recovery fail where its bytes begin |
| TornLog.TornByteFails | carina-engine/include/carina/engine/wal/wal.hpp:88-112 | the checks fail for sure when one byte was torn off, or the checksum and one byte of the size, in front of a record of any size with a key of 7 to 127 bytes |
| TornLog.TornHeaderFails | carina-engine/include/carina/engine/wal/wal.hpp:88-112 | and when one to three bytes of the checksum, or the checksum and one to three of the size, were torn off in front of a record below 32 KiB with at most 64 KiB left in the file |
| TornLog.TornHeaderHides | carina-engine/include/carina/engine/wal/wal.hpp:71-170 | at runs: in both cases, exactly the acknowledged requests before the tear survive |
| TornLog.TornBytesStand | carina-engine/include/carina/engine/wal/wal.hpp:151-157 | in every run the file holds, at the first tear, the first bytes of the request that broke off, at least one and not all |
| TornLog.TornPayloadDecides | carina-engine/include/carina/engine/wal/wal.hpp:88-117 | for a tear behind a record's header, recovery ends there, and so exactly the acknowledged requests before it survive, if and only if the file is too short for the payload, or what stands in its place has another checksum or does not parse; with at most the last four bytes missing, if and only if what follows is not just those bytes |
| TornLog.AcknowledgedRetryLost | carina-engine/include/carina/engine/wal/wal.hpp:134-170 | a concrete run: an append fails after one byte, its retry is synced and acknowledged, and recovery of the whole file delivers nothing |
| BloomFilter.BloomFilter.Add | carina-common/include/carina/common/bloom_filter.hpp:33-38 | the set bits are exactly the positions of all added keys |
| BloomFilter.BloomFilter.MightContain | carina-common/include/carina/common/bloom_filter.hpp:40-46 | answers whether every position of the key is set |
| BloomFilter.Murmur | carina-common/include/carina/common/bloom_filter.hpp:63-69 | the hash loop with signed bytes and 32-bit wrap-around, sign bit masked off |
| BloomFilter.HashIs | carina-common/include/carina/common/bloom_filter.hpp:63-69 | the hash is the polynomial of the signed bytes at 31 plus the seed times the next power, modulo 2 to the 31 |
| BloomFilter.PositionIs | carina-common/include/carina/common/bloom_filter.hpp:33-38 | the i-th position of a key is that hash from seed i, modulo the number of bits |
| BloomFilter.HashValues | carina-common/include/carina/common/bloom_filter.hpp:63-69 | 3105 for ab, 3135 for ba, and 2147483647 for the byte 255 |
| Formats.FilterBitIs | carina-common/include/carina/common/bloom_filter.hpp:59-60 | position p is bit p mod 8 of byte p / 8 |
| BloomFilter.NoFalseNegatives | carina-common/include/carina/common/bloom_filter.hpp:33-46 | an added key is never rejected |
| BloomFilter.AcceptsExactly | carina-common/include/carina/common/bloom_filter.hpp:33-46 | a key is accepted exactly when the added keys cover all its positions |
| BloomFilter.SerializedRoundTrip | carina-common/include/carina/common/bloom_filter.hpp:26-31 | the serialized form gives back size, hash count and bits |
| SSTableBuilder.BlockBuilder.Add | carina-engine/include/carina/engine/sstable/block_builder.hpp:14-30 | appends the record's bytes exactly when the block stays within 4096 bytes |
| SSTableBuilder.SSTableBuilder.Add | carina-engine/include/carina/engine/sstable/sstable_builder.hpp:24-34 | after any adds the fields are those of the greedy packing of the added records, and the filter and key range describe all of them |
| SSTableBuilder.SSTableBuilder.FlushDataBlock | carina-engine/include/carina/engine/sstable/sstable_builder.hpp:70-76 | closes the open block: its last key and offset join the index, its bytes the file |
| SSTableBuilder.SSTableBuilder.Finish | carina-engine/include/carina/engine/sstable/sstable_builder.hpp:36-62 | the finished file is, byte for byte, the table of the added records |
| SSTableBuilder.BlocksKeep | carina-engine/include/carina/engine/sstable/sstable_builder.hpp:24-34 | the blocks joined together are exactly the added records that fit a block, in order |
| SSTableBuilder.BlocksFit | carina-engine/include/carina/engine/sstable/block_builder.hpp:20 | every block is at most 4096 bytes |
| SSTableBuilder.BlocksGreedy | carina-engine/include/carina/engine/sstable/sstable_builder.hpp:24-34 | of two consecutive blocks the first has no room in 4096 bytes for the first record of the second, unless a larger record was added between them |
| SSTableBuilder.CutIsUnique | carina-engine/include/carina/engine/sstable/sstable_builder.hpp:24-34 | there is only one cut of some records into blocks of at most 4096 bytes of which none ends too early |
| SSTableBuilder.BlocksAreGreedy | carina-engine/include/carina/engine/sstable/sstable_builder.hpp:24-34 | and records of at most 4096 bytes each are cut in that way |
| SSTableBuilder.OneBlock | carina-engine/include/carina/engine/sstable/sstable_builder.hpp:24-34 | records of at most 4096 bytes in all form one block |
| SSTableBuilder.KeyRange | carina-engine/include/carina/engine/sstable/sstable_builder.hpp:26-27 | the key range begins with the first key added and ends with the last |
| TableFormat.BlockStands | carina-engine/include/carina/engine/sstable/sstable_builder.hpp:70-76 | the blocks tile the data section: each stands at its index offset and ends where the next, or the filter, begins |
| TableFormat.Sections | carina-engine/include/carina/engine/sstable/sstable_builder.hpp:36-62 | each section of the file stands where the footer offsets say |
| TableFormat.ReadFooter | carina-engine/include/carina/engine/sstable/footer.hpp:15-21 | the footer's five numbers read back |
| Formats.FooterIs | carina-engine/include/carina/engine/sstable/footer.hpp:15-23 | the footer is four offsets and the eight bytes CarinaDB |
| Formats.TableIs | carina-engine/include/carina/engine/sstable/sstable_builder.hpp:36-62 | the sections of a file in their order, with the offsets that the footer gives |
| Formats.IndexEntryIs | carina-engine/include/carina/engine/sstable/sstable_builder.hpp:45-50 | an index entry is a key length, the last key, the number 8 and the offset of its block |
| SSTableReader.Open | carina-engine/include/carina/engine/sstable/sstable_reader.hpp:24-46 | opening any file fails exactly on a wrong magic number or a negative key length, else reads footer and key range |
| SSTableReader.OpensOnlyOwn | carina-engine/include/carina/engine/sstable/sstable_reader.hpp:24-46 | a file is opened only if it has 40 bytes or more and ends with the eight bytes CarinaDB |
| SSTableReader.OpensTable | carina-engine/include/carina/engine/sstable/sstable_reader.hpp:24-46 | opening a finished table finds its four offsets and its key range |
| SSTableReader.FindBlock | carina-engine/include/carina/engine/sstable/sstable_reader.hpp:58-77 | the binary search over last keys, with its early stop on equality, settles on the block that the reference search gives, with that block's begin and the next block's |
| SparseIndex.LandingIs | carina-engine/include/carina/engine/sstable/sstable_reader.hpp:58-77 | that block's last key is not below the target, and every earlier last key is below it unless the search stopped on equality; with no block, every last key is below |
| SparseIndex.LandingBisects | carina-engine/include/carina/engine/sstable/sstable_reader.hpp:58-77 | the search over any last keys settles as bisection over the comparisons with the target does |
| Bisection.BisectHalves | carina-engine/include/carina/engine/sstable/sstable_reader.hpp:62-77 | bisection: the middle position, the earlier of two, decides; else the half on the target's side is searched in the same way |
| SSTableReader.ParseIndex | carina-engine/include/carina/engine/sstable/sstable_reader.hpp:154-161 | the index parser gives back the index that was written |
| SSTableReader.FindRecord | carina-engine/include/carina/engine/sstable/sstable_reader.hpp:81-94 | reading a block finds the first record with the target, and stops at an empty key |
| SSTableReader.SSTableReader.GetDataBlockLazy | carina-engine/include/carina/engine/sstable/sstable_reader.hpp:168-182 | the cached loader returns the block's bytes whatever the cache holds, and leaves the cache right |
| SSTableReader.SSTableReader.SearchBinaryFullRecord | carina-engine/include/carina/engine/sstable/sstable_reader.hpp:54-96 | the whole cached search equals the uncached answer of the table, for any right contents of the three shared caches, which stay right for all files |
| SparseIndex.StrictSearchIsLinear | carina-engine/include/carina/engine/sstable/sstable_reader.hpp:54-96 | with strictly increasing last keys the search equals a linear scan for the first record with the key |
| SparseIndex.SearchExact | carina-engine/include/carina/engine/sstable/sstable_reader.hpp:54-96 | on every table the search equals a linear scan for the first record with the key if and only if the block found lacks the key, or begins with a non-empty key and no earlier block ends with the target, unless with the same record |
| SparseIndex.DistinctReadsFirst | carina-engine/include/carina/engine/sstable/sstable_reader.hpp:65-84 | for distinct records: exactly when the search does not land late and the block found begins with a non-empty key or lacks the target |
| SparseIndex.BlockReadExact | carina-engine/include/carina/engine/sstable/sstable_reader.hpp:84 | reading a sorted block is right if and only if it does not begin with an empty key or does not contain the target |
| SSTableReader.BuiltTableExact | carina-engine/include/carina/engine/sstable/sstable_reader.hpp:54-96 | build from any records in key order (empty keys and oversized records included), open and search: a key gets the first record added with it, or none, if and only if that record fits a block and the index search reads it first; a key not added is never found |
| SSTableReader.BuiltTableSearch | carina-engine/include/carina/engine/sstable/sstable_reader.hpp:54-96 | and then the reader's answer is that record; the filter never hides one |
| SSTableReader.SmallTableReads | carina-engine/include/carina/engine/sstable/sstable_builder.hpp:24-34 | records of at most 4096 bytes in all with non-empty keys: every key is read right, whatever the number of its versions |
| SSTableReader.EmptyKeyHides | carina-engine/include/carina/engine/sstable/sstable_reader.hpp:84 | an empty key in front of a block hides the next key of that block |
| SSTableReader.OversizedResurfaces | carina-engine/include/carina/engine/sstable/block_builder.hpp:14-30 | the newest version of a key is too large for a block and dropped, and the search returns the older one |
| SSTableReader.StrictKeysNeverLate | carina-engine/include/carina/engine/compaction/compactor.hpp:26-51 | records with strictly increasing keys, as compaction writes them, never land late |
| SSTableReader.LandsInTheMiddle | carina-engine/include/carina/engine/sstable/sstable_reader.hpp:65-68 | any three versions of one key that need a block each: the search returns the second newest |
| SSTableReader.LateLandingHappens | carina-engine/include/carina/engine/sstable/sstable_reader.hpp:65-68 | three such records: the builder accepts them and the search returns the second newest |
| SSTableScanner.SSTableScanner.Next | carina-engine/include/carina/engine/sstable/sstable_scanner.hpp:44-73 | delivers the next record of the data section, or none at its end |
| SSTableScanner.ScanBuilt | carina-engine/include/carina/engine/sstable/sstable_scanner.hpp:42-73 | scanning a built table delivers exactly the added block-sized records in order |
| BlockCache.BlockCache.Put | carina-engine/include/carina/engine/cache/block_cache.hpp:15-29 | the contents afterwards: the key in front with its new value, the least recently used entry dropped if the capacity is exceeded; list and index agree |
| BlockCache.BlockCache.Get | carina-engine/include/carina/engine/cache/block_cache.hpp:31-37 | returns the value held and moves the key to the front, or changes nothing |
| BlockCache.HitExactly | carina-engine/include/carina/engine/cache/block_cache.hpp:15-37 | after any operations a get hits exactly when the key was touched and fewer than capacity distinct other keys were touched since, and returns the latest value put; the size never exceeds the capacity |
| Compactor.CompactionGreater | carina-engine/include/carina/engine/compaction/compaction_comparator.hpp:13-17 | the comparator: larger key, or equal key and older file, means lower priority |
| Compactor.Top | carina-engine/include/carina/engine/compaction/compactor.hpp:35-36 | the entry taken out has no entry of higher priority beside it |
| Compactor.TopWins | carina-engine/include/carina/engine/compaction/compactor.hpp:34-42 | a pop with a new key brings out the first version of the key from the newest file that holds it |
| Compactor.ExecuteCompaction | carina-engine/include/carina/engine/compaction/compactor.hpp:19-53 | the merge terminates with every input record consumed and writes a table of strictly ascending keys holding, for each key, exactly the first version from the newest file, none where that is a tombstone at the bottom level |
| CompactionView.MergedLookup | carina-engine/include/carina/engine/compaction/compactor.hpp:38-49 | the merged table answers a key as the newest-first stack of its inputs does, except for dropped tombstones |
| CompactionView.KeepingInputsChangesNothing | carina-engine/include/carina/engine/carina_engine.hpp:343-352 | putting the merged table in front while keeping the input readers changes no answer |
| CompactionView.ReplacingInputsExact | carina-engine/include/carina/engine/carina_engine.hpp:346-352 | replacing the inputs changes a key's answer exactly when its newest input version is a dropped tombstone and the older layers still answer it with a live record |
| MemTable.MemTable.Put | carina-engine/include/carina/engine/memtable/memtable.hpp:35-48 | over the byte arena and the skip list, a put gives the reference state: logged, then inserted before the first version that is not smaller; refused when frozen, when the log append throws, or after logging when the arena is full; frozen at 90 percent |
| MemTable.PutRules | carina-engine/include/carina/engine/memtable/memtable.hpp:35-78 | a put in numbers: what is logged, the space a node takes rounded up to four, the limit of 67108864 bytes, freezing from 60397977 bytes on, and the 72 bytes of an empty table |
| MemTable.MemTable.GetRecord | carina-engine/include/carina/engine/memtable/memtable.hpp:23-25 | returns the first version of the key in the table's list |
| MemTable.MemTable.ForEach | carina-engine/include/carina/engine/memtable/memtable.hpp:28-33 | a frozen table delivers every version in order; an active one throws |
| MemTable.MemTable.Freeze | carina-engine/include/carina/engine/memtable/memtable.hpp:68 | freezing sets the flag and changes nothing else |
| MemTable.AfterPutOrdered | carina-engine/include/carina/engine/memtable/memtable.hpp:35-48 | every put keeps the list in key order |
| Layers.InsertAllIs | carina-engine/include/carina/engine/memtable/offheap_skiplist.hpp:110-131 | the list made by any puts is sorted and its first version of a key is the latest put |
| Engine.CarinaEngine.Query | carina-engine/include/carina/engine/carina_engine.hpp:122-146 | active table, frozen tables newest first, then SSTables in order with key-range skipping: the answer is what those layers hold, which is the lookup in the simple map updated by the same puts and removes while the engine is faithful to it |
| Engine.CarinaEngine.Write | carina-engine/include/carina/engine/carina_engine.hpp:98-119 | try, retry, switch and try again: the map gains the write exactly when one of the attempts has room for it; then the key reads as the write, every other key as before; the record is the last one in the log of the active table, and a table that refused it twice is frozen with both copies in its log |
| Engine.CarinaEngine.Put | carina-engine/include/carina/engine/carina_engine.hpp:79-107 | a put that fits an empty table updates the map at its key only |
| Engine.CarinaEngine.Remove | carina-engine/include/carina/engine/carina_engine.hpp:110-120 | a remove takes the key out of the map |
| Engine.CarinaEngine.SwitchMemTable | carina-engine/include/carina/engine/carina_engine.hpp:224-233 | freezing and starting a fresh table changes no answer |
| ReaderStack.ReaderExact | carina-engine/include/carina/engine/carina_engine.hpp:136-138 | a reader, with its key-range check, answers a key with its newest version if and only if that one fits a block and is read first |
| ReaderStack.ReaderReads | carina-engine/include/carina/engine/carina_engine.hpp:136-138 | whatever the table, a reader answers with the first version in the block that the index search finds, or none if an empty key begins that block: filter and key range change nothing |
| ReaderStack.FlushExact | carina-engine/include/carina/engine/carina_engine.hpp:244-267 | flushing any frozen memtable changes a key's answer exactly when its newest version there is not read right, no newer memtable answers, and the version that resurfaces (what the index search reads of the flushed records, else of the older tables) is not as good |
| Engine.CarinaEngine.FlushMemTableToDisk | carina-engine/include/carina/engine/carina_engine.hpp:244-275 | flushes the oldest frozen table, whatever it holds, to the front of the readers: each key's answer stays exactly when the flush keeps it, and a faithful engine stays faithful if the table is read right; on-disk level-0 files stay the first readers in descending id order |
| ReaderStack.FlushBringsBack | carina-engine/include/carina/engine/carina_engine.hpp:244-275 | flushing a memtable whose newest version of a key is too large for a block brings the older version back |
| ReaderStack.FlushHides | carina-engine/include/carina/engine/carina_engine.hpp:244-275 | flushing a memtable with an empty key hides the live key beside it |
| ReaderStack.ReadsInputIs | carina-engine/include/carina/engine/carina_engine.hpp:133-139 | the readers answer with the newest version that the inputs' blocks hold if and only if the index search of the input that holds it reads it first, or finds nothing there while the tables behind have an equal record |
| ReaderStack.MergedRead | carina-engine/include/carina/engine/carina_engine.hpp:343-352 | the merged table's reader answers with that version, or nothing if it is a tombstone or an empty key begins the first merged block and hides it |
| ReaderStack.CompactExact | carina-engine/include/carina/engine/carina_engine.hpp:343-352 | a compaction changes a key's answer if and only if no memtable has the key, the inputs' blocks hold a live newest version of it, no empty key hides it in the merged table, and the index searches of the inputs did not read it; and then the new answer is that version |
| ReaderStack.SearchableCompaction | carina-engine/include/carina/engine/carina_engine.hpp:327-353 | with inputs that are read right, no key's answer changes |
| ReaderStack.CompactionBringsForward | carina-engine/include/carina/engine/carina_engine.hpp:327-353 | three versions of a key in three blocks of the newest level-0 file: a query answers the second newest before the compaction and the newest after it |
| Engine.CarinaEngine.BackgroundCompaction | carina-engine/include/carina/engine/carina_engine.hpp:327-353 | scans and merges all level-0 files, listed in any order, into a new front reader: each key's answer stays if and only if the compaction keeps it by the condition on the inputs, and otherwise becomes the newest version of their blocks; all stay if the inputs are read right; the files leave the directory while their readers stay; below four files nothing happens |
| ReaderStack.SkippedHasNone | carina-engine/include/carina/engine/carina_engine.hpp:136 | a reader skipped because the key is outside its range does not hold the key |
| EngineObjects.Query | carina-engine/include/carina/engine/carina_engine.hpp:122-146 | the query over the memtable and reader objects themselves, with their arenas, files and any right contents of the shared caches, answers what the contents of those layers say |
| CrashRecovery.AttemptIsPut | carina-engine/include/carina/engine/memtable/memtable.hpp:35-48 | a log append and an insertion on a segment are the memtable's put, refused in the same cases |
| CrashRecovery.UsageRules | carina-engine/include/carina/engine/memtable/memtable.hpp:58-61 | replaying takes 72 bytes and for each record its node rounded up to a multiple of four |
| CrashRecovery.RestartRules | carina-engine/include/carina/engine/carina_engine.hpp:312-324 | a complete recovery leaves one table with all logged records, logged again, frozen from 60397977 bytes on |
| CrashRecovery.DeliveredIs | carina-engine/include/carina/engine/wal/wal.hpp:92-95 | recovery delivers a log up to its first record of more than 104857600 bytes, and no further |
| CrashRecovery.StepKeepsInv | carina-engine/include/carina/engine/carina_engine.hpp:98-119 | one sub-step of put, retry, switch or flush, a call that returns although no table took its record, a crash, or a recovery, complete or harmlessly incomplete, keeps the durability invariant |
| CrashRecovery.AcknowledgedWritesSurvive | carina-engine/include/carina/engine/carina_engine.hpp:224-325 | in every run with any number of crashes, refused puts, failed and interrupted recoveries, if the incomplete ones were harmless: what is on disk recovers each key to its newest stored write, where the write in flight and the refused writes whose logs are still there may also have taken effect; while up, queries answer with the newest stored write |
| CrashRecovery.CrashIsInvisible | carina-engine/include/carina/engine/carina_engine.hpp:294-325 | a recovery opens the engine if and only if it is not interrupted and one empty arena holds all logged records; then every key reads as the surviving writes say, and between calls as before the crash unless a put of that key was refused |
| CrashRecovery.IncompleteRecoveryExact | carina-engine/include/carina/engine/carina_engine.hpp:312-324 | a recovery that fails or is interrupted changes what a key will read if and only if the newest replayed version of the key is followed in the logs by a different newest one |
| CrashRecovery.InterruptionLoses | carina-engine/include/carina/engine/carina_engine.hpp:312-324 | a concrete run: two returned writes of one key, a recovery interrupted after the first record, and the next complete recovery answers with the older write |
| CrashRecovery.NeverOpens | carina-engine/include/carina/engine/carina_engine.hpp:294-325 | if the logs hold more than an arena can, no later recovery ever opens the engine: incomplete ones never make the logs smaller |
| CrashRecovery.RefusedPutBlocks | carina-engine/include/carina/engine/carina_engine.hpp:98-106 | a put that no arena has room for returns after three refusals without having stored its record, which stays in the logs: after a crash the engine never opens again |
| CrashRecovery.ReturnedWritesBlock | carina-engine/include/carina/engine/carina_engine.hpp:98-106 | two returned writes of 40 MiB, the second one after retries and a switch, then a crash: the engine never opens again |

## Left out

- TCP server, JNA and C interfaces, Java client and server, validation client, benchmarks: plumbing around the core.
- File descriptors, directory listing, file-name parsing and id generation from names: files are byte sequences and names are numbers in order. The `ftruncate` in `recover` acts on a read-only descriptor and is not relied on.
- The C++ memory model and torn or unordered pointer reads: every shared access is one atomic step.
- Floating point: HNSW distances are exact integers, levels and filter sizes are parameters; rounding, NaN and the logarithms that choose them are not modelled.
- HNSW connectivity and recall: pruning can remove edges into a node, so that every node stays reachable is not an invariant.
- Blob files and vector bytes: only the sync of blob bytes before an acknowledgement is modelled; a query's vector lookup is not.
- Races between put and freeze, overlapping flush threads, a flush beside a compaction, and reopening a directory that already holds level-1 files: the code gives no clean guarantee there.
- TornLog.TheTearDecides: its condition is the outcome of recovery's own checks at the tear, spelled out for tears behind the header by `TornLog.TornPayloadDecides`; for a tear inside the header a condition on sizes alone is given only where no chance match of the 32-bit checksum is possible (`TornLog.TornByteFails`, `TornLog.TornHeaderFails`).
- `close` of the engine and of the log, the wall-clock waits in `append`, and the background compaction timer.
- 32-bit overflow of the arena's bump pointer after very many refused allocations.
- Engine.CarinaEngine.Write: the engine class holds each memtable as its state (`MemTable.State`) and each table as its records; `EngineObjects.Query` reads the objects themselves, but puts, flushes and compactions are composed on the states, and sharing of memtable objects between threads is not captured.
- MemTable.MemTable.Put: what a failed log append leaves in the log file is in the group commit model, not here; in `Engine` log appends succeed.
- OffHeapSkipList.OffHeapSkipList.Put: with one caller no compare-and-swap can fail, so the retry loops are not entered here; they are in the step machine.
- Arena.Arena.PutBytes: words are stored in big-endian form where the program uses the machine's order, which nothing observes.
- Engine.CarinaEngine.BackgroundCompaction: the level-0 files are well formed and still there; a scanner that fails ends the program's compaction with a message.
- SSTableReader.SSTableReader.SearchBinaryFullRecord: searches files the builder wrote; on damaged files, where the program may throw or read out of bounds, only opening is modelled.
- SSTableScanner.SSTableScanner.Next: the same, scans finished tables only.
- CrashRecovery.AcknowledgedWritesSurvive: one writer at a time; log appends and fsyncs succeed, so a log recovers to what was appended (that is `WalRecovery.RecoverAnyCut`).
- CrashRecovery.CrashIsInvisible: SSTables answer with the newest version of every key (`ReaderStack.Searchable`; `ReaderStack.FlushExact` covers the others), no compaction runs, and payloads are below 2 GiB.
- HnswIndex.HnswIndex.Insert: requires a fresh id and the common dimension, which the program takes for granted.

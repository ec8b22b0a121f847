# logvine: the storage engine, modelled and proved in Dafny

logvine keeps key-value pairs in an LSM engine: writes go to a write-ahead log and an
in-memory table; full tables are frozen, queued and flushed to sorted files on level 0;
level 0 is compacted into level 1; a manifest lists the files; a restart loads the manifest
and replays the log. This project models that engine and proves that all of it shows one
simple thing: the map obtained by applying the history of writes in order.

Objects the program updates in place are classes here (`MemTable`, `WAL`, `SSTable`,
`Manifest`, `SSTableManager`, `CompactionManager`, `Engine`), each method proved against a
function on values; the laws are lemmas about those functions. Interleavings and crashes are
transition systems that use the same functions.

| files | what they hold |
|---|---|
| `ByteStrings`, `Tables` | byte order, big-endian integers, tables, overlays, operations |
| `WalCodec`, `WriteAheadLog` | log record format, replay of any byte string, the log file and its handle |
| `MemTables` | active table, frozen queue, byte accounting |
| `SSTableFormat`, `SSTables` | table file format and reading; the files |
| `Manifests`, `SSTableManagers` | level lists, read order, bounds pruning |
| `Merging`, `Compactions`, `CompactionRuns` | k-way merge, compaction, its threads against flushes |
| `EngineSteps`, `Engines` | engine operations as functions, and the engine class |
| `EngineRuns`, `Refinement`, `Recovery` | runs of clients, flush threads, compactions and crashes |
| `OnBytes`, `EngineCalls` | the runs' record log is the log file's bytes; whole lives of a store on bytes |
| `Limits` | runs in which a guarantee ends |
| `ReadWriteLock` | the memtable's lock, for any number of threads |

Conventions. The checksum is a parameter, so everything holds for every checksum function.
Clock readings and the paths made from them are parameters. A value equal to
`__TOMBSTONE__` is a deletion, as in the program. Client writes are serialised
(src/controller.py:72-73), so log order is memory order.

## Where the guarantees end

The proofs follow the code, and the code stops short of its documentation in these places.

- **Durability after the first truncation.** `os.replace` puts a new file at the log's path
  while the append handle stays on the old one (src/storage/wal.py:74, 176). The first flush of
  an opening that shortens the log therefore makes every later append unreachable by a restart.
  `Limits.AcknowledgedPutLost` gives such a run for every key and value;
  `Recovery.OrphanedWritesIff` and, for any number of truncations, `Recovery.RecoveryIff` say
  exactly when a restart still shows everything, and `Recovery.CrashRecovery` covers every run
  that keeps clear of it.
- **A second truncation in one opening** uses offsets from before the first.
  `Recovery.CutLosesNothingIff` says exactly when it loses nothing if it falls on a record
  boundary or empties the file. Inside a record, `OnBytes.CutInside` says what a restart reads;
  one to three bytes left keep the store from ever opening, as in the run of
  `Limits.StopsOpening`, although every buffer is on disk.
- **Torn appends.** One to three bytes of a length field keep the store from opening
  (`OnBytes.TornAppend`); a longer torn tail is not trimmed and hides what is appended behind
  it, exactly under the condition of `OnBytes.AppendBehindTornTailIsLost`.
- **A frozen buffer that is empty, or too large for a table file,** blocks the queue for good:
  `EngineSteps.FlushAllTerminatesIff`. A batch makes an empty one exactly under the condition
  of `EngineSteps.BatchFreezesEmpty`.
- **A batch can overfill the active table** when its estimate credits values that are not in
  the table it writes to: values already frozen (`EngineSteps.BatchCanOverfill`), or values of
  the active table that the batch itself rotates away (`EngineSteps.BatchCanOverfillRotated`).
  `EngineSteps.BatchFullIff` is the exact condition.
- **A manifest saved while compaction removes its inputs** can show an older captured value:
  `CompactionRuns.IntermediateManifests` has the exact condition.
- **Two flushes in one millisecond** share a path: `Limits.SamePathFlush` has the exact
  condition, `Limits.SamePathFlushLoses` a loss.

## Model

| member | source | states |
|---|---|---|
| Recovery.CrashRecovery | src/storage/engine.py:103-132 | after any run of writes, rotations, flushes, compactions and crashes, in any interleaving and over any number of openings, that never appends through an orphaned handle nor cuts an already cut log, reopening shows exactly the operations ever logged: the abstract key-value store of the history |
| Recovery.SafeIff | src/storage/wal.py:58-184 | a step leaves that class only by appending through an orphaned handle or by a second effective truncation |
| Recovery.RecoveryIff | src/storage/engine.py:103-132 | after any run whose earlier crashes lost nothing and that leaves whole records in the log, however many appends were orphaned and however often the log was cut, reopening shows the history if and only if the orphaned operations are shown without themselves and the operations cut off, and not written again, are on disk |
| Recovery.OrphanedWritesIff | src/storage/wal.py:58-86 | up to the second effective truncation of an opening the log is whole records, and reopening shows the history if and only if disk and log file together already show every write made through the orphaned handle |
| Recovery.RestartIff | src/storage/engine.py:121-132 | the same exact condition in any state of any run, against what the last opening showed and everything logged since |
| Recovery.WriteSurvivesCrashIff | src/storage/wal.py:58-86 | in any state of a run that has lost nothing so far, the next logged write survives an immediate crash if and only if the handle is on the log's file or the write changes nothing shown |
| Recovery.FirstCut | src/storage/wal.py:157-176 | the first effective truncation of an opening keeps everything unflushed, with or without the last flushed record, and orphans the handle if and only if it is open and bytes are left |
| Recovery.CutLosesNothingIff | src/storage/wal.py:157-176 | for any truncation, first or later, at a record boundary or past the end, of a state that has lost nothing: reopening shows the disk overlaid by the records left, and that is everything if and only if each operation cut off and not written again is on disk |
| Recovery.LogCompletesDisk | src/storage/engine.py:301-316 | flushed tables overlaid by every operation of the opening, flushed ones included, are what is expected: re-applying flushed records changes nothing |
| Recovery.StepDurable | src/storage/engine.py:134-322 | every step of every run, crashes included, keeps the operations of the opening equal, in order, both to flushed, frozen, active and pending segments and to what was cut off, is in the file and was orphaned; every buffer the last-write-wins table of its segment; before the first cut every buffer's offset a mark in its segment, and before the second the file whole records |
| Recovery.RunsAreDurable | src/storage/engine.py:134-322 | the same over every run from such a state |
| Refinement.RunsAreFaithful | src/storage/engine.py:134-322 | in every run, crashes and truncations anywhere included, contents shown plus pending writes equal what the last opening showed with everything logged since; buffers frozen are dropped or queued in order, what is published is what is dropped, level 0 keeps freeze order |
| Refinement.StepSound | src/storage/engine.py:283-322 | each step keeps that, for any number of flush threads serialised by the flush lock while rotations append to the queue: the buffer popped is the one written and published |
| Refinement.AnyMixRuns | src/storage/engine.py:134-322 | writers never wait for a flush or a compaction, nor these for writers: every mix of log and memory halves of writes, rotations, compactions and the steps of one flush can be run |
| Refinement.RunsReadTheStore | src/storage/engine.py:170-189 | from an empty store and before any crash, a read returns what the abstract store of the completed writes holds |
| Recovery.ReadsAreLinearizable | src/storage/engine.py:182-189 | from any state of any run, a read that probes memory there and the published tables any number of steps later, with no crash between, returns what the key held at some state in between, against any writes, rotations, flushes and completed compactions |
| Refinement.GetIsLinearizable | src/storage/engine.py:182-189 | the same from any sound state |
| Refinement.DiskShowsThePast | src/storage/engine.py:306-313 | whatever a table on disk holds for a key at the end of a run was shown at some state of it |
| Refinement.ClearSound | src/storage/engine.py:308-313 | dropping the buffer after publication leaves contents unchanged because the published table already shows it |
| Refinement.CompactSound | src/storage/compaction.py:110-142 | a completed compaction leaves the level view unchanged |
| Limits.AcknowledgedPutLost | src/storage/wal.py:68-76 | for every key and value there is a crash-free run in which the put is acknowledged and shown, and a restart shows the value put before it |
| Limits.StopsOpening | src/storage/wal.py:108-113 | three puts that each fill the table, the third record one to three bytes longer than the first, and three flushes leave everything on disk and a store that never opens again, for every checksum |
| Limits.SamePathFlush | src/storage/engine.py:304-309 | two flushes sharing a path lose nothing if and only if every key of the first table is in the second or shown below with the same value |
| Limits.SamePathFlushLoses | src/storage/engine.py:304-309 | for any two distinct keys, flushed one after the other to one path, the first is gone |
| EngineCalls.BytesRecover | src/storage/engine.py:103-332 | for any list of puts, deletes, batches, flushes, compactions and reopenings from an empty directory, on bytes: if the reopenings so far lost nothing and the log is whole records, a further one opens and shows exactly the operations accepted if and only if nothing orphaned or cut off is missing; always if the run is safe |
| EngineCalls.CallsOnBytes | src/storage/engine.py:103-332 | any such list is a run of the machine: its bytes are the machine's state and its accepted operations the machine's history |
| OnBytes.OpenOnBytes | src/storage/engine.py:121-132 | opening the bytes of any machine state is the machine's reopening with the operations and last offset the replay finds; over whole records it always opens |
| OnBytes.ReplayRebuilds | src/storage/engine.py:125-131 | replayed entries give the last-write-wins table, its exact size and the last record's offset |
| OnBytes.PutOnBytes | src/storage/engine.py:134-168 | the engine's put on bytes is the machine's log step then apply step |
| OnBytes.DeleteOnBytes | src/storage/engine.py:191-200 | the same for delete |
| OnBytes.BatchOnBytes | src/storage/engine.py:234-280 | the same for an accepted batch, empty ones included |
| OnBytes.RejectOnBytes | src/storage/wal.py:68-86 | a write whose record does not fit only opens the handle |
| OnBytes.FlushOnBytes | src/storage/engine.py:283-322 | the engine's flush on bytes is one flush thread's run through the machine, wherever its truncation falls |
| OnBytes.CutBytes | src/storage/wal.py:167-172 | cutting the bytes where a record starts is dropping the records before it |
| OnBytes.CutInside | src/storage/wal.py:167-176 | for any cut inside any log bytes, the store opens unless replaying the rest raises, as it always does with one to three bytes left, and then shows the disk overlaid by the operations that replay finds |
| OnBytes.KindBytes | src/storage/wal.py:19-21 | the fifth byte of a record is 1 for a put and 2 for a delete |
| OnBytes.OtherKindsStoreNothing | src/storage/engine.py:125-131 | an entry of any other kind only moves the offset |
| OnBytes.TornAppend | src/storage/wal.py:107-117 | after a crash inside an append the store reopens with everything before it, unless exactly 1 to 3 bytes of the length were written, when the replay raises |
| OnBytes.AppendBehindTornTailIsLost | src/storage/wal.py:113-125 | whatever is appended behind a record torn after its length is lost, the store opening with what was before it, if and only if it does not complete the record or the checksum read across the joint is wrong |
| WalCodec.ReplayRoundTrip | src/storage/wal.py:89-141 | replaying concatenated records returns them in order with their true start offsets |
| WalCodec.ReplayPrefix | src/storage/wal.py:107-117 | replaying any byte prefix yields exactly the whole records in it, ending normally, at a torn tail, or with an exception when 1 to 3 bytes of a length remain |
| WalCodec.CorruptRecordStops | src/storage/wal.py:119-125 | a wrong stored checksum ends the replay at that record with those before it, whatever follows |
| WalCodec.TornRecordSwallowsIff | src/storage/wal.py:107-136 | a torn record with any bytes behind it stops the replay, torn or corrupt, after exactly the records before it under that condition and no other; otherwise the bytes across the joint are replayed as a record, or splitting them raises |
| WalCodec.TruncationCommutesWithReplay | src/storage/wal.py:144-184 | cutting at a record's offset leaves the exact suffix of the replay, offsets moved down by the cut |
| WalCodec.PayloadRoundTrip | src/storage/wal.py:127-136 | splitting a built payload gives back operation, key and value |
| WalCodec.RecordLayout | src/storage/wal.py:186-217 | every field of a record at its place: length, kind, key length, key, value length, value, checksum |
| WalCodec.ShortLengthRaises | src/storage/wal.py:111-120 | a record length below four raises after the records before it |
| WalCodec.ChecksummedPayload | src/storage/wal.py:127-136 | a payload with the right checksum raises exactly when it ends before both length fields; a value cut short is taken as it is |
| WriteAheadLog.WAL.constructor | src/storage/wal.py:26-34 | a log object over an existing file whose handle is not open yet |
| WriteAheadLog.WAL.Open | src/storage/wal.py:36-49 | opening attaches the handle at the end of the file, once |
| WriteAheadLog.WAL.ConstructRecord | src/storage/wal.py:186-217 | builds the record's bytes exactly when every length fits its field, else raises |
| WriteAheadLog.WAL.Append | src/storage/wal.py:58-86 | one record written at the end of the handle's file, offset where it starts; nothing written when it does not fit |
| WriteAheadLog.WAL.AppendBatch | src/storage/wal.py:220-265 | all records in one write, offset of the last one's start; length mismatch and oversize change no file |
| WriteAheadLog.WAL.Replay | src/storage/wal.py:89-141 | the loop over a moving position computes the replay function |
| WriteAheadLog.WAL.TruncateUpto | src/storage/wal.py:144-184 | no-op, emptied in place, or replaced by the rest with an open handle left on the old inode |
| MemTables.MemTable.PutUnlocked | src/storage/memtable.py:91-102 | binds the key, shows it on top, keeps the size counter equal to the bytes of all active values |
| MemTables.MemTable.Delete | src/storage/memtable.py:125-132 | a delete stores the tombstone and the key reads as absent |
| MemTables.MemTable.Get | src/storage/memtable.py:104-123 | active table, then frozen buffers newest first, is a lookup in their overlay |
| MemTables.MemTable.GetRange | src/storage/memtable.py:204-236 | exactly the overlay's entries in the half-open range |
| MemTables.MemTable.SetMaxWalOffset | src/storage/memtable.py:65-73 | the offset never decreases |
| MemTables.MemTable.RotateUnlocked | src/storage/memtable.py:175-186 | the active table and its offset go to the end of the queue; what is shown does not change |
| MemTables.MemTable.ClearFrozen | src/storage/memtable.py:188-202 | drops the oldest buffer, if any |
| MemTables.ClearView | src/storage/memtable.py:188-202 | what was shown is the popped buffer under everything behind it |
| MemTables.ValueBytesPut | src/storage/memtable.py:98-102 | how one put moves the total of value bytes |
| SSTableFormat.FileRoundTrip | src/storage/sstable.py:31-140 | for any sorted list within the field limits, the written bytes denote exactly its table, and its sorted listing is the list |
| SSTableFormat.IndexRoundTrip | src/storage/sstable.py:85-114 | loading footer and index from the bytes rebuilds the written index |
| SSTableFormat.ReadWritten | src/storage/sstable.py:117-140 | reading at an indexed offset returns that item's value |
| SSTableFormat.FileLayout | src/storage/sstable.py:48-69 | every field of a table file at its place: entries, index entries with their offsets, footer |
| SSTableFormat.MalformedHasNoIndex | src/storage/sstable.py:91-114 | a file shorter than its footer, or with one to three stray bytes behind its index, loads with no index at all |
| SSTables.SSTable.Write | src/storage/sstable.py:31-82 | succeeds exactly when every length and offset fits, leaving file and index; otherwise the file is removed |
| SSTables.SSTable.LoadIndex | src/storage/sstable.py:85-114 | the parsed index, empty for a missing or malformed file |
| SSTables.SSTable.Get | src/storage/sstable.py:117-140 | lazy index load, then the value at the indexed offset, nothing for a key not in the index, an exception for a missing file or a short read |
| SSTables.SSTable.RangeScan | src/storage/sstable.py:143-167 | the sorted items of the table inside the range |
| SSTables.SSTable.IterItems | src/storage/sstable.py:169-177 | all items of the table in key order |
| SSTables.TableAtIndex | src/storage/sstable.py:117-140 | point lookups return exactly the table's values, absent otherwise |
| Manifests.Manifest.Load | src/storage/manifest.py:29-45 | the saved levels and version, or empty |
| Manifests.Manifest.Save | src/storage/manifest.py:47-62 | the file holds the current state |
| Manifests.Manifest.AddSstable | src/storage/manifest.py:64-75 | appends to one level, next version, saved |
| Manifests.Manifest.RemoveSstable | src/storage/manifest.py:77-91 | drops exactly the entries with that path, next version, saved |
| SSTableManagers.NewestFirst | src/storage/sstable_manager.py:29-39 | the read order of a level is a permutation of its entries |
| SSTableManagers.NewestFirstDescends | src/storage/sstable_manager.py:30-38 | it descends in creation time, then path, both spelled out |
| SSTableManagers.LevelIsStack | src/storage/sstable_manager.py:20-39 | with an advancing clock, reading newest first sees the tables stacked in the order they were added |
| SSTableManagers.LevelsAreStacks | src/storage/sstable_manager.py:20-39 | and level 0 above level 1 |
| SSTableManagers.SSTableManager.Get | src/storage/sstable_manager.py:63-83 | the pruned early-return search answers as an unpruned newest-first search of all levels |
| SSTableManagers.SSTableManager.GetOverlapping | src/storage/sstable_manager.py:85-102 | fresh tables, in read order, for exactly the entries whose least key is below the end and whose greatest is not below the start |
| SSTableManagers.OverlappingIff | src/storage/sstable_manager.py:88-96 | the entries kept are exactly those |
| SSTableManagers.RangePruningSound | src/storage/sstable_manager.py:88-96 | leaving out non-overlapping tables changes nothing inside the range |
| SSTableManagers.SSTableManager.BuildMetadata | src/storage/sstable_manager.py:45-61 | bounds that are keys of the table and enclose all of them, counts, or an error for an empty index |
| Merging.Merge | src/storage/compaction.py:52-106 | for any number of sorted lists, newest first, the heap loop ends and emits the strictly increasing listing of the union, each value from the lowest-indexed list holding its key |
| Merging.HeapPop | src/storage/compaction.py:94-95 | pops a least entry by key, then table index |
| Merging.MergeStep | src/storage/compaction.py:94-106 | one turn keeps the output sorted and right and the heap at one entry per unfinished list, and consumes one item |
| Merging.NewestWinsKeys | src/storage/compaction.py:52-106 | the merged key set is the union |
| Merging.NewestWinsValue | src/storage/compaction.py:97-104 | the merged value is that of the lowest-indexed list holding the key |
| Compactions.CompactionManager.MayStart | src/storage/compaction.py:37-50 | starts, and takes the flag, exactly when none is under way and level 0 has more than two tables |
| Compactions.CompactionManager.MergeSstables | src/storage/compaction.py:52-106 | the sorted contents of the overlay of the listed files |
| Compactions.CompactionManager.Compact | src/storage/compaction.py:110-151 | succeeds exactly when level 0 lists a table and its overlay is not empty and fits a file; then level 0 is empty, its overlay on top of level 1 under an entry that describes it, the merged files unlinked, the new one written, every other file as it was, the manifest file saved; on failure the levels and all files but one at the new path are unchanged; the flag is cleared |
| Compactions.CompactionManager.WriteTable | src/storage/compaction.py:128-135 | a table is written, and described by its bounds, count and size, exactly when it is not empty and fits; otherwise no other file changes |
| Compactions.CompactionManager.RetireInputs | src/storage/compaction.py:138-139 | removing the captured paths one by one empties level 0 and leaves level 1 |
| Compactions.CompactionManager.RemoveOldFiles | src/storage/compaction.py:154-164 | exactly the captured files are unlinked |
| Compactions.CompactionPreservesView | src/storage/compaction.py:110-142 | replacing captured tables by their overlay below later flushes changes no reading |
| Compactions.DroppingTombstonesResurfaces | src/storage/compaction.py:94-106 | an output without tombstones reads the same if and only if no key deleted in the captured tables and not flushed since is live in an older level-1 table |
| CompactionRuns.AtMostOneCompaction | src/storage/compaction.py:37-50 | in any run at most one compaction is under way, the flag says so, and outside the removal phase the levels show the published tables stacked in order |
| CompactionRuns.CompactionCompletes | src/storage/compaction.py:37-142 | asked for with more than two tables, and only then, a compaction starts and runs to its end: level 0 is exactly what was flushed since the capture, the captured overlay is on top of level 1, the flag is down |
| CompactionRuns.IntermediateManifests | src/storage/compaction.py:134-142 | at every saved manifest a key reads as it should if and only if it was flushed again, or no input still listed holds it, or they agree with the merged value; a captured key reads one of its captured values |
| EngineSteps.WritesTakeEffect | src/storage/engine.py:134-200 | each accepted put or delete has exactly its effect on the contents, a rejected one none; rejected are exactly records of 2^32 bytes and more |
| EngineSteps.WritesAreReadBack | src/storage/engine.py:186-188 | after a put a read returns the value, the empty one included, unless it is the thirteen bytes of the tombstone; after a delete nothing; other keys as before |
| EngineSteps.BatchIsAtomic | src/storage/engine.py:234-280 | a batch takes effect as a whole or not at all |
| EngineSteps.BatchAcceptedIff | src/storage/engine.py:244-262 | with lists of one length, a batch is stored exactly when its estimate is at most the limit and every record fits; above the limit nothing changes |
| EngineSteps.NewKeysAcceptedIff | src/storage/engine.py:246-259 | for keys not in memory that is: key and value bytes and 64 for each entry are at most the limit |
| EngineSteps.OverwriteAcceptedIff | src/storage/engine.py:250-256 | for one key in memory: its current value is set off, or, if empty, the key is charged again |
| EngineSteps.FlushPreservesContents | src/storage/engine.py:283-322 | a flush changes nothing a client reads |
| EngineSteps.PutBounds | src/storage/engine.py:148-160 | a put freezes the active table, with the entry in it, if and only if the value bytes then reach the limit; the active size after it is exact and below the limit |
| EngineSteps.DeleteNeverRotates | src/storage/engine.py:191-200 | a delete only stores the marker and never freezes the table |
| EngineSteps.EstimateIsGrowth | src/storage/engine.py:247-256 | for distinct keys new or in the active table the estimate is the bytes added plus the per-entry charge |
| EngineSteps.BatchBound | src/storage/engine.py:247-275 | after an accepted batch of keys new to the memtable, values plus overhead stay within the limit, rotated or not, duplicates included |
| EngineSteps.BatchFullIff | src/storage/engine.py:247-275 | after any batch the offset is the batch's, and the active size is what it held, or 0 if the batch rotated, plus the estimate without its charge, plus the values credited although they are not in the table written to, less what the batch itself replaces (nothing for distinct keys); it is full if and only if that reaches the limit |
| EngineSteps.BatchCanOverfill | src/storage/engine.py:251-256 | an accepted entry overwriting a frozen value can fill the active table to its limit without rotating |
| EngineSteps.BatchCanOverfillRotated | src/storage/engine.py:251-268 | an accepted entry overwriting an active value that is then rotated away can exceed the limit by up to that value's size less the overhead |
| EngineSteps.BatchFreezesEmpty | src/storage/engine.py:266-268 | a batch freezes an empty buffer if and only if the active table is empty and the estimate equals the limit |
| EngineSteps.FlushAllTerminatesIff | src/storage/engine.py:324-332 | repeated flushing empties the queue if and only if every frozen buffer is non-empty and fits a file |
| Engines.Engine.constructor | src/storage/engine.py:103-116 | empty memory over the stored manifest and files, no compaction under way |
| Engines.Engine.ReplayWal | src/storage/engine.py:121-132 | replays every entry into the memtable; fails exactly when the replay raises |
| Engines.Open | src/storage/engine.py:103-118 | opening gives the replayed memtable over the loaded manifest, or nothing when the replay raises |
| Engines.Restart | src/storage/engine.py:103-132 | a stopped engine's log, manifest file and table files, opened, give the reopening of its state, or nothing when the replay raises |
| Engines.Engine.Put | src/storage/engine.py:134-168 | the whole new state of a put; a flush is started exactly when the value bytes reach the limit |
| Engines.Engine.Delete | src/storage/engine.py:191-200 | the whole new state of a delete; the queue is as it was |
| Engines.Engine.Get | src/storage/engine.py:170-189 | the value of the key in the overlay of memory and levels, or key missing when there is none or it is the tombstone's thirteen bytes |
| Engines.Engine.ReadKeyRange | src/storage/engine.py:202-232 | the sorted live contents of the range |
| Engines.RangeAgreesWithGet | src/storage/engine.py:202-232 | those are exactly the pairs point reads return, in increasing key order |
| Engines.Engine.EstimateBatch | src/storage/engine.py:247-256 | the estimate read key by key from the memtable |
| Engines.Engine.BatchPut | src/storage/engine.py:234-280 | stored exactly when the lengths agree, the estimate is within the limit and every record fits, else which of these fails; the whole new state of each |
| Engines.Engine.WriteBuffer | src/storage/engine.py:304-308 | the buffer's file and a level-0 entry with its bounds, count and size, exactly when it fits |
| Engines.Engine.Flush | src/storage/engine.py:283-322 | memory, log, manifest and files after a flush, for any clock reading: publishes, drops and truncates for a non-empty head that fits, else changes nothing; with a path and time of its own the whole new state; the licence to compact is given, and taken, exactly when level 0 then has more than two tables and none was out |
| Engines.Engine.FlushAll | src/storage/engine.py:324-332 | any number of turns of the loop, contents unchanged; with as many turns as buffers, all of them writable, an empty queue and level 0 extended by the buffers in queue order; any number of flushes starts at most one compaction, and when |
| Engines.Engine.RunCompaction | src/storage/compaction.py:110-151 | a compaction on the engine's state: level 0 replaced by its overlay on level 1, and the merged files unlinked, exactly when it can be written |
| ReadWriteLock.MutualExclusion | src/storage/memtable.py:41-63 | for any number of threads and any run, no writer overlaps a reader or another writer |
| ReadWriteLock.CallsDecide | src/storage/memtable.py:41-63 | from the calls made, in any run: a caller of the write lock is only ever waiting for the write mutex, inside with it or done, a caller of the read lock never holds or awaits it as a writer |
| ReadWriteLock.WriteCallersAreAlone | src/storage/memtable.py:57-63 | two threads inside at once have both called for the read lock |
| ReadWriteLock.ReadersShare | src/storage/memtable.py:41-47 | for any set of threads there is a run in which all have called for the read lock and are inside at once |
| ReadWriteLock.WriterGetsIn | src/storage/memtable.py:57-59 | a lone caller of the write lock gets in and a second then waits |
| ReadWriteLock.CounterIsReaders | src/storage/memtable.py:41-55 | the counter is the number of counted readers, also before the first has the write lock; each mutex is held exactly when a thread accounts for it |
| ReadWriteLock.SomeoneCanGo | src/storage/memtable.py:41-63 | while any thread is under way some thread under way can step: no deadlock |
| ReadWriteLock.EveryoneGetsThrough | src/storage/memtable.py:41-63 | without new calls every schedule ends, and ends with every thread through |
| Tables.TombstonesEncodeStore | src/storage/memtable.py:125-132 | tables with tombstones read exactly as the map in which deletes remove keys |
| Tables.WritesAreRead | src/storage/engine.py:186-188 | any value but the thirteen bytes of the tombstone, the empty one included, reads as itself after a put; those, and a delete, read as absent |
| ByteStrings.LtAtFirstDifference | src/storage/sstable_manager.py:68 | keys compare by the first byte that differs, a proper prefix being smaller |
| ByteStrings.MostSignificantFirst | src/storage/wal.py:204-217 | length fields have their most significant byte first |

## Left out

- Engines.Engine.FlushAll: takes clock readings that give each buffer a path and time of its own, one per turn of the loop; `Limits.SamePathFlush` says what a shared path costs, `EngineSteps.FlushAllTerminatesIff` when the loop ends.
- What bytes cut inside a record replay to is stated as their replay (`OnBytes.CutInside`), because it depends on the checksum; one to three bytes have an answer for every checksum.
- Interleaved file removal: a reader holding a manifest snapshot while compaction unlinks its files.
- Crashes and reads between the removals of a compaction are covered by `CompactionRuns.IntermediateManifests`; in `EngineRuns` a compaction is one completed step.
- `EngineCalls` runs calls one after the other; interleavings of clients, flush threads and compactions are in `EngineRuns`.
- A rotation from another thread between a delete and the raising of its offset; the engine itself never rotates there.
- I/O faults inside publication, fsync and directory handling; replacing a file is one step.
- Hex and JSON text of the manifest: entries keep keys and levels as values.
- Heap layout: the heap is a set with extract-least.
- The TCP server, request parsing, response formatting and chunked streaming; configuration; logging; `iter_sorted`.

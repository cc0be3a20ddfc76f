# LevelDB and nanopb, modelled and verified

The repository vendors two libraries with something to prove: the LevelDB storage engine and the nanopb codec for the
Protocol Buffers wire format. This project models both in Dafny and proves what they are for.

LevelDB stores a sequence-numbered multimap from user keys to puts and deletions in which, for a snapshot, the newest
entry up to that snapshot wins (`Multimap.Read`). Memtables, tables, levels, compactions, logs and caches only speed
that up or make it durable, so they are all measured against it:

- **Lookup, compaction, versions** (`Versions`, `VersionGet`, `Inputs`, `Compaction`, `CompactionReads`, `VersionSteps`,
  `VersionBuilder`, `InstallEdits`, `Database`, `FlushMeanwhile`, `RoomForTables`, `SplitKey`, `GapCompaction`):
  `Version::Get` is a read of all entries; compactions leave all reads alone under an exact condition; every run of
  writes, flushes, moves and compactions, with flushes in the middle of compactions, reads like its history.
- **Writing, crashing, reopening** (`Batches`, `WritePath`, `Recovery`, `BusyRecovery`, `Replay`, `LostLogs`,
  `DurableStore`, `ObsoleteFiles`): step systems for group commit, for crash and recovery, and for file deletion, with
  imperative classes whose methods are their steps.
- **Iterators** (`Iterators`, `DbIter`, `Merger`, `TwoLevel`, `StoreIterator`): each is a cursor on a sorted map, run or
  union under any mix of operations and direction changes, and over the whole store they show its history.
- **Heap structures** (`SkipList`, `MemTableList`, `Rings`, `HandleTable`, `CacheMap`, `LruCache`, `LruOrder`): the skip
  list after every single pointer store with searches in progress; the cache with its two circular lists, hash chains
  and reference counts, as a map bounded by its capacity that evicts the least recently used entries.
- **Formats** (`Coding`, `LogFormat`, `LogFiles`, `LogSound`, `BlockFormat`, `Blocks`, `Separators`, `Bloom`,
  `FilterBlock`, `TableFormat`, `TableBuilder`, `WriteBatchCodec`, `VersionEditCodec`): writers against readers, on
  bytes, and what readers make of any bytes.

nanopb encodes and decodes C structs by descriptors (`PbMessages`, `PbDecode`, `PbRoundTrip`, `PbEncoder`, `PbDecoder`,
`PbFieldIter`, `PbBounds`, `PbEvolution`): decoding an encoded message gives it back, also between versions of its type;
any bytes decode to a struct within its bounds or not at all; and the counting pass of a submessage agrees with the
writing pass. The wire format is that of the Protocol Buffers Encoding guide, sections "Base 128 Varints" and following.

Loops and objects of the source are methods and classes here, each proved against a function or a step of a state
machine; what the source promises is then proved of those.

## Where the code does not do what one expects

- `SetupOtherInputs` adds boundary files for the level but not for the next one. A dropped tombstone can then uncover an
  older put in the next level: `SplitKey.DeletedValueComesBack` is a run in which it does,
  `CompactionReads.ReadsPreservedIffNothingResurrects` the exact condition, and `CompactionReads.ClosedNextLevelIsSafe`
  a condition on file boundaries alone.
- A table flushed in the middle of a compaction goes where it overlaps no file, and that may be between the inputs of a
  manual compaction, whose output then covers it: `GapCompaction.ManualCompactionLosesWrite` is a run that loses a write
  so. `FlushMeanwhile.InstalledOkIffNoClash` is the exact condition when it ends, `RoomForTables.ClashIffRoom` the exact
  condition when it begins; compactions set up by `PickCompaction` meet both (`FlushMeanwhile.PickedNeverClashes`).
- `MakeRoomForWrite` closes the old log without an fsync. A machine crash can cut it while a later log keeps synced
  records: `LostLogs.RotatedLogCanLoseWrites`, with the exact condition in `LostLogs.MachineCrashLeavesPrefixIff`.
- `VersionEdit::Clear` leaves the compaction pointers alone, so decoding into a used edit appends to them:
  `VersionEditCodec.EditRoundTrip` says exactly when the edit comes back.
- nanopb sends a string that fills its array without terminator and refuses it when decoding:
  `PbRoundTrip.RoundTripIffTerminated` says exactly which messages come back.
- nanopb decodes a submessage on top of what the struct holds, even if it counts as absent: `PbBounds.DecodedFits` asks
  that absent submessages are within their bounds, and `PbBounds.AbsentOverfullShows` shows what happens otherwise.

## Model

| member | source | states |
|---|---|---|
| UserKeys.RankEmbedsBytewiseOrder | BookSelf/Pods/leveldb-library/util/comparator.cc:25-27 | ranks of byte strings, used as user keys by the store models, compare exactly as the bytewise comparator does, for all strings |
| DbFormat.CompareReadsTags | BookSelf/Pods/leveldb-library/db/dbformat.cc:46-67 | for equal user keys, comparing the packed 8-byte tags in decreasing order is comparing sequence number and then type |
| DbFormat.BeforeLookupKey | BookSelf/Pods/leveldb-library/db/dbformat.cc:121-138 | an entry sorts before a lookup key exactly when its user key is smaller or it is too new for the snapshot |
| Multimap.ShallowWins | BookSelf/Pods/leveldb-library/db/version_set.cc:326-421 | if every entry of a shallow layer is newer than the deep ones of its key, the newest visible entry of the shallow layer is the newest of both |
| Multimap.InvisibleLayer | BookSelf/Pods/leveldb-library/db/version_set.cc:326-421 | a layer that shows nothing of a key changes no read of the layers behind it |
| Versions.FindFile | BookSelf/Pods/leveldb-library/db/version_set.cc:88-106 | the binary search ends where halving any list ends; in a sorted level that is the first file whose largest key is at or after the key: all earlier files end before it, no later one does |
| Versions.SomeFileOverlapsRange | BookSelf/Pods/leveldb-library/db/version_set.cc:122-157 | true exactly when some file overlaps the range, by scan in level 0 and by one binary search and one comparison in sorted levels |
| VersionGet.OverlappingNewestFirst | BookSelf/Pods/leveldb-library/db/version_set.cc:349-364 | exactly the level-0 files whose key range covers the key, by decreasing file number |
| VersionGet.SearchFiles | BookSelf/Pods/leveldb-library/db/version_set.cc:384-417 | stopping at the first file that answers gives the newest visible entry of all the files chosen |
| VersionGet.FilesToSearch | BookSelf/Pods/leveldb-library/db/version_set.cc:348-382 | the files read in one level answer for the whole level, although deeper levels look at one file only |
| VersionGet.Get | BookSelf/Pods/leveldb-library/db/version_set.cc:326-421 | under the version invariant the lookup equals the entry with the greatest sequence number up to the snapshot among all entries of the version: its value, or not found for a deletion or none |
| Inputs.GetOverlappingInputs | BookSelf/Pods/leveldb-library/db/version_set.cc:519-559 | terminates despite the restarts; in level 0 the result is the files overlapping the least range that contains the request and is closed under overlap, deeper down the files overlapping the request |
| Inputs.FindLargestKey | BookSelf/Pods/leveldb-library/db/version_set.cc:1326-1340 | the greatest largest key of a nonempty set of files |
| Inputs.FindSmallestBoundaryFile | BookSelf/Pods/leveldb-library/db/version_set.cc:1344-1362 | the file with the smallest start among those that start behind a key within its user key, and none exactly if there is no such file |
| Inputs.AddBoundaryInputs | BookSelf/Pods/leveldb-library/db/version_set.cc:1378-1401 | adds a chain of boundary files, each once, and ends with no level file that starts behind the set's largest key inside its user key |
| Inputs.ChainIsNeighbours | BookSelf/Pods/leveldb-library/db/version_set.cc:1378-1401 | in a sorted level the chain added to a run of neighbours is exactly the neighbours that follow it |
| Inputs.ClosedRangeSharesNoKey | BookSelf/Pods/leveldb-library/db/version_set.cc:519-559 | a closed level-0 range shares no user key with any file it leaves out |
| Inputs.SetupOtherInputs | BookSelf/Pods/leveldb-library/db/version_set.cc:1403-1462 | the inputs are the chosen files with their boundary files, grown once if that is allowed; the next level's part overlaps exactly the range, every file left in the level is newer than the inputs where they share a key, and files chosen without a gap give inputs without a gap |
| Inputs.GrowInputs | BookSelf/Pods/leveldb-library/db/version_set.cc:1417-1447 | the first set becomes all the level has in the range so far, closed under boundary files, exactly if that adds files, stays under the byte limit and overlaps as many next-level files as before; it stays legal and contains the old one |
| Inputs.PickBySize | BookSelf/Pods/leveldb-library/db/version_set.cc:1284-1296 | the first file past the compaction pointer, wrapping to the first file only if all lie before it |
| Inputs.PickCompaction | BookSelf/Pods/leveldb-library/db/version_set.cc:1270-1324 | for any level and any starting file the compaction is set up for that file, in level 0 for all its range leads to; the inputs are legal and leave no gap: every user key between two of them is in the range of one |
| Inputs.LeastRangeNoGap | BookSelf/Pods/leveldb-library/db/version_set.cc:519-559 | the level-0 scan adds no gap to files without one, since a gap would end the least closed range |
| Inputs.CompactRange | BookSelf/Pods/leveldb-library/db/version_set.cc:1464-1495 | finds a compaction exactly if some file of the level overlaps the range; it is set up for the overlapping files, below level 0 only up to the first prefix whose sizes reach the limit |
| Inputs.PickLevelForMemTableOutput | BookSelf/Pods/leveldb-library/db/version_set.cc:491-516 | above level 0 only if no file down to that level overlaps the new table, past levels whose grandparents stay within the byte limit; and it stops short of level 2 only because of an overlap in level 0 or the next level, or of too many grandparent bytes |
| Compaction.CompactionState.IsBaseLevelForKey | BookSelf/Pods/leveldb-library/db/version_set.cc:1533-1552 | for nondecreasing keys the advancing cursors answer like a full scan: true exactly if no file two or more levels deeper covers the key |
| Compaction.DoCompactionWork | BookSelf/Pods/leveldb-library/db/db_impl.cc:889-999 | the loop over current_user_key and last_sequence_for_key writes exactly the entries that neither rule (A) nor the tombstone rule drops, in order, cut into files with consecutive numbers |
| CompactionReads.HiddenByAny | BookSelf/Pods/leveldb-library/db/db_impl.cc:946-949 | rule (A) looks one entry back, yet drops an entry as soon as any newer entry of its key is at or below the smallest snapshot |
| CompactionReads.LostNewestIsObsolete | BookSelf/Pods/leveldb-library/db/db_impl.cc:946-963 | the only newest entry a snapshot can lose is a tombstone at or below the smallest snapshot with no deeper data |
| CompactionReads.ReadsPreservedIffNothingResurrects | BookSelf/Pods/leveldb-library/db/db_impl.cc:889-999 | a compaction leaves every read of every key at every snapshot >= smallest_snapshot unchanged if and only if no dropped tombstone uncovers a put left in the next level |
| CompactionReads.ResurrectionShows | BookSelf/Pods/leveldb-library/db/db_impl.cc:950-963 | if it does uncover one, the read at the smallest snapshot turns from not found into that put's value |
| CompactionReads.ClosedNextLevelIsSafe | BookSelf/Pods/leveldb-library/db/version_set.cc:1403-1422 | no tombstone uncovers anything if no next-level file starts inside the user key at which the chosen next-level files end |
| CompactionReads.CompactionReclaims | BookSelf/Pods/leveldb-library/db/db_impl.cc:946-963 | a compaction leaves in the store none of its input entries that are older than one of the same key at or below the smallest snapshot, and none of its tombstones at or below it without deeper data |
| SplitKey.LastInputsOk | BookSelf/Pods/leveldb-library/db/version_set.cc:1403-1422 | the set-up of the counterexample is what SetupOtherInputs picks in the version it starts from |
| SplitKey.RunIsRun | BookSelf/Pods/leveldb-library/db/db_impl.cc:1100-1145 | that run is one of the step system, from the empty store |
| SplitKey.DeletedValueComesBack | BookSelf/Pods/leveldb-library/db/version_set.cc:1407-1422 | a run of the store from empty (writes, a snapshot, a compaction cut inside a user key, the release of the snapshot, a flush) to a state whose next legal compaction makes a deleted value readable again, because boundary files are added for `level` but not for `level + 1` |
| VersionSteps.CompactionKeepsVersion | BookSelf/Pods/leveldb-library/db/db_impl.cc:860-876 | installing the outputs of the merge loop keeps levels >= 1 sorted and disjoint, shallower levels newer than deeper ones, and file numbers unique |
| VersionSteps.MoveKeepsVersion | BookSelf/Pods/leveldb-library/db/db_impl.cc:718-725 | a trivial move keeps the invariant and the set of entries |
| VersionSteps.FlushKeepsVersion | BookSelf/Pods/leveldb-library/db/db_impl.cc:515-526 | a flushed table newer than everything stored keeps the invariant at the level picked for it |
| VersionSteps.CutFilesAreDisjoint | BookSelf/Pods/leveldb-library/db/db_impl.cc:974-996 | the output files of one compaction follow each other without overlap |
| InstallEdits.InstallCompaction | BookSelf/Pods/leveldb-library/db/db_impl.cc:860-876 | the edit of input deletions and output additions, saved by the builder, replaces exactly the inputs by the outputs |
| InstallEdits.InstallMove | BookSelf/Pods/leveldb-library/db/db_impl.cc:718-725 | deleting and adding the same file number in one edit moves that file one level down and nothing else |
| InstallEdits.InstallTable | BookSelf/Pods/leveldb-library/db/db_impl.cc:515-526 | adds one table at one level and changes nothing else |
| InstallEdits.MergeFiles | BookSelf/Pods/leveldb-library/db/version_set.cc:1237-1268 | merging the entries of files into a sorted run loses and invents none |
| VersionBuilder.ApplyIsEdit | BookSelf/Pods/leveldb-library/db/version_set.cc:650-693 | for numbers not already in the level, applying an edit to the builder changes what it would save as the edit says |
| VersionBuilder.ApplyIsEditIff | BookSelf/Pods/leveldb-library/db/version_set.cc:650-693 | applying an edit to the builder does what the edit says if and only if no number of a deleted file is added with another file, and no added file compares equal to another one in the ordered set |
| VersionBuilder.OneBuilderReplaysAll | BookSelf/Pods/leveldb-library/db/version_set.cc:886-1011 | one builder over all manifest records saves the same levels as saving after every record |
| VersionBuilder.ReusedNumberResurfaces | BookSelf/Pods/leveldb-library/db/version_set.cc:689-690 | an instance of the condition failing: a deleted file comes back when its number is added again in the same edit |
| VersionBuilder.Builder.Apply | BookSelf/Pods/leveldb-library/db/version_set.cc:650-693 | per level, deletions are recorded and additions inserted in order of smallest key, un-deleting their numbers |
| VersionBuilder.Builder.SaveTo | BookSelf/Pods/leveldb-library/db/version_set.cc:695-739 | every level is strictly ordered by smallest key and number and holds exactly base plus added files whose numbers are not deleted |
| VersionBuilder.UpperBound | BookSelf/Pods/leveldb-library/db/version_set.cc:709-713 | the first index whose file sorts after the given one |
| VersionBuilder.SortedListIsUnique | BookSelf/Pods/leveldb-library/db/version_set.cc:695-739 | a level is determined by its set of files, so the order SaveTo produces is the only one |
| VersionBuilder.LogAndApply | BookSelf/Pods/leveldb-library/db/version_set.cc:801-884 | the new version's levels hold what the edit says, in order |
| Database.NextKeepsOk | BookSelf/Pods/leveldb-library/db/db_impl.cc:535-566 | every write, memtable switch, snapshot, flush, move and compaction that uncovers nothing keeps the invariant of memtables, version and snapshots |
| Database.RunsReadLikeHistory | BookSelf/Pods/leveldb-library/db/db_impl.cc:1100-1145 | in every state of every run of these steps, every live snapshot and the latest state read like the multimap of all writes |
| Database.MemTableGet | BookSelf/Pods/leveldb-library/db/memtable.cc:100-135 | the first entry at or after the lookup key decides for the whole memtable |
| Database.DBImpl.Write | BookSelf/Pods/leveldb-library/db/db_impl.cc:1185-1258 | afterwards every read of the key at the new sequence number or later gives the value put, or not found after a delete, and every other read of every key and snapshot is as before |
| Database.WrittenIsRead | BookSelf/Pods/leveldb-library/db/write_batch.cc:120-127 | the same of the step: what the write history reads after it, for all keys and snapshots |
| Database.WriteThenGet | BookSelf/Pods/leveldb-library/db/db_impl.cc:1100-1258 | Get after Write returns the value put, or not found after a delete, in any state of the store |
| Database.DBImpl.SwitchMemTable | BookSelf/Pods/leveldb-library/db/db_impl.cc:1346-1366 | the memtable becomes the immutable one, only when there is none, and a new one is empty |
| Database.DBImpl.Get | BookSelf/Pods/leveldb-library/db/db_impl.cc:1100-1145 | memtable, immutable memtable, version: the first hit equals the read of the whole write history at the snapshot |
| Database.DBImpl.CompactMemTable | BookSelf/Pods/leveldb-library/db/db_impl.cc:535-566 | the entries of the immutable memtable become one new table of the version, at a level up to 2, and no other entry comes or goes |
| Database.DBImpl.RunCompaction | BookSelf/Pods/leveldb-library/db/db_impl.cc:739-742 | the inputs of exactly the given compaction are gone from their levels, every other file is where it was, everything in them that no snapshot from the oldest live one on can read is gone from the store, and the result is a step of the run model |
| Database.DBImpl.MoveFile | BookSelf/Pods/leveldb-library/db/db_impl.cc:718-725 | the single input leaves its level for the next one, every other file is where it was, and no entry comes or goes |
| FlushMeanwhile.InstalledOkIffNoClash | BookSelf/Pods/leveldb-library/db/db_impl.cc:907-918 | tables are flushed while a compaction runs; the version its outputs are installed in meets the invariant if and only if no table flushed to the output level lies across an output |
| FlushMeanwhile.NoGapNoClash | BookSelf/Pods/leveldb-library/db/version_set.cc:491-516 | inputs without a gap leave no room: no table is ever flushed across an output |
| FlushMeanwhile.ReadsMeanwhile | BookSelf/Pods/leveldb-library/db/db_impl.cc:860-876 | a compaction that uncovers nothing in the version it set out from changes no read at or above its smallest snapshot in the version it ends in, whatever was flushed meanwhile |
| FlushMeanwhile.NextKeepsOk | BookSelf/Pods/leveldb-library/db/db_impl.cc:878-918 | writes, switches, snapshots, releases and flushes between the begin and the end of a compaction keep the invariant of the store and what the compaction relies on |
| FlushMeanwhile.RunsReadLikeHistory | BookSelf/Pods/leveldb-library/db/db_impl.cc:878-1015 | before, during and after compactions, with flushes at any time, every live snapshot and the latest state read like the multimap of all writes |
| FlushMeanwhile.PickedNeverClashes | BookSelf/Pods/leveldb-library/db/db_impl.cc:907-918 | in every run, the compactions PickCompaction sets up meet the condition under which their outputs may be installed |
| RoomForTables.ClashIffRoom | BookSelf/Pods/leveldb-library/db/version_set.cc:491-516 | told before a compaction begins: some flushes and some cut of its output clash if and only if its output level is at most 2 and entries it keeps lie on both sides of a user key that no file down to that level covers |
| RoomForTables.RoomAdmitsClash | BookSelf/Pods/leveldb-library/db/version_set.cc:491-516 | with such a key, one write of it, its flush to the output level and an output in one file are enough |
| RoomForTables.NoGapNoRoom | BookSelf/Pods/leveldb-library/db/version_set.cc:1270-1324 | inputs without a gap, as PickCompaction leaves them, have no such key |
| GapCompaction.RunIsRun | BookSelf/Pods/leveldb-library/db/db_impl.cc:568-585 | a run of writes and flushes from the empty store, a manual compaction of all keys of level 1, and a write and its flush to level 2 meanwhile |
| GapCompaction.ManualCompactionLosesWrite | BookSelf/Pods/leveldb-library/db/db_impl.cc:907-918 | installing that compaction breaks the version invariant, and the binary search of level 2 ends at the output that covers the flushed table: the key just written is stored, in no other level, and not found |
| ObsoleteFiles.StepKeepsOk | BookSelf/Pods/leveldb-library/db/db_impl.cc:490-566 | every step of readers, flush and compaction keeps reference counts exact and every needed table on disk |
| ObsoleteFiles.NothingNeededIsDeleted | BookSelf/Pods/leveldb-library/db/db_impl.cc:223-278 | after every run, tables of every version that a reader or compaction references, finished outputs and all tables the manifest names are on disk |
| ObsoleteFiles.VersionsAreFixed | BookSelf/Pods/leveldb-library/db/version_set.cc:68-86 | a referenced version keeps its files |
| ObsoleteFiles.OnlyCurrentTablesStay | BookSelf/Pods/leveldb-library/db/db_impl.cc:223-278 | with no reader and no pending output, collection leaves exactly the tables of the current version |
| ObsoleteFiles.DeletingDuringAFlushLosesTheTable | BookSelf/Pods/leveldb-library/db/db_impl.cc:513 | why the flushing thread must be the deleting one: the table is no longer pending before the manifest names it, and a collection in that window would lose it |
| ObsoleteFiles.WindowIsReached | BookSelf/Pods/leveldb-library/db/db_impl.cc:496-533 | every freshly opened store can come to that window, by starting, writing and ending the build of a table |
| ObsoleteFiles.FileKeeper.AppendVersion | BookSelf/Pods/leveldb-library/db/version_set.cc:784-799 | the new version is current with one reference, the old one loses the reference of being current |
| ObsoleteFiles.FileKeeper.UnrefVersion | BookSelf/Pods/leveldb-library/db/version_set.cc:476-483 | the last reference takes the version out of the list |
| ObsoleteFiles.FileKeeper.AddLiveFiles | BookSelf/Pods/leveldb-library/db/version_set.cc:1167-1177 | exactly the files of all listed versions are added |
| ObsoleteFiles.FileKeeper.DeleteObsoleteFiles | BookSelf/Pods/leveldb-library/db/db_impl.cc:223-278 | nothing is deleted after a background error; otherwise of the files on disk exactly those stay that are needed: CURRENT, LOCK and info logs, logs from the log number on and the previous one, manifests from the current one on, and tables and temporary files that a version or a pending output names |
| ObsoleteFiles.EssentialsStay | BookSelf/Pods/leveldb-library/db/db_impl.cc:239-266 | over every run: if the disk holds CURRENT, LOCK, the manifest in use and the log in use at first, it holds those of every later state |
| ObsoleteFiles.NeededLogsStay | BookSelf/Pods/leveldb-library/db/db_impl.cc:239-244 | over every run: a log that is on disk stays there as long as it is numbered from the log number of the manifest on |
| ObsoleteFiles.StepKeepsFiles | BookSelf/Pods/leveldb-library/db/db_impl.cc:239-266 | no step deletes CURRENT, LOCK, the info log, a log from the log number on, the manifest in use or a newer one, or the previous log while it is needed |
| ObsoleteFiles.NoGarbageStays | BookSelf/Pods/leveldb-library/db/db_impl.cc:239-266 | a collection without background error leaves no older log or manifest and no table or temporary file that neither a version nor a pending output names |
| Batches.InsertInto | BookSelf/Pods/leveldb-library/db/write_batch.cc:116-147 | every update of a batch enters the memtable once, with consecutive sequence numbers from the batch's own |
| Batches.LaterIsNewer | BookSelf/Pods/leveldb-library/db/write_batch.cc:116-147 | entries of later batches are newer than all entries of earlier ones |
| Batches.BatchIsRead | BookSelf/Pods/leveldb-library/db/write_batch.cc:116-147 | after a batch, a reader that sees one of its updates of a key gets the last one it sees: the value put, or not found |
| Batches.BatchLeavesRead | BookSelf/Pods/leveldb-library/db/write_batch.cc:116-147 | a key none of whose updates in the batch is seen reads as before |
| Recovery.NextKeepsOk | BookSelf/Pods/leveldb-library/db/db_impl.cc:1336-1366 | append, fsync, apply, rotation, flush, manifest commit, log deletion, crash and opening keep: manifest plus logs stand for all issued batches that survive |
| Recovery.CrashLeavesPrefix | BookSelf/Pods/leveldb-library/db/db_impl.cc:1215-1222 | a crash that cuts the newest log past its synced length leaves a prefix of the issued batches with every acknowledged synced batch |
| Recovery.SyncedWritesSurvive | BookSelf/Pods/leveldb-library/db/db_impl.cc:1215-1222 | over any run with any crashes, a batch acknowledged as synced keeps its place in the history |
| Recovery.RunsReadIssued | BookSelf/Pods/leveldb-library/db/db_impl.cc:280-369 | in every open state of every run, all snapshots and the latest state read like the applied batches |
| Recovery.ReopenedReadsPrefix | BookSelf/Pods/leveldb-library/db/db_impl.cc:280-369 | crash anywhere, then open: the store reads like a prefix of the issued batches that holds all synced ones |
| Recovery.WrittenIsRead | BookSelf/Pods/leveldb-library/db/db_impl.cc:1215-1236 | a batch that was logged and applied is what all layers of the open store read, its last update of each key |
| Recovery.SyncedBatchStays | BookSelf/Pods/leveldb-library/db/db_impl.cc:1215-1222 | a batch whose synced write was acknowledged is at its place among the issued batches of every later state of every run, whatever crashes happen |
| BusyRecovery.NextKeepsOk | BookSelf/Pods/leveldb-library/db/db_impl.cc:878-1015 | with a compaction under way, every batch, fsync, rotation, flush, manifest record, installation, log deletion and crash in between keeps the invariant of the crash model and what the compaction relies on; so does handing its edit to the manifest |
| BusyRecovery.SyncedWritesSurvive | BookSelf/Pods/leveldb-library/db/db_impl.cc:1215-1222 | over any run with crashes in any stage of a compaction, a batch acknowledged as synced keeps its place in the history |
| BusyRecovery.RunsReadIssued | BookSelf/Pods/leveldb-library/db/db_impl.cc:878-1015 | in every open state of every such run, all snapshots and the latest state read like the applied batches |
| BusyRecovery.ReopenedReadsPrefix | BookSelf/Pods/leveldb-library/db/db_impl.cc:280-369 | crash anywhere in such a run, then open: the store reads like a prefix of the issued batches that holds all synced ones |
| Replay.WriteLevel0Table | BookSelf/Pods/leveldb-library/db/db_impl.cc:490-533 | without a base version the memtable's run becomes a level-0 table above everything replayed before; an empty one becomes none |
| Replay.RecoverLogFile | BookSelf/Pods/leveldb-library/db/db_impl.cc:371-488 | replaying a log adds exactly its batches to the tables, however often the memtable fills up, and finds the last sequence number |
| Replay.Open | BookSelf/Pods/leveldb-library/db/db_impl.cc:280-369 | replays the logs from the manifest's log number on in order and starts a new log |
| Replay.LeftReplayable | BookSelf/Pods/leveldb-library/db/db_impl.cc:412-488 | what any run leaves on disk meets what opening needs |
| LostLogs.ReplayIsPrefixIffNothingAfterLoss | BookSelf/Pods/leveldb-library/db/db_impl.cc:1346-1366 | for one given cut of every log: replay gives a prefix of the issued batches if and only if no log behind the first loss keeps a record |
| LostLogs.MachineCrashLeavesPrefixIff | BookSelf/Pods/leveldb-library/db/db_impl.cc:1346-1366 | cutting every log anywhere behind its synced length always leaves a prefix if and only if, of any two logs recovery needs, the earlier has no unsynced write or the later no write |
| LostLogs.FailingRunIsRun | BookSelf/Pods/leveldb-library/db/db_impl.cc:1185-1258 | the run behind the failing crash is one of the crash model, from a new store |
| LostLogs.RotatedLogCanLoseWrites | BookSelf/Pods/leveldb-library/db/db_impl.cc:1356-1360 | from a new store: an unsynced write, a rotation, a synced write; both writes are acknowledged, yet a crash that cuts the rotated log leaves only the second |
| DurableStore.Store.AddRecord | BookSelf/Pods/leveldb-library/db/db_impl.cc:1215 | the given batch goes to the end of the newest log, as the crash model's step |
| DurableStore.Store.Apply | BookSelf/Pods/leveldb-library/db/db_impl.cc:1223-1236 | the given batch enters the memtable, the last sequence number moves to its last update, and it counts as acknowledged; the crash model's step |
| DurableStore.Store.SwitchMemTable | BookSelf/Pods/leveldb-library/db/db_impl.cc:1346-1366 | rotation, as the crash model's step |
| DurableStore.Store.PrepareFlush | BookSelf/Pods/leveldb-library/db/db_impl.cc:535-553 | table and edit with the current log number, as the crash model's step |
| DurableStore.Store.LogEdit | BookSelf/Pods/leveldb-library/db/version_set.cc:841-856 | the manifest record makes table and log number durable together |
| DurableStore.Store.DeleteObsoleteLogs | BookSelf/Pods/leveldb-library/db/db_impl.cc:239-244 | leaves exactly the logs that recovery would read |
| DurableStore.Store.Open | BookSelf/Pods/leveldb-library/db/db_impl.cc:280-369 | opening is the crash model's step |
| WritePath.BuildBatchGroup | BookSelf/Pods/leveldb-library/db/db_impl.cc:1260-1306 | the longest run of waiting writers that may share a group (no sync write behind a non-sync leader, size limit), with their updates concatenated in queue order |
| WritePath.NextKeepsOk | BookSelf/Pods/leveldb-library/db/db_impl.cc:1185-1258 | every interleaving of joining, leading, logging, syncing, inserting and finishing keeps the queue invariant |
| WritePath.EveryWriteOnce | BookSelf/Pods/leveldb-library/db/db_impl.cc:1185-1258 | for every run and its list of calls of Write: an update of a call that has returned is in the log exactly under the number that counts the updates of all earlier calls, and the memtable holds it and nothing else under that number |
| WritePath.SnapshotsAreWhole | BookSelf/Pods/leveldb-library/db/db_impl.cc:1223-1236 | over every run: a snapshot lies before the first or behind the last update of each call, so it sees all of a call or none |
| WritePath.SyncWritesAreOnDisk | BookSelf/Pods/leveldb-library/db/db_impl.cc:1280-1284 | over every run: every update of a call with the sync option that has returned is in a record on disk, whoever led its group |
| WritePath.ArrivalsAreCalls | BookSelf/Pods/leveldb-library/db/db_impl.cc:1185-1191 | over every run the queue has taken in exactly the calls made, with their updates, sizes and sync options, in order |
| WritePath.NothingButCalls | BookSelf/Pods/leveldb-library/db/db_impl.cc:1223-1236 | every entry of the memtable is an update of some call, under that update's number |
| WritePath.WriteQueue.Join | BookSelf/Pods/leveldb-library/db/db_impl.cc:1185-1191 | a call enters the end of the queue with its batch and sync option as the caller gave them |
| WritePath.LogIsIncreasing | BookSelf/Pods/leveldb-library/db/db_impl.cc:1206-1215 | the records of the queue model are the increasing batches that the crash model issues |
| WritePath.WriteQueue.Lead | BookSelf/Pods/leveldb-library/db/db_impl.cc:1203-1207 | the front writer leads as large a group as may share it |
| WritePath.WriteQueue.Finish | BookSelf/Pods/leveldb-library/db/db_impl.cc:1236-1256 | LastSequence is set and exactly the group leaves the queue |
| DbIter.DBIter.Next | BookSelf/Pods/leveldb-library/db/db_iter.cc:141-166 | from any valid position and direction: the next larger user key live at the snapshot with its newest visible value, or none if there is none |
| DbIter.DBIter.FindNextUserEntry | BookSelf/Pods/leveldb-library/db/db_iter.cc:168-198 | stops at the first live entry past the key to skip |
| DbIter.DBIter.Prev | BookSelf/Pods/leveldb-library/db/db_iter.cc:200-225 | the next smaller live user key with its newest visible value, or none if there is none |
| DbIter.DBIter.FindPrevUserEntry | BookSelf/Pods/leveldb-library/db/db_iter.cc:227-267 | collects the newest visible entry of each key backwards until one is a value |
| DbIter.DBIter.Seek | BookSelf/Pods/leveldb-library/db/db_iter.cc:269-281 | the smallest live key at or after the target |
| DbIter.DBIter.SeekToFirst | BookSelf/Pods/leveldb-library/db/db_iter.cc:283-292 | the smallest live key |
| DbIter.DBIter.SeekToLast | BookSelf/Pods/leveldb-library/db/db_iter.cc:294-299 | the largest live key |
| DbIter.LiveIsValue | BookSelf/Pods/leveldb-library/db/db_iter.cc:168-198 | what the iterator stops at is what the multimap reads for that key |
| DbIter.ValueIsLive | BookSelf/Pods/leveldb-library/db/db_iter.cc:168-198 | every key that reads as a value has an entry the iterator stops at |
| Merger.MergingIterator.Next | BookSelf/Pods/leveldb-library/table/merger.cc:55-79 | whatever the direction before, the direct successor in the sorted union of the children; the position in the union goes up by one |
| Merger.MergingIterator.Prev | BookSelf/Pods/leveldb-library/table/merger.cc:81-113 | the direct predecessor in the sorted union; the position goes down by one, or to the end from the front |
| Merger.MergingIterator.Seek | BookSelf/Pods/leveldb-library/table/merger.cc:47-53 | the first entry of the union at or after the target, at the position a seek in the union list ends |
| Merger.MergingIterator.SeekToFirst | BookSelf/Pods/leveldb-library/table/merger.cc:31-37 | the first entry of the union |
| Merger.MergingIterator.SeekToLast | BookSelf/Pods/leveldb-library/table/merger.cc:39-45 | the last entry of the union |
| Merger.MergingIterator.FindSmallest | BookSelf/Pods/leveldb-library/table/merger.cc:148-161 | the child whose current key is before all others |
| Merger.MergingIterator.FindLargest | BookSelf/Pods/leveldb-library/table/merger.cc:163-176 | the child whose current key is after all others |
| TwoLevel.SeekInOneBlock | BookSelf/Pods/leveldb-library/table/two_level_iterator.cc:82-87 | seeking the index and then one block, whose end leads to the next nonempty block, finds the lower bound in the concatenation of all blocks |
| TwoLevel.LevelIsSeparated | BookSelf/Pods/leveldb-library/db/version_set.cc:159-228 | the files of a sorted level, indexed by their largest keys, meet what the two-level seek needs |
| TwoLevel.TwoLevelIterator.AtPosition | BookSelf/Pods/leveldb-library/table/two_level_iterator.cc:38-46 | the current entry is the entry of the concatenation at the current position |
| TwoLevel.TwoLevelIterator.Seek | BookSelf/Pods/leveldb-library/table/two_level_iterator.cc:82-87 | the position of the lower bound in the concatenation, empty blocks skipped |
| TwoLevel.TwoLevelIterator.SeekToFirst | BookSelf/Pods/leveldb-library/table/two_level_iterator.cc:89-94 | the first position of the concatenation |
| TwoLevel.TwoLevelIterator.SeekToLast | BookSelf/Pods/leveldb-library/table/two_level_iterator.cc:96-101 | the last position of the concatenation |
| TwoLevel.TwoLevelIterator.Next | BookSelf/Pods/leveldb-library/table/two_level_iterator.cc:103-107 | one position further in the concatenation |
| TwoLevel.TwoLevelIterator.Prev | BookSelf/Pods/leveldb-library/table/two_level_iterator.cc:109-113 | one position back, or invalid at the front |
| StoreIterator.NewInternalIterator | BookSelf/Pods/leveldb-library/db/db_impl.cc:1062-1087 | memtable, immutable memtable, level-0 files and one concatenation per deeper level can be merged, and their sorted union holds exactly the entries of the store |
| StoreIterator.AddIterators | BookSelf/Pods/leveldb-library/db/version_set.cc:230-246 | one child for each level-0 file and one for each deeper level that has files, in that order |
| StoreIterator.LevelRunSorted | BookSelf/Pods/leveldb-library/db/version_set.cc:221-228 | the concatenation of a sorted level is one sorted run of exactly its entries |
| StoreIterator.UnionShowsHistory | BookSelf/Pods/leveldb-library/db/db_impl.cc:1147-1158 | folded as DBIter folds it, that union gives every key the value the history of writes has for it, for every live snapshot and the latest state |
| SkipLists.CopyKeepsList | BookSelf/Pods/leveldb-library/db/skiplist.h:360-366 | storing the new node's own link changes no chain |
| SkipLists.PublishKeepsList | BookSelf/Pods/leveldb-library/db/skiplist.h:360-366 | storing the link to the new node adds it to one level, below which it is already linked |
| SkipLists.RunKeepsOk | BookSelf/Pods/leveldb-library/db/skiplist.h:337-368 | after every single pointer store of every run the list invariant holds, with any searches in progress |
| SkipLists.LevelsAreSubsequences | BookSelf/Pods/leveldb-library/db/skiplist.h:337-368 | in every state of every run each level chain is strictly sorted and a subsequence of the one below |
| SkipLists.EverySearchAnswers | BookSelf/Pods/leveldb-library/db/skiplist.h:260-281 | a search interleaved with inserts ends with the first node at or after (or the last before) its target in the list at its last level-0 load |
| SkipLists.InsertedKeysStay | BookSelf/Pods/leveldb-library/db/skiplist.h:337-368 | a finished insertion is in the list of every later state |
| SkipLists.ChainIsSorted | BookSelf/Pods/leveldb-library/db/skiplist.h:284-320 | following next pointers visits exactly the linked nodes, in strictly increasing order |
| MemTableList.SkipList.FindGreaterOrEqual | BookSelf/Pods/leveldb-library/db/skiplist.h:260-281 | the first node at or after the key, and for every level the node the key would follow |
| MemTableList.SkipList.FindLessThan | BookSelf/Pods/leveldb-library/db/skiplist.h:284-302 | the last node before the key, or the head |
| MemTableList.SkipList.FindLast | BookSelf/Pods/leveldb-library/db/skiplist.h:305-322 | the last node, or the head of an empty list |
| MemTableList.SkipList.Insert | BookSelf/Pods/leveldb-library/db/skiplist.h:337-368 | exactly the new key is added, through the stores of the step model |
| MemTableList.SkipList.Contains | BookSelf/Pods/leveldb-library/db/skiplist.h:370-378 | true exactly for the keys inserted |
| MemTableList.Iterator.Prev | BookSelf/Pods/leveldb-library/db/skiplist.h:212-221 | the last node before the current key, found by search |
| MemTableList.Iterator.Seek | BookSelf/Pods/leveldb-library/db/skiplist.h:223-226 | the first node at or after the target |
| Rings.UnlinkKeepsRing | BookSelf/Pods/leveldb-library/util/cache.cc:239-242 | unlinking takes exactly one element out of a circular list |
| Rings.AppendKeepsRing | BookSelf/Pods/leveldb-library/util/cache.cc:244-250 | appending puts an element at the newest end of a circular list |
| HandleTables.HandleTable.FindPointer | BookSelf/Pods/leveldb-library/util/cache.cc:114-120 | the slot that points to the handle with the key and hash, or the slot at the end of its chain |
| HandleTables.HandleTable.Insert | BookSelf/Pods/leveldb-library/util/cache.cc:78-92 | the new handle replaces the one with its key, which is returned; no other member changes, and there are never more members than buckets |
| HandleTables.HandleTable.Remove | BookSelf/Pods/leveldb-library/util/cache.cc:94-102 | exactly the handle with the key leaves the table |
| HandleTables.HandleTable.Resize | BookSelf/Pods/leveldb-library/util/cache.cc:122-145 | the members stay the same in an array with at least as many buckets |
| LruCaches.LRUCache.Lookup | BookSelf/Pods/leveldb-library/util/cache.cc:252-259 | the cached entry with the key gets one more reference and leaves the eviction list, or nothing changes; the map of keys to values stays, and the answer is its value for the key |
| LruCaches.LRUCache.Release | BookSelf/Pods/leveldb-library/util/cache.cc:261-264 | the last reference of an uncached entry runs its deleter; the last client reference of a cached one makes it the newest evictable entry; lists, deleters run and items are given exactly and the map stays |
| LruCaches.LRUCache.Insert | BookSelf/Pods/leveldb-library/util/cache.cc:266-303 | the map gets the new value and loses the names of the evicted entries; afterwards usage <= capacity or nothing is unpinned, evicted are only the oldest unpinned entries and no more than needed; lists and deleters run are given exactly, and no item a client holds changes |
| LruCaches.LRUCache.Erase | BookSelf/Pods/leveldb-library/util/cache.cc:318-321 | exactly the key leaves the map, its entry freed only when no client holds it; lists, deleters run and items are given exactly |
| LruCaches.LRUCache.Prune | BookSelf/Pods/leveldb-library/util/cache.cc:323-333 | exactly the unpinned entries are dropped, each deleter run once, and exactly their names leave the map; no item a client holds changes |
| CacheMaps.LookupInMap | BookSelf/Pods/leveldb-library/util/cache.cc:252-259 | a search by key and hash finds a member exactly if the map has the name, and then the member carries the map's value |
| CacheMaps.MapWithout | BookSelf/Pods/leveldb-library/util/cache.cc:308-316 | taking members out takes exactly their names out of the map |
| CacheMaps.MapWith | BookSelf/Pods/leveldb-library/util/cache.cc:266-293 | a member that replaces the one of its name sets exactly that name |
| LruCaches.EvictedMap | BookSelf/Pods/leveldb-library/util/cache.cc:294-300 | evicting the oldest entries takes exactly their names out of the map |
| LruCaches.LRUCache.Destroy | BookSelf/Pods/leveldb-library/util/cache.cc:205-215 | when no client holds a handle, every handle ever allocated has been freed exactly once |
| LruCaches.PinKeepsOk | BookSelf/Pods/leveldb-library/util/cache.cc:217-223 | moving an entry to the in-use list on its first client reference keeps: lru iff refs = 1, in use iff refs >= 2, usage the sum of charges |
| LruCaches.UnpinKeepsOk | BookSelf/Pods/leveldb-library/util/cache.cc:225-237 | moving it back on the last client reference keeps the same |
| LruCaches.FreeKeepsOk | BookSelf/Pods/leveldb-library/util/cache.cc:225-231 | freeing the last reference happens off both lists and once per handle |
| LruCaches.EveryHandleIsOwned | BookSelf/Pods/leveldb-library/util/cache.cc:180-195 | every allocated handle is in the cache or held by a client, and one in use is held |
| LruOrder.LeastRecentlyUsedFirst | BookSelf/Pods/leveldb-library/util/cache.cc:217-303 | over every sequence of lookups, insertions, releases, erasures and evictions, an entry that eviction takes was last given back before every entry it leaves, and nobody holds it |
| Coding.Varint32RoundTrip | BookSelf/Pods/leveldb-library/util/coding.cc:112-140 | decoding what was encoded gives the number and the rest, for every 32-bit number, in at most five bytes |
| Coding.Varint64RoundTrip | BookSelf/Pods/leveldb-library/util/coding.cc:142-169 | the same for 64 bits and ten bytes |
| Coding.Fixed64RoundTrip | BookSelf/Pods/leveldb-library/util/coding.cc:20-33 | little-endian 64-bit numbers are read back |
| Coding.LengthPrefixedRoundTrip | BookSelf/Pods/leveldb-library/util/coding.cc:98-101 | a length-prefixed slice is read back with the rest of the input |
| Coding.EncodeVarint32 | BookSelf/Pods/leveldb-library/util/coding.cc:47-73 | the five unrolled branches write the varint of the specification |
| Coding.EncodeVarint64 | BookSelf/Pods/leveldb-library/util/coding.cc:81-90 | the loop writes the same varint |
| Coding.DecodeVarint | BookSelf/Pods/leveldb-library/util/coding.cc:112-157 | the shift-and-accumulate loops decode any bytes as the specification does, bits beyond the width lost |
| Checksums.UnmaskMask | BookSelf/Pods/leveldb-library/util/crc32c.h:29-38 | unmasking undoes masking |
| Checksums.MaskUnmask | BookSelf/Pods/leveldb-library/util/crc32c.h:29-38 | masking undoes unmasking, so a stored checksum belongs to one checksum only |
| LogFormat.PhysicalRecordRead | BookSelf/Pods/leveldb-library/db/log_reader.cc:189-271 | a physical record is read back whole, or its cut counts as end of file without a report |
| LogFormat.EmittedRead | BookSelf/Pods/leveldb-library/db/log_reader.cc:56-174 | a record split into fragments is put together again, or is the end of the file if cut |
| LogFormat.CutLogRead | BookSelf/Pods/leveldb-library/db/log_reader.cc:56-174 | from any cut of an appended log the reader yields exactly the records wholly inside and reports no corruption |
| LogFormat.WholeRecordsEnd | BookSelf/Pods/leveldb-library/db/log_writer.cc:34-80 | those records end within the cut and the next one does not |
| LogFormat.LogRoundTrip | BookSelf/Pods/leveldb-library/db/log_writer.cc:34-108 | reading back any list of appended records gives that list |
| LogSound.FragmentIsStored | BookSelf/Pods/leveldb-library/db/log_reader.cc:189-271 | on any file, a fragment that the reader accepts is byte for byte what the writer stores for its type and payload, behind the trailer at most |
| LogSound.BadChecksumIsRefused | BookSelf/Pods/leveldb-library/db/log_reader.cc:243-257 | a header whose stored checksum is not that of its type and payload never yields a fragment |
| LogSound.RecordIsStored | BookSelf/Pods/leveldb-library/db/log_reader.cc:56-174 | on any file, a record the reader returns is the payload of one full fragment, or of a first one, middle ones and a last one, stored in that order between where reading began and where it ended |
| LogSound.ReadsOnlyWhatIsStored | BookSelf/Pods/leveldb-library/db/log_reader.cc:56-174 | on any file, corrupt ones included, all records returned are so stored, one behind the other |
| LogFiles.Writer.AddRecord | BookSelf/Pods/leveldb-library/db/log_writer.cc:34-80 | appends the fragments and trailers of the format, at any block offset |
| LogFiles.Writer.EmitPhysicalRecord | BookSelf/Pods/leveldb-library/db/log_writer.cc:82-108 | appends header, masked checksum and payload |
| LogFiles.Reader.ReadPhysicalRecord | BookSelf/Pods/leveldb-library/db/log_reader.cc:189-271 | over any file, corrupt ones included, what the buffered reader returns, where it stands and what it reports is what the format's reader says |
| LogFiles.Reader.ReadRecord | BookSelf/Pods/leveldb-library/db/log_reader.cc:56-174 | the same for logical records |
| LogFiles.ReadLog | BookSelf/Pods/leveldb-library/db/log_reader.cc:56-174 | all records and reports of a file, as the format's reader says |
| BlockFormat.StoredEntryRead | BookSelf/Pods/leveldb-library/table/block.cc:54-74 | an entry decodes to its key, completed from the previous key, and its value |
| BlockFormat.FastPathAgrees | BookSelf/Pods/leveldb-library/table/block.cc:54-74 | the one-byte fast path agrees with three varints |
| BlockFormat.RestartPointRead | BookSelf/Pods/leveldb-library/table/block.cc:99-102 | the restart array gives the offsets of its entries |
| Blocks.BlockBuilder.Add | BookSelf/Pods/leveldb-library/table/block_builder.cc:72-106 | the block's content grows by exactly the pair, for increasing keys and any restart interval >= 1, and its bytes by the entry that shares the longest common prefix with the last key, or nothing at a restart |
| Blocks.BlockBuilder.Finish | BookSelf/Pods/leveldb-library/table/block_builder.cc:62-70 | entries, restart array and count form a well-formed block |
| Blocks.BlockIter.Seek | BookSelf/Pods/leveldb-library/table/block.cc:163-201 | binary search over restarts plus linear scan lands on the first key >= target, or past the end |
| Blocks.BlockIter.Prev | BookSelf/Pods/leveldb-library/table/block.cc:142-161 | lands on the immediate predecessor, or invalid at the first entry |
| Blocks.BlockIter.ParseNextKey | BookSelf/Pods/leveldb-library/table/block.cc:224-251 | decodes the entry at the next offset and keeps the restart index up |
| Blocks.BlockIter.Next | BookSelf/Pods/leveldb-library/table/block.cc:137-140 | the next entry in order |
| Blocks.BlockIter.SeekToLast | BookSelf/Pods/leveldb-library/table/block.cc:208-213 | the last entry |
| Separators.FindShortestSeparator | BookSelf/Pods/leveldb-library/util/comparator.cc:29-53 | changed exactly if a byte fits in where start and limit first differ; then it lies between them and no string from start up to limit is shorter |
| Separators.FindShortSuccessor | BookSelf/Pods/leveldb-library/util/comparator.cc:55-66 | changed unless all bytes are 0xff; then it is after the key, and no string from the key on is shorter |
| Separators.FindShortestInternalSeparator | BookSelf/Pods/leveldb-library/db/dbformat.cc:69-86 | an internal key at or after the block's last key, cut exactly if that makes the user key shorter, and then before every user key of the next block |
| Separators.FindShortInternalSuccessor | BookSelf/Pods/leveldb-library/db/dbformat.cc:88-101 | an internal key at or after the given one, shorter exactly if a byte before the last of the user key is not 0xff |
| Separators.LookupStaysInBlock | BookSelf/Pods/leveldb-library/table/table.cc:216-244 | a lookup key between a block's last key and its separator has no entry of its user key in later blocks |
| Bloom.CreateFilter | BookSelf/Pods/leveldb-library/util/bloom.cc:28-54 | appends a filter of the right size whose bits are exactly those that the probes of the given keys select, for any hash function |
| Bloom.KeyMayMatch | BookSelf/Pods/leveldb-library/util/bloom.cc:56-80 | the probing loop computes the matching predicate of the filter, short filters and reserved encodings included |
| Bloom.MatchesIffProbesShared | BookSelf/Pods/leveldb-library/util/bloom.cc:28-80 | a key matches a created filter if and only if each of its probes selects a bit that a probe of some added key selects: added keys always match, and in an empty filter nothing does |
| FilterBlocks.FilterBlockBuilder.StartBlock | BookSelf/Pods/leveldb-library/table/filter_block.cc:21-27 | keys so far go to the filter of their block offset; further ones get empty filters up to the new offset |
| FilterBlocks.FilterBlockBuilder.GenerateFilter | BookSelf/Pods/leveldb-library/table/filter_block.cc:51-75 | exactly the pending keys form the next filter |
| FilterBlocks.FilterBlockBuilder.Finish | BookSelf/Pods/leveldb-library/table/filter_block.cc:35-49 | filters, offsets and encoding parameter form a well-formed filter block |
| FilterBlocks.FilterBlockReader.KeyMayMatch | BookSelf/Pods/leveldb-library/table/filter_block.cc:90-104 | looks in the filter of the block offset; errors count as matches |
| FilterBlocks.KeysOfGroupMatch | BookSelf/Pods/leveldb-library/table/filter_block.cc:77-104 | the answer at any offset of a filter range is that of the filter of exactly the keys added for it: no false negatives, and any other key is refused unless all its probes meet bits of those keys |
| TableFormat.HandleRoundTrip | BookSelf/Pods/leveldb-library/table/table_builder.cc:102-109 | block handles in the index are read back |
| TableFormat.BlockAnswers | BookSelf/Pods/leveldb-library/table/table.cc:216-244 | what the block named by the index answers is what a linear search over the table answers |
| TableFormat.Table.InternalGet | BookSelf/Pods/leveldb-library/table/table.cc:216-244 | index seek, filter test and block seek report an entry of the user key exactly when a linear search over all entries does |
| TableBuilders.TableBuilder.Add | BookSelf/Pods/leveldb-library/table/table_builder.cc:94-123 | the table grows by exactly the entry, for increasing internal keys; the data block is closed exactly when it has reached the block size, so every closed one is at least that large and the open one is smaller |
| TableBuilders.TableBuilder.Flush | BookSelf/Pods/leveldb-library/table/table_builder.cc:125-139 | the open block, if it has bytes, becomes the next data block with exactly its entries; nothing is added or lost |
| TableBuilders.TableBuilder.Finish | BookSelf/Pods/leveldb-library/table/table_builder.cc:198-253 | the finished table holds exactly the added entries and meets what InternalGet needs |
| TableBuilders.FlushKeepsFilter | BookSelf/Pods/leveldb-library/table/table_builder.cc:125-139 | StartBlock leaves every key in the filter in which its block's offset is looked up |
| WriteBatchCodec.RecordsRoundTrip | BookSelf/Pods/leveldb-library/db/write_batch.cc:42-80 | iterating the bytes of a batch calls the handler with exactly its operations in order |
| WriteBatchCodec.RepRoundTrip | BookSelf/Pods/leveldb-library/db/write_batch.cc:82-96 | sequence number, count and operations are read back from the bytes |
| WriteBatchCodec.WriteBatch.Append | BookSelf/Pods/leveldb-library/db/write_batch.cc:111-147 | the operations of the source follow, and the count in the header is their sum |
| WriteBatchCodec.WriteBatch.Iterate | BookSelf/Pods/leveldb-library/db/write_batch.cc:42-80 | on any bytes: the handler is called with the records up to the end or the first bad one, and the status is OK exactly if all are good and as many as the header says; so for every batch built by its methods |
| WriteBatchCodec.WriteBatch.InsertInto | BookSelf/Pods/leveldb-library/db/write_batch.cc:116-137 | operation i gets the batch's sequence number plus i, up to the first bad record |
| WriteBatchCodec.CutBatchIsRefused | BookSelf/Pods/leveldb-library/db/write_batch.cc:42-80 | a batch of which any part of the end is missing is never accepted, and the handler has seen a prefix of its operations |
| VersionEditCodec.EditRoundTrip | BookSelf/Pods/leveldb-library/db/version_edit.cc:41-205 | decoding an encoded edit gives every field back; it equals the edit if and only if the target had no compaction pointers, which Clear leaves in place |
| VersionEditCodec.FieldRoundTrip | BookSelf/Pods/leveldb-library/db/version_edit.cc:107-190 | each tagged field is applied once and decoding goes on behind it |
| VersionEditCodec.EncodeTo | BookSelf/Pods/leveldb-library/db/version_edit.cc:41-85 | the loops write the present scalars, then pointers, deletions and additions in order |
| VersionEditCodec.DecodeFrom | BookSelf/Pods/leveldb-library/db/version_edit.cc:107-205 | on any bytes, corrupt ones included, the loop gives what the field-by-field reading gives, or a corruption status |
| VersionEditCodec.DecodedIsOk | BookSelf/Pods/leveldb-library/db/version_edit.cc:88-205 | whatever bytes are accepted, the edit is one that can be written again: every level exists, every number fits its width, the deleted files are a set |
| PbFieldIter.FieldIter.Next | BookSelf/Pods/nanopb/pb_common.c:20-76 | from any field, the next one around, with the data pointer at the member's offset in the struct and the right required-field number, unions and arrays included |
| PbFieldIter.FieldIter.Find | BookSelf/Pods/nanopb/pb_common.c:78-97 | the first field with the tag going around from the current one, or the iterator unmoved if there is none |
| PbFieldIter.MembersAreApart | BookSelf/Pods/nanopb/pb.h:399-405 | members of one union share an offset; any two other members do not overlap, the later one behind the whole of the earlier |
| PbDecode.PbVarint32RoundTrip | BookSelf/Pods/nanopb/pb_decode.c:187-247 | the 32-bit decoder gives back every number below 2^32 from its minimal encoding |
| PbDecode.NumberRoundTrip | BookSelf/Pods/nanopb/pb_decode.c:1279-1422 | sign extension, zigzag and the overflow checks of every field width give the number back |
| PbRoundTrip.ValueRoundTrip | BookSelf/Pods/nanopb/pb_decode.c:1328-1564 | every value of every type decodes from its encoding, submessages recursively |
| PbRoundTrip.StringRoundTripIffTerminated | BookSelf/Pods/nanopb/pb_encode.c:875-899 | a string comes back if and only if its array holds a terminator; one that fills the array is sent and then refused |
| PbRoundTrip.ZeroMessageIsDefault | BookSelf/Pods/nanopb/pb_encode.c:240-337 | a proto3 submessage left out as zero is what decoding starts from |
| PbRoundTrip.UnionRoundTrip | BookSelf/Pods/nanopb/pb_decode.c:466-478 | the chosen member of a oneof comes back, over storage with no member chosen |
| PbRoundTrip.PackedRoundTrip | BookSelf/Pods/nanopb/pb_decode.c:425-453 | a packed array within its maximum comes back item by item |
| PbRoundTrip.EachRoundTrip | BookSelf/Pods/nanopb/pb_decode.c:454-464 | an unpacked array comes back from one field per item |
| PbRoundTrip.MessageRoundTrip | BookSelf/Pods/nanopb/pb_decode.c:928-1090 | for every well-formed descriptor and message (required, optional, proto3 singular, repeated, packed, oneof, nested) decoding its encoding into a default struct gives the message with absent members at their defaults |
| PbRoundTrip.RoundTripIffTerminated | BookSelf/Pods/nanopb/pb_decode.c:1481-1517 | of the messages the encoder sends, exactly those come back whose strings are all terminated within their arrays, at any depth, in arrays, oneofs and submessages; all others are refused as a whole |
| PbEncoder.EncodeTo | BookSelf/Pods/nanopb/pb_encode.c:528-550 | on a counting or writing stream of any size: succeeds exactly if the arrays and byte fields fit their maxima and the stream has room, and then counts and appends exactly the encoding |
| PbEncoder.EncodeSubmessageTo | BookSelf/Pods/nanopb/pb_encode.c:717-765 | the second pass sends exactly as many bytes as the counting pass found, so the "submsg size changed" branch is never taken |
| PbEncoder.EncodeArrayTo | BookSelf/Pods/nanopb/pb_encode.c:147-236 | numbers packed behind their total size, other items one field each; more items than the maximum fail |
| PbEncoder.EncodeSlotTo | BookSelf/Pods/nanopb/pb_encode.c:341-426 | a field is sent exactly when its rule says it is present |
| PbEncoder.EncodeVarintTo | BookSelf/Pods/nanopb/pb_encode.c:608-628 | the buffer loop sends the varint of the specification |
| PbEncoder.EncodedSize | BookSelf/Pods/nanopb/pb_encode.c:567-576 | the size reported is the length of the encoding |
| PbDecoder.DecodeVarint32From | BookSelf/Pods/nanopb/pb_decode.c:187-247 | the loop decodes any bytes as the specification of the 32-bit decoder does |
| PbDecoder.FindField | BookSelf/Pods/nanopb/pb_common.c:78-97 | the circular search finds the only slot with the tag from any starting field |
| PbDecoder.AllRequiredSeen | BookSelf/Pods/nanopb/pb_decode.c:1040-1073 | the bitmap check holds exactly if every tracked required field was seen |
| PbDecoder.DecodeSlotFrom | BookSelf/Pods/nanopb/pb_decode.c:406-483 | each repetition rule stores what the specification says, on any bytes; by PbBounds within the size of its storage |
| PbDecoder.DecodeNoInit | BookSelf/Pods/nanopb/pb_decode.c:928-1076 | on any bytes, unknown and malformed fields included, the loop returns what the recursive specification returns, which PbBounds and PbEvolution are about |
| PbDecoder.SkipFieldFrom | BookSelf/Pods/nanopb/pb_decode.c:321-331 | unknown fields of every wire type are skipped as the specification says |
| PbBounds.DecodedFits | BookSelf/Pods/nanopb/pb_decode.c:406-483 | whatever bytes are decoded on top of a struct within its sizes, if decoding succeeds the struct is within its sizes: array counts, byte arrays and terminated strings at every depth |
| PbBounds.DecodedWithin | BookSelf/Pods/nanopb/pb_decode.c:1078-1090 | what pb_decode makes of any bytes is within those bounds, so the encoder would send it, and so is what decoding more bytes on top of it makes |
| PbBounds.AbsentOverfullShows | BookSelf/Pods/nanopb/pb_decode.c:1524-1541 | it is not enough that the members present are within bounds at first: an absent submessage with an overfull array becomes present as it is |
| PbBounds.ArrayGrowsToItsMaximum | BookSelf/Pods/nanopb/pb_decode.c:425-464 | an array that is full takes no further item, packed or not; otherwise the items received are added behind those there |
| PbEvolution.SlotSkipped | BookSelf/Pods/nanopb/pb_decode.c:321-331 | a field of any type and rule whose tags the receiver does not know is skipped and changes nothing |
| PbEvolution.NothingSentIffAllAbsent | BookSelf/Pods/nanopb/pb_encode.c:341-426 | an encoding is empty exactly if every field is absent by its rule: no has_ flag, proto3 zero, no items, no chosen member |
| PbEvolution.DecodedAcrossVersions | BookSelf/Pods/nanopb/pb_decode.c:928-1076 | between versions of a message type, shared fields come back as sent, fields only the receiver has stay at their defaults, fields only the sender has are ignored; decoding fails if and only if the sender lacks a required field that is tracked |

## Left out

- Database.RunsReadLikeHistory: takes compactions that uncover nothing, and each as one step; FlushMeanwhile.RunsReadLikeHistory has the steps in between.
- FlushMeanwhile.RunsReadLikeHistory: takes compactions that uncover nothing (see SplitKey) and outputs no flushed table lies across (see GapCompaction); both are the exact conditions.
- FlushMeanwhile.NextKeepsOk: the compaction is a value with a begin and an end, not the loop of DoCompactionWork with the flush inside; Database.DBImpl.RunCompaction runs that loop without a flush.
- Database.DBImpl.Write: one entry at a time; batches and groups are in WritePath and Batches.
- StoreIterator.NewInternalIterator: the children are cursors on lists. TwoLevelIterator and MergingIterator have the same moves over their positions, but DBIter is proved over such a cursor on the union, not over the merging object.
- BusyRecovery.ReopenedReadsPrefix: a crash cuts only the newest log, as in Recovery; the compaction takes part as a value with a begin and an end.
- InstallEdits.MergeFiles: stands for MakeInputIterator; the merging and concatenating iterators are proved on their own in Merger and TwoLevel and only their sorted run is used here.
- Compaction.DoCompactionWork: where output files are cut (ShouldStopBefore, size limit) is nondeterministic, and unparsable internal keys are not part of the input.
- Inputs.PickCompaction: the level score, seek statistics and read sampling are not modelled; any level and file may be picked.
- Inputs.CompactRange: file sizes are numbers of the model; the cut-off by size is kept.
- Merger.MergingIterator.Next: children hold pairwise distinct keys, so the branch that steps over an equal key is an assertion that it is not reached.
- LogFormat.CutLogRead: reading starts at offset 0; initial_offset and resynchronisation are not modelled.
- LruCaches.LRUCache.Insert: one shard; the choice of a shard by hash is not modelled, and the modulus by a power of two is written as a remainder.
- MemTableList.SkipList.Insert: keys are real numbers, since any finite order embeds in them; nodes are indices into an arena.
- SkipLists.EverySearchAnswers: memory operations are sequentially consistent steps; the acquire and release orders of the source are not modelled.
- Recovery.ReopenedReadsPrefix: a crash cuts only the newest log past its synced length; LostLogs treats cuts of rotated logs. Manifest writes are atomic.
- Replay.Open: the directory listing is already sorted, log reuse is off, and the recovered tables are installed one at a time, which OneBuilderReplaysAll justifies.
- WritePath.EveryWriteOnce: no I/O errors, and nothing is claimed about null batches that another group absorbs.
- ObsoleteFiles.NothingNeededIsDeleted: a table exists or not; partial table files and failing deletions are not modelled.
- TableFormat.Table.InternalGet: the table is opened at its index and filter; footer, metaindex block, block checksums, compression and the block cache are not modelled. The filter gets user keys, as InternalFilterPolicy passes them on.
- TableBuilders.TableBuilder.Finish: block and file sizes stay below 2^32 and 2^64, and no write fails.
- Blocks.BlockBuilder.Add: block contents stay below 2^32 bytes, as the 32-bit offsets demand.
- Bloom.CreateFilter: the hash is any total function and the number of probes any number from 1 to 30, in place of the floating-point product.
- Checksums.UnmaskMask: the checksum itself is any function with Extend(Extend(c, a), b) = Extend(c, a + b); its tables are not modelled.
- WriteBatchCodec.WriteBatch.InsertInto: the sequence number plus the number of updates does not wrap around 64 bits.
- PbBounds.DecodedFits: the defaults of required members fit their storage, as the generator writes them.
- PbEvolution.DecodedAcrossVersions: a submessage field is shared only if both sides have the same version of its type.
- LogSound.BadChecksumIsRefused: about checksums that differ; bytes whose checksum happens to match are accepted, here as in the source. The reader always checks, as the store opens its logs.
- PbEncoder.EncodeTo: the struct is a value, not memory with offsets; offsets are in PbFieldIter. Callbacks, extensions, pointer fields and fixed-count arrays are not modelled, and the sum of sizes does not overflow size_t.
- PbRoundTrip.MessageRoundTrip: the whole encoding is shorter than 2^32 bytes, the limit of the 32-bit length decoder, and proto3 singular numbers, strings and byte fields have no default but zero, as the generator writes them. Strings are terminated; RoundTripIffTerminated says what happens otherwise.
- PbDecoder.DecodeVarint32From: the shift counter of the source has at least eight bits and wraps behind 36 continuation bytes on platforms where it has no more; here it does not wrap.
- PbDecode.PbVarint32RoundTrip: about minimal encodings.
- PbDecoder.DecodeNoInit: message types without fields and a field number of 0 in the input meet the terminator of the descriptor in the source, which is not modelled.
- User keys of the store models are the ranks of byte strings as real numbers; UserKeys shows that this loses nothing of the order.
- A table's metadata and contents are one value in the store models, and memtables are sorted runs there; MemTableList and TableFormat treat the structures.
- Corrupt files other than through the log reader, the edit decoder and the nanopb decoder; RepairDB; log reuse.
- env_posix.cc, loggers, status.cc, c.cc, histogram.cc: operating system calls, formatting and wrappers.
- Snappy, mmap and memory ownership (`delete`, `free`).
- The application's Swift code, the other pods and BoringSSL: screens, network calls and headers without bodies.

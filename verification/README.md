# AkwaDB, modelled and proved

A Dafny model of the storage engine and of the data structures it is built from: the timestamp oracle
and optimistic transactions, the log-structured tree with its lock-free memtable, its table files, its
reads, flushes and compactions, the value log and its garbage accounting, the write-ahead log and its
replay, and the commands that do more than one read or write (SCAN, prefix scans, sorted sets, bitmaps,
INCRBY, the replication backlog).

The central statement is about the engine as a whole. A transaction's gets walk the tree step by step
while other transactions commit, memtables rotate, tables are flushed, merged and closed. In every run, a
successful commit none of whose own gets went wrong replays alone, in commit-timestamp order, with the
answers it was given, whatever the other transactions were told. A step of a get goes wrong when it looks
across a restart point of a table; or when it leaves out what it should look at (a memtable lookup passed by
an insert, a table closed meanwhile), and the newest version there is not still ahead of the get, or is ahead
but behind something already loaded that holds an older one. A get that leaves nothing out and crosses
nothing is never wrong: that what it loads is in order, so that its first hit is the newest version of the
store, is proved from the order of the stages. Each way of going wrong has a run in which it breaks the
promise, and for a get left alone the exact condition is given.

How the files depend on one another, bottom up:

- `Store`, `ByteOrder`, `Encoding`, `Entries`: byte strings and their order, cells (key and version),
  payloads, what a reader observes of them, integers in bytes.
- `Oracle`, `OracleClass`, `Transactions`, `TransactionClass`, `SerialDatabase`, `Serializability`: the
  oracle as a value and as a class with its indexed history, transactions as a step system, what running
  them one at a time means, what every run keeps.
- `SkipList`, `SkipListReaders`: the memtable, and a lookup without locks beside a writer.
- `SSTable`, `Bloom`, `TableFile`, `TableCursor`: records, blocks with restart points, filters, whole
  table files, the iterator over them.
- `MergeIterators`, `Compaction`, `Tables`, `Levels`, `StorageTree`: merging, version garbage collection,
  levels, and the tree as a class whose every method is a step of the layered store.
- `LsmStages`, `LsmRefinement`, `LevelJumps`: the layered store as a step system, refined to one flat map,
  and what a merge past a level does to reads.
- `ReadPath`, `ReadRefinement`, `MemtableReads`: the same with the reads as the code performs them, lookup
  by lookup, and the memtable lookup among them tied to the one without locks.
- `EngineSystem`, `EngineSerializability`, `OwnReads`, `EngineMisses`: transactions over that tree.
- `ValueLog`, `SegmentBytes`, `SegmentRefs`, `Wal`, `Replay`: values kept apart, segments, their bytes and
  references, the log.
- `Formats`: the bytes of files and keys, on examples.
- `Glob`, `GlobPatterns`, `Scan`, `ScanNames`, `ScanCounts`, `ScanTraces`, `PrefixScan`, `Score`, `SortedSet`,
  `Bitmap`, `Increment`, `Replication`: commands.

Integers that the source keeps in 64 unsigned bits and only counts up are natural numbers. Where width
matters it is written out: signed 64-bit offsets and counters wrap (`Bitmap`, `Increment`), lengths fit
their fields (`SSTable`, `Wal`). The clock, fingerprints of keys, encryption and checksums are
parameters.

## Model

| member | source | states |
|---|---|---|
| OracleClass.WaterMark.Begin | oracle.go:26-33 | the multiset of active read timestamps gains one |
| OracleClass.WaterMark.Done | oracle.go:35-55 | it loses one, and the cached minimum stays right |
| OracleClass.WaterMark.MinReadTs | oracle.go:57-66 | the smallest active read timestamp, or the default when there is none |
| OracleClass.Oracle.NewReadTs | oracle.go:110-119 | the new state is `Oracle.Begin` of the old one; the snapshot is the applied horizon |
| OracleClass.Oracle.MarkApplied | oracle.go:127-148 | the horizon moves to the last timestamp before the first one still awaited |
| OracleClass.Oracle.CheckAndCommit | oracle.go:229-255 | refused exactly when the remembered history conflicts; otherwise stamped, remembered, indexed, trimmed |
| OracleClass.Oracle.TrimHistoryLocked | oracle.go:289-307 | forgets exactly the commits no active or future snapshot needs and keeps the per-key index equal to the postings of what is left |
| OracleClass.Oracle.AbortCommit | oracle.go:309-337 | takes exactly one commit out of history and index |
| OracleClass.LatestConflicts | oracle.go:263-271 | the latest indexed write of a fingerprint is after a snapshot if and only if some remembered commit says so |
| TransactionClass.Transaction.Get | txn.go:61-86 | own writes first, whatever their expiry: the value, or not found if deleted; then the snapshot, recorded in the read set; the new record is the read step of the transaction system |
| TransactionClass.Transaction.SetEx | txn.go:92-111 | refused when closed or read-only; otherwise the write step |
| TransactionClass.Transaction.StartCommit | txn.go:150-177 | commit up to the batch is exactly the check step: refused, stamped or nothing to do |
| TransactionClass.Transaction.EndCommit | txn.go:150-177 | nothing where commit stops at its first guard; otherwise a failed batch takes its commit back and the snapshot is released |
| TransactionClass.Transaction.Finish | txn.go:32-59 | commit and the deferred rollback after it release the snapshot exactly once, however the transaction ended |
| Serializability.Serializable | txn.go:32-177 | in every state of every run every successful commit replays in commit-timestamp order |
| Serializability.SnapshotSerializable | txn.go:61-86 | every transaction, whatever becomes of it, reads the serial database of its own timestamp |
| Serializability.RefusedExactly | oracle.go:229-255 | a commit is refused if and only if a commit not taken back is stamped after its snapshot and shares a fingerprint with it: trimming never hides one |
| Serializability.PastIsSettled | oracle.go:127-148 | what a snapshot can see never changes later in the run |
| Serializability.AppliedInOrder | engine_write.go:394-460 | when a version of a key is stored every stored version of the key is older |
| Serializability.HorizonCatchesUp | oracle.go:137-148 | with no batch under way the horizon has reached the counter |
| Serializability.WatermarkGrows | oracle.go:173-178 | no step lowers the watermark, so a sample stays a lower bound |
| SerialDatabase.ExecuteOkIff | txn.go:61-111 | the serial replay succeeds if and only if every read got the transaction's own last write before it, or else what the database holds unless deleted or expired, told from the calls by their place |
| SerialDatabase.DbHolds | txn.go:150-177 | the serial database holds the last committed write of a key |
| SerialDatabase.DbLacks | txn.go:150-177 | and no key that was never written |
| OwnReads.OwnWritesRead | txn.go:66-73 | in every run, a read of a key the transaction has written returns what it wrote last |
| OwnReads.BeginSees | oracle.go:110-119 | a transaction begins at the horizon: its snapshot has every commit with nothing awaited before it, and all of them if no batch is under way |
| SkipList.MemTable.PutVersion | memtable/skiplist.go:124-174 | the contents become the old ones with the entry in front of its key's versions; every level stays a sorted sublist of the one below |
| SkipList.MemTable.GetByVersion | memtable/skiplist.go:307-344 | the newest version of the key up to the bound, with no writer beside it |
| SkipListReaders.WriteSound | memtable/skiplist.go:124-174 | after every single pointer store the structure is in order |
| SkipListReaders.LookupExact | memtable/skiplist.go:307-344 | beside any writer, a finished lookup is right if and only if no smaller key was linked behind its predecessor before the reload, or nothing was visible |
| SkipListReaders.LookupFinds | memtable/skiplist.go:307-344 | what a lookup finds, told from the list at the moment it reloads its candidate |
| SkipListReaders.LookupMisses | memtable/skiplist.go:317-320 | a run in which a visible key is not found |
| Bloom.Filter.Add | bloom/bloom.go:64-79 | sets the probes of the key and loses nothing added before |
| Bloom.Filter.MayContain | bloom/bloom.go:81-98 | no key that was added is denied |
| SSTable.RecordRound | sstable/sstable.go:81-99 | a record read where it was written comes back, without the value of a tombstone |
| SSTable.BlockRound | sstable/sstable.go:946-967 | the restart array of a block is read back |
| SSTable.ScanLinear | sstable/sstable.go:1118-1149 | the first visible version of the key in the block |
| SSTable.FindRestart | sstable/sstable.go:1151-1180 | where the binary search over restart points settles |
| SSTable.ScanRestart | sstable/sstable.go:1151-1221 | what the scan from that restart point returns |
| SSTable.RestartAgreesIff | sstable/sstable.go:1118-1221 | both scans agree if and only if the key's versions do not cross its first restart point with the search looking at that point last |
| SSTable.CrossingMisses | sstable/sstable.go:1151-1221 | a block of seventeen records in which the restart search returns the older of two versions |
| TableFile.Build | sstable/sstable.go:335-436 | the blocks hold the run as cut by size, never between two versions of a key |
| TableFile.CutBySize | sstable/sstable.go:394-399 | every block but the last has at least 4096 bytes, and fewer without its last key |
| TableFile.Create | sstable/sstable.go:317-436 | a table written from any sorted run: its blocks, a filter with all its keys and one with all their prefixes |
| TableFile.FindBlock | sstable/sstable.go:1235-1250 | the last block whose first key is not larger |
| TableFile.Get | sstable/sstable.go:1224-1276 | what a lookup through filter, index and block returns on a written table |
| TableFile.LookupIff | sstable/sstable.go:1224-1276 | it is the newest visible version of the run if and only if the versions do not cross a restart point of their block |
| TableFile.TableMisses | sstable/sstable.go:1224-1276 | a table that answers with the older of two versions |
| TableFile.ReadAll | sstable/sstable.go:1281-1329 | gives back the run the table was written from |
| TableCursor.Cursor.Seek | sstable/sstable.go:1417-1461 | stands at the first record of the whole table whose key is not smaller, in a later block if need be, or at the end |
| TableCursor.Cursor.Next | sstable/sstable.go:1463-1480 | moves on by exactly one record of the table, across blocks |
| TableCursor.ReadFrom | sstable/sstable.go:1345-1480 | seeking and moving on yields exactly the rest of the table |
| TableCursor.MergeFiles | engine_compaction.go:259-273 | merging cursors over the files is merging the runs they were written from |
| MergeIterators.MergeVersions | iterator/iterator.go:273-302 | a permutation of the inputs in storage order |
| MergeIterators.MergeKeys | iterator/iterator.go:104-158 | every key once, increasing, with its newest version |
| Compaction.Keep | engine_compaction.go:439-455 | of one key, everything above the watermark and the first version at or below it |
| Compaction.Drain | engine_compaction.go:408-523 | tables sorted across their borders that hold exactly the surviving versions, no key in two of them, and exactly the others charged |
| Compaction.LevelWriter.MaybeFlush | engine_compaction.go:497-501 | the buffered entries become a table exactly when they weigh eight mebibytes or more |
| Compaction.OutputHolds | engine_compaction.go:439-480 | told from the versions: kept is what is above the watermark or the newest at or below it, unless that is one version alone, deleted or expired, that may go; expired versions become tombstones |
| Compaction.OutputReadsAgree | engine_compaction.go:439-464 | version garbage collection changes no read at or above the watermark, from then on |
| Tables.SearchLevel | engine_read.go:56-76 | what the loop over a level's tables finds |
| Tables.LevelHitIs | engine_read.go:56-76 | the newest version of the level, unless its versions cross a restart point |
| Tables.OverlapIff | engine_compaction.go:242-256 | ranges are apart if and only if all keys of one table are in front of all keys of the other |
| Levels.Overlapping | engine_compaction.go:242-256 | exactly the tables of the target level that overlap a chosen one |
| Levels.SortByMinKey | engine_compaction.go:288-290 | the same tables by first key |
| Levels.ChosenMergeable | engine_compaction.go:227-313 | merging the chosen tables is a merge the layered store allows |
| Levels.MergedContent | engine_compaction.go:275-297 | the new level holds exactly what the merge installs |
| StorageTree.LevelTree.Insert | engine_write.go:440-460 | the insert step of the layered store on a sorted memtable |
| StorageTree.LevelTree.RotateImm | engine_flush.go:104-158 | the first pointer store of a rotation |
| StorageTree.LevelTree.RotateMem | engine_flush.go:104-158 | the second pointer store |
| StorageTree.LevelTree.InstallFlush | engine_flush.go:44-102 | the flushed memtable becomes the newest table of level 0 |
| StorageTree.LevelTree.InstallMerge | engine_compaction.go:275-297 | the install step: the target level replaced under its lock |
| StorageTree.LevelTree.RemoveFromLevel | engine_flush.go:160-182 | the remove step: the inputs leave the upper level |
| StorageTree.LevelTree.CompactLevel0 | engine_compaction.go:227-313 | all of level 0 into the base level, the flat store unchanged |
| StorageTree.LevelTree.CompactLevelTable | engine_compaction.go:331-398 | one table leaves for the next level, the others stay, the flat store is unchanged |
| StorageTree.LevelTree.GetAt | engine_read.go:36-78 | a read with nobody beside it answers the value of the newest version in the flat store, nothing if that is deleted, expired or not there, unless versions cross a restart point |
| LsmRefinement.ReadsAreFlat | engine_read.go:36-78 | in every run of inserts, rotations, flushes and merges, with stage visits that find what is there, a read answers as one flat map of everything inserted |
| LsmRefinement.Sinks | engine_compaction.go:275-297 | no step lifts a version that a snapshot may still see to a level above |
| LsmRefinement.FirstIsNewest | engine_read.go:36-78 | of the stages from one on, if the first has a version a snapshot can see, it has the newest of them all |
| LevelJumps.OrderKeptIffNoJump | engine_compaction.go:227-313 | a merge keeps newer versions above older ones if and only if no level in between holds a key that moves down |
| LevelJumps.ReadsKeptIff | engine_compaction.go:227-313 | a merge changes no read at or above its watermark if and only if no version that can still be seen moves down past another one of its key |
| LevelJumps.JumpReadsStale | engine_write.go:131-160 | a run from the empty store to one in which a merge past a level makes a read return an older version |
| ReadRefinement.LoadLeads | engine_read.go:36-62 | whatever a get loads (a memtable, the second one, a copy of a level) is in order: the first of it that has a version the get can see has the newest one of the store |
| ReadRefinement.ReadsFrom | engine_read.go:36-78 | from any moment at which the newest version a get can see is ahead of it and nothing older is loaded in front: if none of its own steps goes wrong it answers as the flat map does, whatever the other gets do |
| ReadRefinement.ReadsAreFlat | engine_read.go:36-78 | so from its start: loading pointers, copying levels and probing tables in separate steps, it answers as one flat map of everything inserted |
| ReadRefinement.GetCanMove | engine_read.go:36-78 | in every state a get that has not returned can take a step |
| ReadRefinement.MoveGoesOn | engine_read.go:36-78 | and every step takes it to a later stage of the read, or leaves less to do in the one it is in |
| ReadRefinement.AloneExact | engine_read.go:36-78 | left alone, a get answers from the newest version it can see, or from none if that is none or dead and collected, if and only if it does not look across a restart point and does not leave that version out with nothing ahead that has it, or with something already loaded that has an older one and is not left out in its turn |
| ReadRefinement.SpoiltIsMissed | engine_read.go:36-78 | if no step goes wrong, none of that happens |
| ReadRefinement.AloneExactInRuns | engine_read.go:36-78 | so it is for every get in every state of every run |
| MemtableReads.SearchEnds | memtable/skiplist.go:307-320 | a lookup without locks that no insert passes stands, when its search ends, at the last smaller key |
| MemtableReads.LookupIsFinds | memtable/skiplist.go:307-344 | what it then finds is what the get's memtable step finds in the memtable at the moment the candidate is loaded |
| EngineSerializability.EngineSerializable | txn.go:61-177 | in every run of the engine, a successful commit none of whose own gets went wrong replays alone in commit-timestamp order with the answers it got |
| EngineSerializability.EngineSnapshots | engine_read.go:36-78 | and every transaction, whatever becomes of it, none of whose gets went wrong reads its own snapshot |
| OwnReads.EngineOwnWritesRead | txn.go:66-73 | in every run of the engine a transaction reads its own writes, whether or not its gets go wrong |
| OwnReads.EngineAnswers | engine_read.go:36-78 | and, if none of its gets went wrong, of any other key the value that the last commit up to its snapshot gave it, unless deleted or expired; or nothing |
| OwnReads.EngineBeginSees | oracle.go:110-119 | with no batch under way, a transaction that begins sees every commit |
| EngineSerializability.StepInstall | engine_compaction.go:410-464 | a merge installed with a watermark sampled earlier keeps every invariant |
| EngineMisses.PassedBreaks | memtable/skiplist.go:317-320 | an engine run with a memtable lookup passed by an insert, and a commit that does not replay |
| EngineMisses.ClosedBreaks | engine_read.go:58-66 | the same with a copied table closed before its probe, and its content in a table of the same level |
| EngineMisses.OlderBreaks | engine_read.go:58-66 | the same with the newer of two copied tables closed, and the older one probed before the level that has the version now |
| EngineMisses.SkipHarmless | engine_read.go:58-66 | a run in which a closed table is skipped, its content being in a level still to be copied: the get returns the committed value, and its transaction commits and replays |
| EngineMisses.CrossingBreaks | sstable/sstable.go:1151-1221 | the same with versions that cross a restart point |
| ValueLog.StoredValueRound | engine_vlog.go:25-99 | inline or by pointer, a stored value is read back, whatever its bytes |
| ValueLog.AddDiscards | engine_vlog.go:113-121 | the counters grow by exactly what the dropped versions owe each segment |
| ValueLog.DrainCharges | engine_compaction.go:439-464 | what a merge charges is what its dropped versions owe |
| ValueLog.CompactionConserves | engine_compaction.go:408-480 | what a merge keeps and what it charges is no more than what it read |
| ValueLog.BytesConserved | engine_vlog.go:123-131 | in every run, with charges made one by one before the install, pointed-to and charged bytes never exceed the bytes written |
| SegmentBytes.BytesAccounted | engine_vlog.go:113-131 | in every run, of the bytes written to a segment each is pointed to, charged, or lost: to a failed insert, or to an expired version kept as a tombstone |
| SegmentBytes.UnlinkIff | engine_vlog.go:123-131 | in every run, a segment that is not active can be unlinked if and only if as much was charged to it as was written; that is, nothing points to it and nothing of it was lost |
| SegmentBytes.LeakStays | engine_vlog.go:257-283 | a segment with lost bytes is never unlinked |
| SegmentBytes.SegmentGoes | engine_vlog.go:210-284 | a run in which a value is overwritten, merged away and charged, and its segment unlinked |
| SegmentBytes.SegmentLeaks | engine_compaction.go:466-477 | a run in which a value expires and is kept as a tombstone: nothing points to its segment, and it cannot be unlinked |
| ValueLog.NoDangling | engine_vlog.go:210-284 | in every run, a pointer that a reader gets leads to a segment that is still there |
| SegmentRefs.UnlinkedOnce | vlog/vlog.go:105-133 | in every run a segment is unlinked at most once, and exactly once when all have finished |
| SegmentRefs.NoLateReaders | vlog/vlog.go:541-559 | nobody gets a reference once the segment has left the map |
| SegmentRefs.SafeExactlyIfClean | vlog/vlog.go:105-133 | from then on no interleaving unlinks it under a reader if and only if no reader is between giving up the last reference and looking at the mark |
| SegmentRefs.UnsafeReached | vlog/vlog.go:111-124 | five steps that reach the unsafe state |
| Wal.RecordRound | wal/wal.go:188-295 | a record that is all there is read back |
| Wal.TornRecord | wal/wal.go:409-522 | a record cut anywhere is not read |
| Wal.LogFile.Append | wal/wal.go:232-295 | the file is the encoding of the old log and the new record |
| Wal.LogFile.TruncateTo | wal/wal.go:394-406 | the file is the encoding of the first records |
| Wal.LogFile.Recover | wal/wal.go:409-522 | of a file cut anywhere, exactly the records that lie wholly before the cut, and the file is left as their log |
| Replay.ApplyBatch | engine_write.go:394-460 | for every outcome of its appends: it fails and cuts the log back exactly when an append whose error is looked at fails, and otherwise applies the whole batch with the records that were appended |
| Replay.WholeOrNothingIff | engine_write.go:394-460 | a batch is logged and applied as a whole or not at all if and only if it does not go on past a pointer record that could not be appended |
| Replay.DroppedRecord | engine_write.go:435 | a batch that succeeds and whose value is not in the log |
| Replay.ReplayAll | engine.go:376-406 | the memtable that the replay loop fills |
| Replay.AppliedReads | engine_write.go:394-460 | a write is read back until it expires, inline or by pointer, and a deletion reads as nothing |
| Replay.ReplayedReads | engine.go:376-406 | a replayed write reads so too, whatever the thresholds, unless its value looks like a pointer record |
| Replay.DisguisedReads | engine_vlog.go:43-62 | a value that does reads as before if and only if the value log holds it at the place its bytes name |
| Replay.LookalikeLost | engine_vlog.go:43-62 | twenty bytes that read as empty after a replay |
| Replay.ReplayKeepsReads | engine.go:376-406 | replaying the log of any sequence of writes gives a memtable that answers every lookup as before |
| Glob.MatchCharClass | engine_read.go:721-746 | whether a byte is in a class, and where the class ends |
| Glob.GlobMatch | engine_read.go:669-719 | true if and only if the tokens of the pattern match the whole string: backtracking to the latest star is enough |
| GlobPatterns.EmptyPattern | engine_read.go:669-719 | the empty pattern matches the empty text and nothing else |
| GlobPatterns.StarMeans | engine_read.go:669-719 | a star matches any bytes: the rest of the pattern matches some rest of the text |
| GlobPatterns.AnyMeans | engine_read.go:669-719 | a question mark matches one byte |
| GlobPatterns.EscapeMeans | engine_read.go:669-719 | a backslash takes the next byte as it is, and matches nothing at the end |
| GlobPatterns.LiteralMeans | engine_read.go:669-719 | any other byte matches itself |
| GlobPatterns.ClassMeans | engine_read.go:721-746 | bytes in brackets match one of them, after a caret one that is not among them |
| GlobPatterns.RangeMeans | engine_read.go:721-746 | a range in brackets matches one byte from its first to its last, after a caret any other |
| GlobPatterns.UnclosedMeans | engine_read.go:669-719 | a bracket that is never closed matches itself |
| Scan.ScanPage | engine_read.go:563-645 | the names of one page and the cursor where it ends |
| ScanNames.LogicalKeyIff | engine_read.go:547-561 | a key has a name if and only if it has no type and is the name, or is 's' and NUL and the name, or one of 'h', 't', 'l', 'z', 'b' and NUL, the name without NULs, NUL and anything |
| ScanNames.WrittenKeys | internal/encoding/zset_encoding.go:35-45 | the keys that sorted sets and bitmaps write have the name of their set or bitmap |
| ScanNames.ScanStore | engine_read.go:563-645 | following the cursors, a client is told exactly the wanted names of which a key of one of these kinds is live |
| ScanNames.ScanEachKind | engine_read.go:547-645 | of a store with one key of each kind a scan of everything names all six |
| ScanCounts.PageEndsFull | engine_read.go:582-640 | a page ends at the last row, with `count` names, or after four times as many rows, at least 64 and at most 8192 |
| ScanCounts.PageCountsRows | engine_read.go:582-640 | without composite keys it looks at no more rows than that |
| ScanCounts.CountKeptIff | engine_read.go:617-640 | no page has more names than its count, whatever pattern, count and cursor, if and only if no seek past a collection lands on a live row of another name |
| ScanCounts.CountIgnored | engine_read.go:617-640 | two hashes that a page of one name both has |
| Scan.PageReports | engine_read.go:563-645 | if pages do not turn back and no string shadows another, a page moves on and reports exactly the wanted names of the rows it moved over |
| Scan.SkippedSameName | engine_read.go:647-667 | the keys a reseek skips belong to the name just met, unless that is a string with a NUL in its name, and then they are other strings that it shadows: they start with its bytes up to the NUL, not followed by byte 255 |
| Scan.MovesOnIff | engine_read.go:647-667 | pages move on, whatever pattern, count and cursor, if and only if no two keys of a collection follow its name, and no two strings their bytes up to a first NUL, with byte 255, the later one live |
| Scan.ReturnsIff | engine_read.go:563-667 | a client gets back to cursor 0 for every pattern and count under exactly that condition |
| Scan.CursorRepeats | engine_read.go:647-667 | two hash fields for which the page's cursor repeats |
| Scan.TurnBackStalls | engine_read.go:647-667 | for every such pair, a page of one name from the later key does not move on |
| Scan.ScanAll | engine_read.go:563-645 | following the cursors ends; if no string shadows another, the pages name exactly the wanted names that have a live key |
| ScanTraces.OmitsIff | engine_read.go:563-667 | for every pattern and count, a client back at cursor 0 has not been told a wanted name with a live key if and only if every live key of the name is shadowed by a row that was met |
| Scan.LosesNameIff | engine_read.go:647-667 | a step of a page jumps over an unmet name if and only if its key shadows a later live string |
| Scan.NameLost | engine_read.go:647-667 | two live strings of which a scan of everything names one |
| PrefixScan.PrefixFixed | internal/encoding/prefix.go:5-11 | if a prefix may be asked of the filter, every key with it was entered under the same filter prefix |
| PrefixScan.FilterKeyIff | internal/encoding/prefix.go:5-11 | the filter is asked for exactly the prefixes with two NULs |
| PrefixScan.ScanPrefix | engine_read.go:295-319 | cursors over the tables that the filters let through give the newest entry of every key with the prefix in all tables, unless deleted or expired, and no other key |
| Score.ScoreOrder | internal/encoding/zset_encoding.go:10-23 | byte order of encodings is numeric order of scores |
| Score.ScoreRound | internal/encoding/zset_encoding.go:10-33 | decoding gives the score back, negative zero as zero |
| SortedSet.UnusedAgrees | engine_collections.go:595-636 | a store that holds nothing of a set, an empty one among others, satisfies the invariant for it |
| SortedSet.Sets.ZAddMulti | engine_collections.go:595-636 | member index and score index stay in agreement, a given member gets the score of the last pair that names it, no set that its name does not run into changes, and the count is the number of given members that were not there |
| SortedSet.Sets.ZRem | engine_collections.go:690-720 | both indexes lose exactly the given members |
| SortedSet.CountsRemovedIff | engine_collections.go:690-720 | the count is the number of members that go away if and only if none of them is given twice; it is never less |
| SortedSet.RemovedTwice | engine_collections.go:690-720 | a set of one member whose removal counts two |
| SortedSet.Sets.ZRangeByScore | engine_collections.go:652-688 | exactly the members with a score in range, each once, by score and then by member |
| SortedSet.Sets.ZScore | engine_collections.go:638-650 | the score last set |
| Bitmap.Bitmaps.SetBit | engine_collections.go:749-783 | that bit and no other changes, over any number of pages |
| Bitmap.Bitmaps.GetBit | engine_collections.go:785-805 | whether the bit is set |
| Bitmap.BitWeights | engine_collections.go:749-805 | the first bit of a byte counts 128, the last one 1 |
| Bitmap.CountBitsInRange | engine_collections.go:895-922 | the number of set bits between two places of a page |
| Bitmap.Bitmaps.BitCountRange | engine_collections.go:818-893 | the bitmap has one length, and for that length what the paged count returns; the asked-for count when the range is exact |
| Bitmap.CountsRightIff | engine_collections.go:818-893 | for every length and all 64-bit bounds, the count is right on every bitmap if and only if the range is exact |
| Bitmap.AskedMeans | engine_collections.go:818-860 | what a range asks for: bytes or bits from a first to a last one, counted from the end if negative |
| Bitmap.OverflowCountsNothing | engine_collections.go:840-860 | a bitmap with one bit set whose count up to the largest offset is 0 |
| Increment.FormatRound | engine_write.go:63-76 | a 64-bit number written in decimal is parsed back |
| Increment.FormatIs | engine_write.go:63-76 | a number is written with its digits only, no zeros in front, and a minus sign if it is negative |
| Increment.ParseIff | engine_write.go:63-76 | a text is parsed if and only if it is one or more digits with or without a sign whose number fits 64 bits, and to that number |
| Increment.ParseExamples | engine_write.go:63-76 | "+5" is 5; letters, a sign alone and the empty text are no numbers |
| Increment.FinishMeans | engine_write.go:57-99 | nothing, a deleted, an expired and an empty value count as zero; any other value is parsed, and refused if it is not a number; the sum is written |
| Increment.OneIncrement | engine_write.go:57-99 | a run in which a key that is not there is incremented |
| Increment.NoLostIncrement | engine_write.go:57-99 | after any interleaving a key is the counter its increments give one after another, expiry included |
| Increment.IncrementsAddUp | engine_write.go:57-99 | increments before the expiry add up in 64-bit arithmetic and put the expiry off by exactly the time between their two clock readings |
| Increment.ExpiryKeptIff | engine_write.go:58-62 | they leave the expiry as it was if and only if each of them read the same time twice |
| Increment.ExpiryDrifts | engine_write.go:58-62 | a counter that expires at 100 and, once incremented, at 101 |
| Replication.Backlog.Push | server/replication.go:56-69 | the ring holds the last writes, as many as fit |
| Replication.Backlog.Since | server/replication.go:80-104 | exactly the writes after the given one, or a refusal exactly when it is zero, unknown or overwritten |
| Replication.RunHolds | server/replication.go:639-660 | after replaying a log a key has the value of its last entry, and is not there if that deletes it or there is none |
| Replication.SinceCatchesUp | server/replication.go:80-104 | a replica that applies them has that state of the whole log, which is the master's, even if it had already applied some |
| Replication.EveryRunCatchesUp | server/replication.go:639-660 | after any run of writes and interrupted replays, replaying the rest gives every key the value of the last write to it |
| Formats.TableRecord | sstable/sstable.go:81-91 | the bytes of a table record |
| Formats.TombstoneRecord | sstable/sstable.go:81-91 | and of a tombstone, which has no value |
| Formats.BlockTrailer | sstable/sstable.go:946-967 | the bytes at the end of a block |
| Formats.LogHeader | wal/wal.go:276-282 | the bytes of a log header |
| Formats.LogOperations | wal/wal.go:188-295 | a put is logged as operation 1, a deletion as 2 without value |
| Formats.Pointers | engine_vlog.go:25-62 | the bytes of pointers in tables and in the log |
| Formats.Keys | internal/encoding/zset_encoding.go:35-45 | the keys of sorted sets and bitmaps |
| Formats.ScoreOne | internal/encoding/zset_encoding.go:10-23 | the key of the score 1.0 |

## Findings

Properties the code does not have on all inputs. Each has a concrete input and, for all inputs, the exact
condition.

| finding | source | shown by | exact condition |
|---|---|---|---|
| a lookup without locks ends its search, then loads its candidate again; a smaller key linked in between makes it find nothing | memtable/skiplist.go:307-320 | `SkipListReaders.LookupMisses`, `EngineMisses.PassedBreaks` | `SkipListReaders.LookupExact` |
| versions of a key on both sides of a restart point: the search starts at the later ones | sstable/sstable.go:1036-1105 and 1151-1221 | `SSTable.CrossingMisses`, `TableFile.TableMisses`, `EngineMisses.CrossingBreaks` | `SSTable.RestartAgreesIff`, `TableFile.LookupIff` |
| a read copies a level without taking references; a table closed before its probe is skipped, and its content may by then be in a table of a level already copied, or behind an older table of the same copy | engine_read.go:58-66, engine_compaction.go:299-304, 387-391 | `EngineMisses.ClosedBreaks`, `EngineMisses.OlderBreaks`; harmless in `EngineMisses.SkipHarmless` | `ReadRefinement.AloneExact`, `ReadRefinement.AloneExactInRuns` |
| SCAN seeks past a collection with its name and byte 255, which is behind the keys that go on with 255 | engine_read.go:647-657 | `Scan.CursorRepeats`, `Scan.TurnBackStalls` | `Scan.MovesOnIff`, `Scan.ReturnsIff` |
| a reader that gives up the last reference looks at the removal mark only then; another may have joined | vlog/vlog.go:111-124 | `SegmentRefs.UnsafeReached` | `SegmentRefs.SafeExactlyIfClean` |
| an inline value of twenty bytes that starts with the pointer magic is replayed as a pointer | engine_vlog.go:52-62 | `Replay.LookalikeLost` | `Replay.DisguisedReads`, `Replay.ReplayedReads` |
| the base level is chosen from the size of the last level alone, so level 0 may be merged past a level that holds older versions | engine_write.go:131-160, engine_compaction.go:238 | `LevelJumps.JumpReadsStale` | `LevelJumps.ReadsKeptIff`, `LevelJumps.OrderKeptIffNoJump` |
| the error of appending a pointer record is dropped, so a batch with a large value may succeed without its log record | engine_write.go:94, 435, 483, 658 | `Replay.DroppedRecord` | `Replay.WholeOrNothingIff` |
| an expired version that a merge keeps becomes a tombstone without its pointer, and its bytes are charged to nobody, so its segment is never unlinked | engine_compaction.go:466-477, engine_vlog.go:123-131 | `SegmentBytes.SegmentLeaks` | `SegmentBytes.UnlinkIff`, `SegmentBytes.LeakStays` |
| SCAN does not look at its count after a seek past a collection | engine_read.go:617-640 | `ScanCounts.CountIgnored` | `ScanCounts.CountKeptIff` |
| SCAN seeks past the strings that begin like a name with a NUL in it | engine_read.go:647-657 | `Scan.NameLost` | `ScanTraces.OmitsIff`, `Scan.LosesNameIff` |
| BITCOUNT turns byte offsets into bit offsets in 64 bits | engine_collections.go:840-860 | `Bitmap.OverflowCountsNothing` | `Bitmap.CountsRightIff` |
| INCRBY reads the clock twice to keep a TTL, so the expiry moves by the time in between | engine_write.go:58-62 | `Increment.ExpiryDrifts` | `Increment.ExpiryKeptIff` |
| ZREM counts a member that is given twice twice | engine_collections.go:690-720 | `SortedSet.RemovedTwice` | `SortedSet.CountsRemovedIff` |

## Left out

- LsmRefinement.ReadsAreFlat: a stage is visited in one step that finds what is there; `ReadRefinement.ReadsAreFlat` is the statement for the steps of the code.
- ReadRefinement.ReadsFrom: for a get none of whose own steps goes wrong. Beside other steps only this direction is stated: a step that goes wrong because something older is loaded in front is harmless if that is left out too, and a later step of others may still bring the version ahead of the get. `ReadRefinement.AloneExact` is exact for a get left alone.
- ReadRefinement.ReadsAreFlat: the same.
- EngineSerializability.EngineSerializable: for a transaction none of whose own gets went wrong; and the merges of its runs do not jump over a level that holds one of their keys, for `LevelJumps.ReadsKeptIff` says what those do.
- EngineSerializability.EngineSnapshots: the same.
- StorageTree.LevelTree.GetAt: the answer is stated for keys whose versions do not cross a restart point in any table.
- StorageTree.LevelTree.CompactLevel0: requires that the levels above the base level are empty, which the code does not check; `LevelJumps.ReadsKeptIff` says what happens otherwise.
- TableFile.Build: the source takes an empty first key for no first key; the model keeps the two apart.
- TableFile.Create: the checks on field widths (an index key above 65535 bytes is an error in the source) are a precondition.
- Wal.LogFile.Recover: files that were cut; files with bytes changed in the middle are not modelled.
- Replay.ApplyBatch: an append that fails leaves no bytes in the log; a failed truncation is not modelled.
- ValueLog.NoDangling: relocation of live values before a segment is unlinked is not modelled, so a segment goes only when everything in it has been charged.
- Scan.PageReports: for stores on which pages do not turn back and no string shadows another; `Scan.MovesOnIff` and `ScanTraces.OmitsIff` say what happens otherwise.
- Scan.ScanAll: for stores on which pages do not turn back, for which `Scan.ReturnsIff` says that a client returns; the store does not change between pages; names of a page are a set, not a list.
- ScanTraces.OmitsIff: the store does not change between pages.
- SortedSet.Sets.ZAddMulti: what it leaves of sets whose name is the given one followed by a NUL and more, or the other way round, is not stated; their keys may be the same. Not-a-number scores are excluded.
- SortedSet.Sets.ZRem: the same for such names.
- Bitmap.Bitmaps.SetBit: keeps the bits of every other bitmap, but that only pages are under the prefix of another name is kept only for names it does not run into.
- PrefixScan.ScanPrefix: the tables do not change during the scan.
- Increment.NoLostIncrement: nobody else writes the key; disk-full and log errors are not modelled.
- Score.ScoreOrder: not-a-number scores are excluded; floating-point values are their bit patterns.
- Replication.EveryRunCatchesUp: expiry of replicated values and full synchronisation are not modelled.
- Puts, deletes and increments outside transactions next to transactions: they take timestamps without the conflict check.
- NewTransactionAt, CommitAt, RecordCommitted, Bump and BeginRead: timestamps chosen by the caller.
- Errors of flushes, tables and disks, and what they leave behind.
- Crash atomicity between the log, the tables and the manifest; reopening from the manifest.
- Which level to compact and when: size limits, tombstone ratios, throttling.
- Priorities between equal versions in the read merge.
- Counters that run out of 64 unsigned bits.
- Compression, encryption, checksums and files, beyond the round trips they are parameters of.
- Hashes, lists, plain sets, the expiry heap, ingest, checkpoints and archives: they would add easy members.
- Sessions, Raft and the wire protocol.

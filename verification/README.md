# Storage and messages of the device app, verified

The app's two vendored systems with hard logic are modelled here and proved correct in Dafny 4.11: the LevelDB storage
engine (`ios/Pods/leveldb-library`) and the nanopb Protocol Buffers codec (`ios/Pods/nanopb`). `dafny verify
dfyconfig.toml` checks everything.

## LevelDB

The specification of the whole engine is one small thing: a database is a set of entries (user key, sequence number,
kind, value), and a read of a key at a snapshot returns what the newest entry of the key at or below the snapshot says
(`Entries.Read`). Every layer refines it.

| layer | files | what is proved |
|---|---|---|
| bytes | Encodings, Coding, Crc, Crc32c, Checksum, Log, LogReader, LogDamage, Block, Bloom, FilterBlock, TableFormat, TableLayout, Table, TableBuild, VersionEdit, WriteBatch, Formats | what every decoder makes of any bytes, and round trips from what is written to what is read: cut and damaged logs, prefix-compressed blocks, whole table files with shortened separators and filters, MANIFEST records, write batches; the checksum is CRC-32C, the formats are also spelled out in literal bytes |
| ordered runs | KeyOrder, Iterators, Merger, Internal, TwoLevel, DbIter | every mix of Seek, Next and Prev is a cursor in a sorted list: the union of runs, the concatenation of blocks, the live keys at a snapshot of the merged memtables and tables |
| memory | Skiplist, MemTable, Ring, HandleTable, Cache, Snapshots | the memtable with readers between the writer's stores, the LRU cache, the snapshot list |
| levels | Files, Reads, Inputs, Compaction, Grandparents, Installs, Boundary, BoundaryRun, Manifest, Recovery, ManifestBytes | lookups, choice of compaction inputs, the compaction loop and how its outputs are cut, installing results, replaying the MANIFEST from its bytes |
| runs | WriteQueue, Database, DatabaseState, DatabaseSteps, DatabaseJobs, DatabaseOpen, DatabaseRuns, DatabaseReopen, DatabaseProgress, Commits, Durability | a state machine over group commit, memtable switch, flush, compaction, file removal, crash and recovery: every read of every run reads the history, a crash loses only tails of logs, the database can always be reopened and its memtables flushed, and a write that was told OK is read from then on, after a crash too if it asked for a sync |

How the code is represented: objects the code updates in place are classes with the same fields, and their loops are
loops with invariants. Pointers into an arena, a hash chain or a ring are numbers looked up in maps, so that a store of
a pointer is a store in the model. Concurrency (the write queue, readers of the skip list) is a state machine whose
steps are what happens under one lock or in one atomic access. User keys are their ranks in the database's order;
`KeyOrder.RankIsOrder` gives the ranks for the default bytewise comparator, and the table and the memtable work with the
bytes. A method that decodes accepts any bytes and returns what a reading function gives for them; lemmas say what that
function gives for bytes that were written.

Where the code does not keep a promise, the model follows the code:

- A compaction can bring a deleted value back. `SetupOtherInputs` adds the files that continue the last user key of its
  inputs for the compacted level but not for the next one. `Boundary.NextLevelBoundaryResurrects` is a concrete case;
  `BoundaryRuns.WitnessIsReached` is a run that gets there. The exact condition is that no dropped marker exposes a value
  left behind (`Installs.InstallPreservesReadsIff`); runs hold exactly such compactions
  (`DatabaseRuns.CompactionIsUnseenIff`), and `Installs.NextLevelClear`, which a caller can look up in the version, is
  enough for it.
- `VersionEdit::Clear` leaves the compaction pointers, so decoding into a used object is exact only if it had none
  (`VersionEdits.RoundTrip`).
- The reader of a log knows its end by the number 5, one above the record types. A fragment with the type byte 5 and the
  right checksum ends the log, and nothing is reported (`LogDamage.FiveEndsTheLog`). Damage to whole blocks costs only the
  records in them if there is no such fragment among them (`LogDamage.DamageIsLocal`).
- The check of a block entry adds two 32-bit lengths, so in a damaged block an entry can pass it and reach out of the
  block (`Blocks.StrayEntry`); it does so exactly if its lengths add up to 2^32 or more (`Blocks.EntryInside`).

## nanopb

Descriptors nest to any depth, with required, optional, proto3, repeated, packed, fixed-count and oneof fields of all
scalar, string, bytes and message types.

| part | files | what is proved |
|---|---|---|
| wire format | Wire, WireFormat | the bytes of a message (`Nanopb.MessageBytes`) are, for a reader written after the Protocol Buffers Encoding specification ("Base 128 Varints", "Message Structure", "Signed Integers", "Packed Repeated Fields"), exactly the records of the values present |
| encoder | Nanopb, NanopbEncode | over a sizing or a writing stream it emits these bytes, exactly if there are any and they fit |
| decoder | NanopbParse, NanopbDecode, NanopbFits | on any bytes it is a reading function, whose results fit in the struct |
| both | NanopbRoundTrip, NanopbUnknown, NanopbRestored | exactly when decoding succeeds and what it restores, with the same descriptor, with one that lacks fields and with one that has more; when encoding again gives the same bytes |

Where the code does not keep a promise:

- A char array filled to its last byte has no terminator. The encoder sends it; the decoder has no room for it. Decoding
  succeeds exactly if there is no such array (`NanopbRoundTrip.EncodeThenDecode`; `NanopbRestored.FullArrayIsRefused` is a
  concrete one).
- Encode, decode, encode again does not always send the same bytes: a zero in a proto3 field with another default comes
  back as the default (`NanopbRestored.ZeroIsLost`), and a submessage that is only sent because of a union tag that
  names no member comes back as zero (`NanopbRestored.StrayChoiceIsLost`). `NanopbRestored.Keeps` is the exact
  condition.

## Model

| member | source | states |
|---|---|---|
| Entries.NewestExists | ios/Pods/leveldb-library/db/dbformat.h:166-169 | If any entry of a user key is visible at a snapshot, one of them is the newest, so a read is well defined. |
| Entries.SameRead | ios/Pods/leveldb-library/db/dbformat.h:166-169 | Two sets of entries give the same read when neither shows a value the other does not show as its newest. |
| Reads.SeekFindsNewest | ios/Pods/leveldb-library/db/dbformat.cc:47-63 | In a sorted run the first entry at or after (key, snapshot) is the newest visible entry of the key if it has that user key; otherwise no entry of the key is visible. |
| Reads.SearchFile | ios/Pods/leveldb-library/db/table_cache.cc:100-112 | A search of one table hits exactly the newest visible entry, or nothing if none is visible, whatever the filter spares, as long as it has no false negatives. |
| Reads.FindFile | ios/Pods/leveldb-library/db/version_set.cc:87-104 | Binary search: the first file whose largest key is at or after the target; all before it end too early. |
| Reads.SearchSortedLevel | ios/Pods/leveldb-library/db/version_set.cc:305-321 | Below level 0 one file decides: the hit is the newest visible entry of the whole level. |
| Reads.SortNewestFirst | ios/Pods/leveldb-library/db/version_set.cc:277-295 | The files come back as a permutation in strictly descending file number. |
| Reads.SearchLevel0 | ios/Pods/leveldb-library/db/version_set.cc:281-303 | On level 0, asking only the covering files, newest first, and stopping at the first that knows the key finds the newest visible entry of the level. |
| Reads.VersionGet | ios/Pods/leveldb-library/db/version_set.cc:324-400 | Level by level with early stop finds the newest visible entry over all levels, given that shallower is newer. |
| Reads.DatabaseGet | ios/Pods/leveldb-library/db/db_impl.cc:1110-1155 | MAIN: memtable, then immutable memtable, then levels: the answer is the read specification on the union of all entries. |
| Inputs.GetOverlappingInputs | ios/Pods/leveldb-library/db/version_set.cc:498-538 | Ends in spite of the level-0 restarts, and returns exactly the files overlapping the least range that covers the asked one and out of which, on level 0, no overlapping file sticks. |
| Inputs.FoundIsUnique | ios/Pods/leveldb-library/db/version_set.cc:498-538 | There is only one such list of files, in the order of the level. |
| Inputs.HitsSharesKey | ios/Pods/leveldb-library/db/version_set.cc:516-521 | The comparison of ends takes a file exactly if it shares a user key with the range. |
| Inputs.FindLargestKey | ios/Pods/leveldb-library/db/version_set.cc:1303-1317 | The largest key of the files, or none for no files. |
| Inputs.FindSmallestBoundaryFile | ios/Pods/leveldb-library/db/version_set.cc:1321-1339 | Of the files that continue the user key at which the chosen files end, the one with the smallest key; none only if there is no such file. |
| Inputs.AddBoundaryInputs | ios/Pods/leveldb-library/db/version_set.cc:1355-1378 | Ends; appends, one by one, the file with the smallest key of those that continue the last user key, until no file of the level does, and nothing if none does. |
| Inputs.GetRange | ios/Pods/leveldb-library/db/version_set.cc:1182-1201 | The smallest and the largest key of the files. |
| Inputs.CloseInputs | ios/Pods/leveldb-library/db/version_set.cc:1384-1399 | The closed inputs leave no file of the level that holds an older entry of one of their user keys. |
| Inputs.NextLevelInputs | ios/Pods/leveldb-library/db/version_set.cc:1385-1392 | The files taken from the next level are exactly those overlapping the user-key range of the inputs. |
| Inputs.ExpandInputs | ios/Pods/leveldb-library/db/version_set.cc:1394-1410 | The attempt to grow the inputs keeps every input and again leaves no older entry of their user keys in the level. |
| Inputs.SetupOtherInputs | ios/Pods/leveldb-library/db/version_set.cc:1380-1439 | MAIN: with I0 the closure of the picked files, I1 its overlap and E0 the grown candidate: the inputs become E0 if and only if it has more files, the sizes of I1 and E0 stay below the limit and E0 overlaps as many next-level files; else they are I0. Either way they are closed towards older entries, the next level gives the files of I1, and the grandparents are the overlap of the level after that. |
| Inputs.SameShare | ios/Pods/leveldb-library/db/version_set.cc:1401-1410 | Grown inputs overlap no fewer files of the next level; if they overlap as many, they overlap the same. |
| Inputs.PickCompaction | ios/Pods/leveldb-library/db/version_set.cc:1247-1299 | Whichever file the scores point at is in the inputs, on level 0 with every file it overlaps, and from there they are what SetupOtherInputs makes of them. |
| Inputs.CompactRange | ios/Pods/leveldb-library/db/version_set.cc:1441-1472 | A manual compaction has no inputs if and only if no file overlaps the range; otherwise it starts from those files, above level 0 cut behind the first at which the sizes reach the limit. |
| Compactions.Compaction.IsBaseLevelForKey | ios/Pods/leveldb-library/db/version_set.cc:1510-1529 | The pointers only move forward, and yet the answer is right for keys asked in ascending order: no deeper file has the key in its range. |
| Compactions.HiddenByPrevious | ios/Pods/leveldb-library/db/db_impl.cc:947-972 | One remembered sequence number decides whether some newer entry of the key, visible to every live snapshot, hides this one. |
| Compactions.DecideDrop | ios/Pods/leveldb-library/db/db_impl.cc:939-973 | The drop decision for an entry is exactly the two rules: hidden by a newer entry, or a deletion marker with nothing below. |
| Compactions.DoCompactionWork | ios/Pods/leveldb-library/db/db_impl.cc:887-1020 | The outputs hold exactly the surviving entries in order, in valid files with disjoint ranges and consecutive numbers. Each ends at the first place where the builder has reached the size or ShouldStopBefore demands it of the next key, and nowhere else. |
| Compactions.Compaction.ShouldStopBefore | ios/Pods/leveldb-library/db/version_set.cc:1531-1556 | True exactly if the files of the level below the output that have ended since the last stop, or the first key, hold more bytes than allowed; asked in ascending order. |
| Compactions.OutputsMeetFew | ios/Pods/leveldb-library/db/version_set.cc:28-32 | MAIN: the files of that level which an output of DoCompactionWork overlaps hold no more bytes than allowed, not counting the last one. |
| Compactions.CompactionPreservesReadsIff | ios/Pods/leveldb-library/db/db_impl.cc:910-1009 | MAIN: a compaction is invisible to every read at a snapshot still in use if and only if no dropped deletion marker has an older value of its key left outside the inputs. |
| Compactions.CompactionPreservesReads | ios/Pods/leveldb-library/db/db_impl.cc:910-1009 | MAIN: with inputs closed towards older entries (except in levels below the output, which IsBaseLevelForKey consults) every such read is preserved. |
| Boundary.NextLevelBoundaryResurrects | ios/Pods/leveldb-library/db/version_set.cc:1384-1387 | The property fails as the code stands: with user keys "a" and "b", inputs picked by SetupOtherInputs leave out the next level's boundary file and bring a deleted value back. |
| BoundaryRuns.WitnessIsReached | ios/Pods/leveldb-library/db/version_set.cc:1384-1387 | MAIN: a run of the database, from its creation, with writes, a snapshot, flushes and a compaction, reaches that version with nothing in memory; there the marker picked exposes the deleted value. |
| Installs.SomeFileOverlapsRange | ios/Pods/leveldb-library/db/version_set.cc:121-156 | True exactly if some file overlaps, by one binary search where the files are disjoint. |
| Installs.PickLevelForMemTableOutput | ios/Pods/leveldb-library/db/version_set.cc:470-495 | Level 0 if something there overlaps; else the deepest level up to 2 on the way to which no next level overlaps the table and no level after that has too many overlapping bytes. |
| Installs.FlushKeepsReadable | ios/Pods/leveldb-library/db/db_impl.cc:500-575 | A table of the newest entries, put at such a level under the highest number, keeps newest-first level 0, disjoint deeper levels, and shallower-is-newer. |
| Installs.CompactionKeepsReadable | ios/Pods/leveldb-library/db/db_impl.cc:869-885 | Installing any outputs made of input entries keeps all those orders. |
| Installs.ChosenInputsAreClosed | ios/Pods/leveldb-library/db/version_set.cc:1380-1439 | What SetupOtherInputs picks is closed towards older entries, given the same of the next level's share. |
| Installs.InstallPreservesReads | ios/Pods/leveldb-library/db/db_impl.cc:869-1058 | MAIN: picking, merging, dropping and installing together leave every read at a live snapshot unchanged, if no left-out file of the next level continues its inputs' last user key. |
| Installs.InstallPreservesReadsIff | ios/Pods/leveldb-library/db/db_impl.cc:869-1058 | MAIN: without that assumption, they do so if and only if no marker dropped exposes a value left behind. |
| Installs.ClearExposesNothing | ios/Pods/leveldb-library/db/version_set.cc:1384-1387 | If no left-out file of the next level continues the inputs' last user key, nothing is exposed. |
| Manifest.ReplayEqualsHistory | ios/Pods/leveldb-library/db/version_set.cc:629-715 | MAIN: all edits through one builder give the same files as one version per edit, if a number stands for one file. |
| Manifest.Builder.Apply | ios/Pods/leveldb-library/db/version_set.cc:629-669 | After an edit the builder's deleted and added sets are those the edits so far amount to. |
| Manifest.Builder.SaveTo | ios/Pods/leveldb-library/db/version_set.cc:672-715 | Every level comes out ordered by smallest key and holds exactly base plus added minus deleted files. |
| Manifest.MergeLevel | ios/Pods/leveldb-library/db/version_set.cc:678-697 | Merging base and added files by upper bounds yields one ordered list of the surviving ones. |
| Manifest.Replay | ios/Pods/leveldb-library/db/version_set.cc:629-715 | One builder over decoded edits rebuilds exactly the version that was current after the last one. |
| Manifest.NewVersion | ios/Pods/leveldb-library/db/version_set.cc:777-860 | LogAndApply's new version is the version of the history with one more edit. |
| Manifest.WriteSnapshot | ios/Pods/leveldb-library/db/version_set.cc:1080-1087 | The snapshot edit of a version adds every file of every level. |
| Manifest.SnapshotRebuilds | ios/Pods/leveldb-library/db/version_set.cc:1080-1087 | Replaying the files a snapshot saves, and nothing else, rebuilds the current version. |
| VersionEdits.InsertedIs | ios/Pods/leveldb-library/db/version_edit.cc:169-175 | Inserting into the ascending set of deleted files keeps it ascending and adds just that element. |
| VersionEdits.RecordsApply | ios/Pods/leveldb-library/db/version_edit.cc:41-84 | Applying the records of an edit to a cleared one gives the edit back, behind the compaction pointers Clear leaves in place. |
| VersionEdits.VersionEdit.Clear | ios/Pods/leveldb-library/db/version_edit.cc:26-39 | Everything is reset except the compaction pointers. |
| VersionEdits.VersionEdit.EncodeTo | ios/Pods/leveldb-library/db/version_edit.cc:41-84 | Appends the bytes of exactly the records of the edit. |
| VersionEdits.VersionEdit.DecodeFrom | ios/Pods/leveldb-library/db/version_edit.cc:105-203 | MAIN: on any bytes: decoding succeeds if and only if the bytes are well-formed records and nothing else; they are applied in order to the cleared edit, repeated ones included. |
| VersionEdits.RecordsRead | ios/Pods/leveldb-library/db/version_edit.cc:105-203 | Reading as DecodeFrom does, wherever records of EncodeTo start, gives those records. |
| VersionEdits.RoundTrip | ios/Pods/leveldb-library/db/version_edit.cc:41-203 | MAIN: an edit decodes to itself; into an object used before, if and only if that had no compaction pointers. |
| Recovery.CountersAreLast | ios/Pods/leveldb-library/db/version_set.cc:924-942 | Each counter is the one set by the last edit that sets it, or missing if none does. |
| Recovery.Recover | ios/Pods/leveldb-library/db/version_set.cc:862-987 | MAIN: from any bytes: exactly the version that was current after the last edit, and the last value of each counter; the first record that is malformed or has a foreign comparator is an error, a missing counter is, and nothing else. |
| Recovery.WrittenDecodes | ios/Pods/leveldb-library/db/version_set.cc:862-987 | Records that were written are read as the edits they were written for. |
| Recovery.RecoversForOpen | ios/Pods/leveldb-library/db/version_set.cc:862-987 | MAIN: what Recover reads is the version and the counters with which the state machine of the database opens. |
| Recovery.WriteSnapshot | ios/Pods/leveldb-library/db/version_set.cc:1064-1092 | The record holds the comparator, the compaction pointers that are set and every file of every level. |
| Recovery.SnapshotMeans | ios/Pods/leveldb-library/db/version_set.cc:1064-1092 | The record means the snapshot edit of the version it was written for. |
| Recovery.SnapshotRestores | ios/Pods/leveldb-library/db/version_set.cc:1064-1092 | MAIN: the record of WriteSnapshot, decoded and replayed, gives back the version it was written for. |
| DatabaseRuns.NextKeeps | ios/Pods/leveldb-library/db/db_impl.cc:222-575 | Every step keeps the invariant: group commit in three steps, memtable switch, flush, compaction, trivial move, snapshots, file removal, a crash that may cut the logs, open and failed open. A compaction is a step if it exposes nothing in the version, see CompactionIsUnseenIff. |
| DatabaseRuns.LayersOrdered | ios/Pods/leveldb-library/db/db_impl.cc:1110-1155 | In every reachable state memtable, immutable memtable and levels are ordered newest first, as a lookup needs. |
| DatabaseRuns.RunsReadTheHistory | ios/Pods/leveldb-library/db/db_impl.cc:1110-1155 | MAIN: in every run, with compactions that expose nothing, a read at a live snapshot, or at the last sequence number, gives the newest write of the key that no crash has lost. |
| DatabaseRuns.GetInRun | ios/Pods/leveldb-library/db/db_impl.cc:1110-1155 | MAIN: the Get of the code, on any state of such a run, reads the history. |
| DatabaseRuns.CompactionIsUnseenIff | ios/Pods/leveldb-library/db/db_impl.cc:869-1058 | MAIN: on inputs picked by SetupOtherInputs a compaction is invisible to readers of a running database, whatever part of the memtables a crash may take, if and only if no marker it drops exposes a value left behind: the proviso of the step. |
| DatabaseRuns.ClearCompactionMayStart | ios/Pods/leveldb-library/db/version_set.cc:1384-1387 | If no left-out file of the next level continues its inputs' last user key, a compaction may start. |
| DatabaseRuns.CrashLosesNothing | ios/Pods/leveldb-library/db/db_impl.cc:289-498 | MAIN: if the logs stay whole: crash anywhere, crash again and fail to reopen any number of times, and reopen: the contents are exactly those before, plus the logged group in flight, in full. |
| DatabaseRuns.CrashLosesOnlyTails | ios/Pods/leveldb-library/db/db_impl.cc:289-498 | MAIN: the same when every crash may cut every log anywhere: exactly what was in the cut records is gone, and all of that was in memory only. |
| DatabaseReopen.OpenExists | ios/Pods/leveldb-library/db/db_impl.cc:289-498 | From every state with the database down some successful open leads on, reusing the last log or not. |
| DatabaseReopen.RecoverySucceeds | ios/Pods/leveldb-library/db/db_impl.cc:289-498 | MAIN: every state a run reaches with the database down can be opened. |
| DatabaseReopen.ManifestIsConsistent | ios/Pods/leveldb-library/db/version_set.cc:862-987 | MAIN: in every state of every run the MANIFEST has counters and meets what its replay asks for. |
| DatabaseReopen.VersionUnder | ios/Pods/leveldb-library/db/version_set.cc:777-860 | Every edit that adds files under new numbers leads to a version LogAndApply can install. |
| DatabaseProgress.MemoryCanBeFlushed | ios/Pods/leveldb-library/db/db_impl.cc:1356-1376 | MAIN: from every state a run reaches with the database open, finishing what is under way, switching and flushing lead to one with empty memtables and the same history; a crash there loses nothing, whatever it takes of the logs. |
| DatabaseProgress.CompactionStarts | ios/Pods/leveldb-library/db/db_impl.cc:888-1020 | When nothing is running, every compaction SetupOtherInputs chooses can start if no left-out file of the next level continues its inputs. |
| DatabaseProgress.FileMoves | ios/Pods/leveldb-library/db/db_impl.cc:716-734 | A file that overlaps nothing in the next level can be moved there as it is, and is then in that level and not in its own. |
| DatabaseProgress.JobFinishes | ios/Pods/leveldb-library/db/db_impl.cc:544-575 | A flush or compaction that has started can be installed. |
| ManifestBytes.ReachableIsStorable | ios/Pods/leveldb-library/db/version_set.cc:862-987 | MAIN: for the MANIFEST of every state of every run there are edits whose bytes Recover accepts and that mean it, if the keys ever written are byte strings and the numbers fit in 64 bits. |
| ManifestBytes.RunsKeepNames | ios/Pods/leveldb-library/db/version_set.cc:777-860 | Every file a MANIFEST names is a valid table of entries that were written. |
| DatabaseRuns.NoTableIsMissing | ios/Pods/leveldb-library/db/db_impl.cc:222-287 | MAIN: file removal never takes a table that recovery needs, and the table still has its contents. |
| DatabaseRuns.StoredIsContents | ios/Pods/leveldb-library/db/db_impl.cc:544-575 | The MANIFEST version plus the live logs hold what readers see, plus the group in flight. |
| DatabaseJobs.InstallFlushKeeps | ios/Pods/leveldb-library/db/db_impl.cc:544-575 | Installing a flush, which drops the older logs from recovery, keeps the invariant. |
| DatabaseJobs.InstallCompactionKeeps | ios/Pods/leveldb-library/db/db_impl.cc:869-885 | Installing a compaction keeps the invariant. |
| DatabaseSteps.RemoveKeeps | ios/Pods/leveldb-library/db/db_impl.cc:222-287 | Removing obsolete tables and logs keeps the invariant. |
| DatabaseSteps.SwitchKeeps | ios/Pods/leveldb-library/db/db_impl.cc:1356-1376 | A new log and memtable keep the invariant. |
| DatabaseSteps.CrashKeeps | ios/Pods/leveldb-library/db/db_impl.cc:289-498 | A crash that leaves any front of each log keeps the invariant: what is settled in tables is untouched, and the logs that are left follow it. |
| DatabaseOpen.OpenKeeps | ios/Pods/leveldb-library/db/db_impl.cc:1478-1519 | Opening, with logs flushed to level 0 or the last one reused, re-establishes the invariant of a running database; the records of a log are those that can be read back. |
| WriteQueue.BuildBatchGroup | ios/Pods/leveldb-library/db/db_impl.cc:1270-1316 | The group is the longest front of the queue that may join (size limit, no sync writer behind a non-sync leader), and the batch merges exactly its members in order. |
| WriteQueue.NextKeeps | ios/Pods/leveldb-library/db/db_impl.cc:1195-1266 | Every step, arrivals while the leader is unlocked included, keeps the queue's invariant. |
| WriteQueue.LoggedOnceInOrder | ios/Pods/leveldb-library/db/db_impl.cc:1195-1266 | MAIN: no arrival is logged twice, and the sequence ranges of logged arrivals follow the queue order without overlap. |
| WriteQueue.OkIsCommitted | ios/Pods/leveldb-library/db/db_impl.cc:1233-1251 | MAIN: a writer told OK has each of its updates in a log record that is also in the memtable; if it asked for a sync, its leader did too and the record was synced. |
| WriteQueue.OkUnlessBlamed | ios/Pods/leveldb-library/db/db_impl.cc:1211-1266 | MAIN: in every run a writer that has its answer was told OK if and only if it was not refused and no append, sync or insertion of its group failed. |
| WriteQueue.SyncErrorIsFinal | ios/Pods/leveldb-library/db/db_impl.cc:1225-1243 | MAIN: after a failed sync every writer gets an error, and log and memtable stay as they are. |
| WriteQueue.EveryWriteCanSucceed | ios/Pods/leveldb-library/db/db_impl.cc:1195-1266 | MAIN: whatever writers arrive, some run tells all of them OK. |
| Commits.MoveExists | ios/Pods/leveldb-library/db/db_impl.cc:1211-1247 | The database can follow every step of the queue that does not fail. |
| Commits.TogetherKeeps | ios/Pods/leveldb-library/db/db_impl.cc:1195-1266 | Queue and database, with background steps in between, reach only states their own runs reach; the history is what was there before and what the queue logged. |
| Commits.EveryAnswerIsOk | ios/Pods/leveldb-library/db/db_impl.cc:1211-1266 | MAIN: in every run of both without a failed or refused write every answer is OK. |
| Commits.ReadYourWrites | ios/Pods/leveldb-library/db/db_impl.cc:1195-1266 | MAIN: in every such run a lookup after a write was told OK returns, for each key it wrote, what it wrote or what a newer write of the key did. |
| Commits.SyncedWritesAreRead | ios/Pods/leveldb-library/db/db_impl.cc:1225-1251 | MAIN: if the write asked for a sync, that also holds after any crashes that lose no synced record, failed attempts to open, and the reopening. |
| Durability.AddedAreEntries | ios/Pods/leveldb-library/db/db_impl.cc:433-446 | The memtable replayed from the bytes of log records holds exactly the entries of their batches. |
| Durability.RecoverLogFile | ios/Pods/leveldb-library/db/db_impl.cc:427-448 | The records of a log all go into the memtable, in order, and the last sequence number is raised to the last of their updates. |
| Durability.SyncedWritesSurvive | ios/Pods/leveldb-library/db/db_impl.cc:1225-1251 | MAIN: in every run of the queue, wherever a crash cuts the bytes of a log file behind its last synced record, the records read back hold every write that asked for a sync and was told OK, whole. |
| Durability.CrashAndRecover | ios/Pods/leveldb-library/db/db_impl.cc:427-448 | MAIN: queue, batch bytes, log bytes, cut, log reader, memtable: the first m records are there and nothing of the others, no corruption is reported, the last sequence number is theirs, and no synced write is missing. |
| WriteBatches.WriteBatch.Put | ios/Pods/leveldb-library/db/write_batch.cc:98-103 | The batch holds one more update at the end; the count in the header is the number of updates modulo 2^32. |
| WriteBatches.WriteBatch.Delete | ios/Pods/leveldb-library/db/write_batch.cc:105-109 | The same for a deletion. |
| WriteBatches.WriteBatch.Append | ios/Pods/leveldb-library/db/write_batch.cc:144-148 | The other batch's updates follow this one's, and the counts add up. |
| WriteBatches.WriteBatch.SetContents | ios/Pods/leveldb-library/db/write_batch.cc:139-142 | The bytes of a batch, as a log record gives them back, make the batch again. |
| WriteBatches.Iterate | ios/Pods/leveldb-library/db/write_batch.cc:42-80 | On any bytes: the handler is given exactly the updates before the first malformed one, in order, whatever the header says; the result is OK if and only if none is malformed and the count in the header is their number, as a 32-bit word. |
| WriteBatches.BatchReads | ios/Pods/leveldb-library/db/write_batch.cc:42-109 | Reading as Iterate does gives the updates of a batch back. |
| WriteBatches.InsertInto | ios/Pods/leveldb-library/db/write_batch.cc:118-137 | MAIN: succeeds, and the memtable takes the updates in order, numbered on from the batch's sequence number, whose numbers make every key new. |
| WriteBatches.InsertUpdate | ios/Pods/leveldb-library/db/write_batch.cc:118-130 | One update enters the memtable under its sequence number. |
| Skiplist.SkipList.FindGreaterOrEqual | ios/Pods/leveldb-library/db/skiplist.h:260-281 | The first node at or after the key, and on every level in use the node before that place; its loads are those of the reader of ReaderFindsFirst. |
| Skiplist.SkipList.FindLessThan | ios/Pods/leveldb-library/db/skiplist.h:283-302 | The last node before the key, or the head. |
| Skiplist.SkipList.FindLast | ios/Pods/leveldb-library/db/skiplist.h:304-322 | The last node, or the head. |
| Skiplist.SkipList.Contains | ios/Pods/leveldb-library/db/skiplist.h:370-378 | True exactly for the keys in the list. |
| Skiplist.SkipList.Insert | ios/Pods/leveldb-library/db/skiplist.h:336-368 | MAIN: the key is added in its place and nothing else changes; the states after each store are a trace of the stores EveryStoreKeepsShape and ReaderFindsFirst are about. |
| Skiplist.StoreKeepsCourse | ios/Pods/leveldb-library/db/skiplist.h:262-281 | No store of the writer leads a reader in the middle of a search astray. |
| Skiplist.EveryStoreKeepsShape | ios/Pods/leveldb-library/db/skiplist.h:337-368 | MAIN: after every single store of a trace, each level is a sorted chain and a sublist of the level below. |
| Skiplist.ReaderFindsFirst | ios/Pods/leveldb-library/db/skiplist.h:262-281 | MAIN: however a reader's loads fall between the stores of a trace, the answer is the first node at or after the target in the list of the moment of the last load. |
| Skiplist.TraceConcat | ios/Pods/leveldb-library/db/skiplist.h:337-368 | The traces of two insertions, one after the other, are one trace. |
| MemTables.MemTable.Add | ios/Pods/leveldb-library/db/memtable.cc:76-99 | The entry's buffer is inserted under its internal key. |
| MemTables.MemTable.Get | ios/Pods/leveldb-library/db/memtable.cc:101-135 | MAIN: the value or deletion found in the buffer is the newest visible entry's; nothing is found only if none is visible. |
| Snapshots.SnapshotList.Oldest | ios/Pods/leveldb-library/db/snapshot.h:46-50 | MAIN: the first in the ring has the smallest sequence number of all snapshots. |
| Snapshots.SnapshotList.New | ios/Pods/leveldb-library/db/snapshot.h:57-70 | The snapshot is linked behind the newest; the numbers stay ascending. |
| Snapshots.SnapshotList.Delete | ios/Pods/leveldb-library/db/snapshot.h:79-86 | Just that snapshot leaves the ring. |
| KeyOrder.RankIsOrder | ios/Pods/leveldb-library/util/comparator.cc:27-29 | The rank used for user keys keeps and reflects the bytewise order and tells all keys apart. |
| KeyOrder.FindShortestSeparator | ios/Pods/leveldb-library/util/comparator.cc:31-52 | The result is at or after start and before limit, and is the shortened string exactly where there is a gap at the first difference. |
| KeyOrder.FindShortSuccessor | ios/Pods/leveldb-library/util/comparator.cc:54-66 | The result is at or after the key: the first byte that is not 0xff incremented, the rest cut off. |
| KeyOrder.InternalSeparator | ios/Pods/leveldb-library/db/dbformat.cc:65-82 | The user key is replaced by its separator, under the largest sequence number, exactly if that is shorter and after it; the result is at or after start and before limit. |
| KeyOrder.InternalSuccessor | ios/Pods/leveldb-library/db/dbformat.cc:84-97 | The user key is replaced by its successor, under the largest sequence number, exactly if that is shorter and after it; the result is at or after the key. |
| KeyOrder.EncodedOrder | ios/Pods/leveldb-library/db/dbformat.cc:15-63 | Comparing encoded internal keys is comparing user keys ascending, then tags descending; the encoding loses nothing. |
| DbIter.ViewIsReads | ios/Pods/leveldb-library/db/db_iter.cc:177-207 | MAIN: the list the iterator shows has exactly the keys a read at the snapshot finds, once each, ascending, with the value the read returns. |
| DbIter.DBIter.FindNextUserEntry | ios/Pods/leveldb-library/db/db_iter.cc:177-207 | Stops at the first live entry that is not of a skipped key; everything passed was hidden or unwanted. |
| DbIter.DBIter.BackUp | ios/Pods/leveldb-library/db/db_iter.cc:236-263 | Going back saves the oldest visible entry passed that is newest of its key, until an entry of a smaller key or the front. |
| DbIter.DBIter.FindPrevUserEntry | ios/Pods/leveldb-library/db/db_iter.cc:236-276 | Stops at the last live entry at or before the position, below all entries of its key. |
| DbIter.DBIter.Next | ios/Pods/leveldb-library/db/db_iter.cc:141-175 | MAIN: one live pair on, after either direction. |
| DbIter.DBIter.Prev | ios/Pods/leveldb-library/db/db_iter.cc:209-234 | MAIN: one live pair back, after either direction. |
| DbIter.DBIter.Seek | ios/Pods/leveldb-library/db/db_iter.cc:278-290 | MAIN: the first live pair at or after the target. |
| DbIter.DBIter.SeekToFirst | ios/Pods/leveldb-library/db/db_iter.cc:292-301 | The first live pair. |
| DbIter.DBIter.SeekToLast | ios/Pods/leveldb-library/db/db_iter.cc:303-308 | The last live pair. |
| DbIter.Drive | ios/Pods/leveldb-library/db/db_iter.cc:141-308 | MAIN: under every sequence of calls an iterator over any memtables and tables shows what a cursor in the sorted list of their live pairs shows. |
| Merger.MergeIs | ios/Pods/leveldb-library/table/merger.cc:14-176 | The union of the children is sorted and has exactly their entries. |
| Merger.MergingIterator.FindSmallest | ios/Pods/leveldb-library/table/merger.cc:148-161 | The child with the smallest key holds the entry at the cursor of the union. |
| Merger.MergingIterator.FindLargest | ios/Pods/leveldb-library/table/merger.cc:163-176 | The same for the largest key, backwards. |
| Merger.MergingIterator.Seek | ios/Pods/leveldb-library/table/merger.cc:47-53 | The first entry of the union at or after the target. |
| Merger.MergingIterator.TurnForward | ios/Pods/leveldb-library/table/merger.cc:58-73 | The switch to forward leaves every other child just past the cursor. |
| Merger.MergingIterator.TurnBack | ios/Pods/leveldb-library/table/merger.cc:84-101 | The switch to reverse leaves every other child just before it. |
| Merger.MergingIterator.Next | ios/Pods/leveldb-library/table/merger.cc:55-79 | MAIN: one entry on in the union, after either direction. |
| Merger.MergingIterator.Prev | ios/Pods/leveldb-library/table/merger.cc:81-108 | MAIN: one entry back in the union, after either direction. |
| Merger.MergingIterator.Current | ios/Pods/leveldb-library/table/merger.cc:110-118 | MAIN: the key and value shown are those of the union at the cursor. |
| Merger.Drive | ios/Pods/leveldb-library/table/merger.cc:14-176 | MAIN: under every sequence of calls a merging iterator shows what a cursor in the sorted union of its children shows. |
| InternalIterators.InternalIterator.Seek | ios/Pods/leveldb-library/db/db_impl.cc:1065-1098 | The internal iterator of a database lands on the first entry of all memtables and tables at or after the target. |
| InternalIterators.InternalIterator.Next | ios/Pods/leveldb-library/db/db_impl.cc:1065-1098 | One entry on among the entries of all memtables and tables. |
| InternalIterators.InternalIterator.Prev | ios/Pods/leveldb-library/db/db_impl.cc:1065-1098 | One entry back among them. |
| TwoLevel.TwoLevelIterator.SkipEmptyDataBlocksForward | ios/Pods/leveldb-library/table/two_level_iterator.cc:115-126 | Over any number of empty blocks to the next entry there is. |
| TwoLevel.TwoLevelIterator.SkipEmptyDataBlocksBackward | ios/Pods/leveldb-library/table/two_level_iterator.cc:128-139 | The same, backwards. |
| TwoLevel.TwoLevelIterator.Seek | ios/Pods/leveldb-library/table/two_level_iterator.cc:82-87 | MAIN: the first entry at or after the target over all blocks. |
| TwoLevel.TwoLevelIterator.Next | ios/Pods/leveldb-library/table/two_level_iterator.cc:103-107 | MAIN: one entry on over all blocks. |
| TwoLevel.TwoLevelIterator.Prev | ios/Pods/leveldb-library/table/two_level_iterator.cc:109-113 | MAIN: one entry back over all blocks. |
| TwoLevel.TwoLevelIterator.SeekToFirst | ios/Pods/leveldb-library/table/two_level_iterator.cc:89-94 | The first entry of all. |
| TwoLevel.TwoLevelIterator.SeekToLast | ios/Pods/leveldb-library/table/two_level_iterator.cc:96-101 | The last entry of all. |
| TwoLevel.Drive | ios/Pods/leveldb-library/table/two_level_iterator.cc:82-161 | MAIN: under every sequence of calls the iterator shows what a cursor in the concatenation of all blocks shows. |
| TwoLevel.LevelIsIndexed | ios/Pods/leveldb-library/db/version_set.cc:163-227 | MAIN: a sorted level with its files' largest keys is such an index, and the cursor runs over the level's entries. |
| Crc.ExtendConcat | ios/Pods/leveldb-library/util/crc32c.h:14-17 | MAIN: extending by A and then by B is extending by A followed by B. |
| Crc.Extend | ios/Pods/leveldb-library/util/crc32c.cc:276-377 | For every buffer, length and alignment the four-stride computation equals the byte-at-a-time register, given linear tables that advance by 16 bytes. |
| Crc32c.ExtendedIsChecksum | ios/Pods/leveldb-library/util/crc32c.cc:276-377 | MAIN: with tables of the polynomial 0x82f63b78, extending 0 by any bytes is the bit-serial CRC-32C: register preset to ones, eight shift-and-xor steps a byte, complement. |
| Crc32c.Value | ios/Pods/leveldb-library/util/crc32c.h:19-22 | MAIN: so is what the four-stride computation gives, at any address. |
| Crc32c.RealTablesAreGood | ios/Pods/leveldb-library/util/crc32c.cc:17-240 | Those tables are linear and advance by 16 bytes. |
| Crc32c.CheckValue | ios/Pods/leveldb-library/util/crc32c.h:24-36 | "123456789" gives the published 0xe3069283, and its masked bytes. |
| Crc.MaskRoundTrip | ios/Pods/leveldb-library/util/crc32c.h:29-38 | A masked checksum unmasks to itself. |
| Log.ChunkChecks | ios/Pods/leveldb-library/db/log_writer.cc:82-108 | What EmitPhysicalRecord writes passes the reader's checksum and carries its length, type and bytes. |
| Log.Writer.AddRecord | ios/Pods/leveldb-library/db/log_writer.cc:34-80 | The file holds exactly the records added, in fragments that never cross a block; the loop ends even for an empty fragment. |
| Log.CompleteIs | ios/Pods/leveldb-library/db/log_reader.cc:56-174 | The count of complete records is the largest whose encoding fits before the cut. |
| LogReader.Reader.ReadPhysicalRecord | ios/Pods/leveldb-library/db/log_reader.cc:189-271 | On any bytes: the fragment, bad record or end at the position, and the one report there may be. |
| LogReader.Reader.ReadRecord | ios/Pods/leveldb-library/db/log_reader.cc:56-174 | On any bytes: the next logical record of the physical ones from the position on, and the reports before it; or the end. |
| LogReader.ParsedIsSound | ios/Pods/leveldb-library/db/log_reader.cc:216-271 | A fragment is returned if and only if it is whole and its stored checksum is that of its type and data. |
| LogReader.PhysicalTells | ios/Pods/leveldb-library/db/log_reader.cc:189-271 | MAIN: on any file, at any place: the sound fragment that is there in full within its block; else a bad record, reported unless it is empty and of type 0, and on to the next block; or the end inside a record. |
| LogReader.ReadLog | ios/Pods/leveldb-library/db/log_reader.cc:56-174 | Reading until the end gives the logical records and the number of reports of any file. |
| LogReader.LogReads | ios/Pods/leveldb-library/db/log_reader.cc:56-174 | MAIN: a written log cut anywhere is read as exactly the records complete before the cut, without a report. |
| LogDamage.DamageIsLocal | ios/Pods/leveldb-library/db/log_reader.cc:56-271 | MAIN: whatever bytes some blocks of a log are overwritten with, every record that does not touch them is still read, in order, if no sound fragment in them has the type byte 5. |
| LogDamage.StoppedByFive | ios/Pods/leveldb-library/db/log_reader.h:64-73 | Only such a fragment keeps the reader from getting past damaged blocks. |
| LogDamage.FiveEndsTheLog | ios/Pods/leveldb-library/db/log_reader.h:64-73 | Behind a fragment of type byte 5 with the right checksum nothing is read and nothing is reported, though the code has a report for unknown types. |
| LogReader.WriteCrashRead | ios/Pods/leveldb-library/db/log_reader.cc:56-174 | MAIN: for any records and any cut, reading gives exactly the records complete before the cut, in order, and reports no corruption. |
| Coding.PutVarint | ios/Pods/leveldb-library/util/coding.cc:55-70 | Appends the base-128 encoding. |
| Coding.GetVarint | ios/Pods/leveldb-library/util/coding.cc:86-131 | On any bytes: the varint at the place, as a word of 32 or 64 bits, within 5 or 10 bytes and never past the limit. |
| Coding.VarintReads | ios/Pods/leveldb-library/util/coding.cc:86-131 | Reading as GetVarint does, wherever an encoding of PutVarint starts, gives its number and where it ends. |
| Coding.GetLengthPrefixed | ios/Pods/leveldb-library/util/coding.cc:145-164 | On any bytes: the string behind its length, if it is all there. |
| Coding.PrefixedReads | ios/Pods/leveldb-library/util/coding.cc:73-76 | Reading so gives back what PutLengthPrefixedSlice wrote. |
| Blocks.BlockBuilder.Add | ios/Pods/leveldb-library/table/block_builder.cc:71-105 | The entry is appended sharing the longest common prefix with the key before, or nothing at a restart, every `interval` entries. |
| Blocks.BlockBuilder.Finish | ios/Pods/leveldb-library/table/block_builder.cc:61-69 | The block is the entries, the restart offsets and their count, and its size is the estimate the builder gave. |
| Blocks.DecodeEntry | ios/Pods/leveldb-library/table/block.cc:55-75 | Reads back the three lengths and where the key delta is, by the fast or the slow path, never past the limit. |
| Blocks.EntryInside | ios/Pods/leveldb-library/table/block.cc:55-75 | MAIN: in any bytes an entry that passes the checks has its key delta and value inside the block if and only if their lengths add up to less than 2^32; the next entry is looked for inside the block in either case. |
| Blocks.StrayEntry | ios/Pods/leveldb-library/table/block.cc:70-72 | A block of fewer than 20 bytes with an entry that passes the checks and whose key delta ends 2^32 - 8 bytes or more behind its start. |
| Blocks.BlockIter.ParseNextKey | ios/Pods/leveldb-library/table/block.cc:225-252 | On any bytes: stands on the next entry if there is one that passes the checks, with the key delta behind the shared front of the key before and the value behind that; in a built block that is the next entry with its full key. |
| Blocks.BlockIter.Prev | ios/Pods/leveldb-library/table/block.cc:143-162 | The predecessor, through the last restart point before the entry. |
| Blocks.BlockIter.FindRestart | ios/Pods/leveldb-library/table/block.cc:165-191 | On any bytes, what binary search over the restart points comes to; in a built block, the key at the restart point found is before the target. |
| Blocks.BlockIter.Seek | ios/Pods/leveldb-library/table/block.cc:164-202 | MAIN: in a built block the first entry at or after the target; in any bytes, where both searches come to, or an error. |
| Blocks.BlockIter.SeekToLast | ios/Pods/leveldb-library/table/block.cc:209-214 | The last entry. |
| Blocks.BuildAndRead | ios/Pods/leveldb-library/table/block.cc:138-252 | MAIN: iterating over a built block yields the entries, for every restart interval. |
| Blocks.BuildAndSeek | ios/Pods/leveldb-library/table/block.cc:164-202 | MAIN: Seek in a built block lands on the first entry at or after the target. |
| Bloom.CreateFilter | ios/Pods/leveldb-library/util/bloom.cc:28-54 | The filter's bits are exactly those hit by the probes of its keys; its size is that of the rounded-up bit count plus one. |
| Bloom.DeltaIsRotation | ios/Pods/leveldb-library/util/bloom.cc:45-46 | The step between probes is the hash rotated right by 17 of 32 bits. |
| Bloom.ProbesAre | ios/Pods/leveldb-library/util/bloom.cc:19-24 | 0.69 probes for each bit of a key, rounded down, from 1 to 30. |
| Bloom.KeyMayMatch | ios/Pods/leveldb-library/util/bloom.cc:56-80 | On any bytes: true exactly if every probe's bit is set, or the probe count is reserved. |
| Bloom.NoFalseNegatives | ios/Pods/leveldb-library/util/bloom.cc:28-80 | MAIN: a key of the filter always may match. |
| FilterBlocks.FilterBlockBuilder.StartBlock | ios/Pods/leveldb-library/table/filter_block.cc:21-27 | Filters up to the block's offset are made; which filter a key belongs to does not change. |
| FilterBlocks.FilterBlockBuilder.GenerateFilter | ios/Pods/leveldb-library/table/filter_block.cc:51-75 | The waiting keys, cut out of the flattened buffer, become one filter, an empty one for no keys. |
| FilterBlocks.FilterBlockBuilder.Finish | ios/Pods/leveldb-library/table/filter_block.cc:35-49 | The block is one filter for each 2 KiB range, of exactly the keys added for blocks starting there, then their offsets, the offset of those and the base. |
| FilterBlocks.FilterBlockReader.KeyMayMatch | ios/Pods/leveldb-library/table/filter_block.cc:90-104 | On any bytes: asks exactly the filter of the block's range; true beyond the last filter and for damaged offsets. |
| FilterBlocks.BuildAndMatch | ios/Pods/leveldb-library/table/filter_block.cc:21-104 | MAIN: a key added for a block may match at that block's offset, however blocks fall into ranges. |
| TableFormat.DecodeHandle | ios/Pods/leveldb-library/table/format.cc:15-29 | On any bytes: the handle that is there; what was encoded reads back. |
| TableFormat.DecodeFooter | ios/Pods/leveldb-library/table/format.cc:31-62 | On any bytes: both handles, if the magic number is at its end; what was encoded reads back, behind padding. |
| TableFormat.ReadBlock | ios/Pods/leveldb-library/table/format.cc:64-139 | On any file: the contents, if they are there in full, of type 0, and sealed by their checksum or it is not to be verified; a stored block reads back. |
| Formats.InternalKeyBytes | ios/Pods/leveldb-library/db/dbformat.cc:15-24 | An internal key is the user key, the byte 1 or 0 for a value or a deletion, and seven bytes of sequence number. |
| Formats.BatchOfOne | ios/Pods/leveldb-library/db/write_batch.cc:5-14 | The bytes of a batch with one put or one deletion. |
| Formats.LogOfOne | ios/Pods/leveldb-library/db/log_writer.cc:82-108 | The bytes of a log with one short record: masked CRC-32C of type and data, length, type 1, data. |
| Formats.LongRecordIsCut | ios/Pods/leveldb-library/db/log_writer.cc:34-80 | A longer record fills the block of 32768 bytes with a fragment of type 2; the last one has type 4. |
| Formats.FooterIs | ios/Pods/leveldb-library/table/format.cc:31-41 | A footer is two handles, zeros up to byte 40 and the magic number, in literal bytes. |
| Formats.EditTags | ios/Pods/leveldb-library/db/version_edit.cc:14-24 | The tags of the MANIFEST records, in literal bytes. |
| Tables.IndexDecides | ios/Pods/leveldb-library/table/table.cc:217-229 | The index leads to the one block that may hold the first entry of the key; if that entry lies past it, it has another user key, in spite of shortened separators. |
| Tables.Table.InternalGet | ios/Pods/leveldb-library/table/table.cc:214-242 | MAIN: in a table hands out the first entry at or after the key, or nothing, and nothing only if that entry has another user key; in any file, what index, filter and block come to. |
| Tables.FilterIsRight | ios/Pods/leveldb-library/table/table.cc:219-227 | When the filter says no, the first entry at or after the key has another user key. |
| Tables.ReadMeta | ios/Pods/leveldb-library/table/table.cc:82-132 | In any file, the filter the metaindex leads to, errors passed over; found exactly if the table has one. |
| Tables.Open | ios/Pods/leveldb-library/table/table.cc:38-80 | In any file: opens exactly if footer and index block can be read; a built file opens. |
| TableBuild.TableBuilder.Add | ios/Pods/leveldb-library/table/table_builder.cc:94-123 | The entry is added; the index entry of the last block is put with a separator from the next one; the block is flushed exactly if it has reached its size. |
| TableBuild.TableBuilder.Flush | ios/Pods/leveldb-library/table/table_builder.cc:125-139 | The current block is in the file behind a handle, and its index entry is pending. |
| TableBuild.TableBuilder.Finish | ios/Pods/leveldb-library/table/table_builder.cc:198-253 | The file is a table of exactly the entries added: data blocks, filter, metaindex, index, footer. |
| TableBuild.Get | ios/Pods/leveldb-library/db/table_cache.cc:100-112 | A lookup in a built table returns the newest visible entry of the user key, or nothing if none is visible; in any file the answer is that of InternalGet, parsed. |
| TableBuild.BuildAndGet | ios/Pods/leveldb-library/table/table_builder.cc:94-253 | MAIN: build, open and look up, for all entry lists, block sizes, restart intervals, with or without filter: the newest visible entry. Every data block but the last has at least the size asked for. |
| HandleTables.HandleTable.FindPointer | ios/Pods/leveldb-library/util/cache.cc:115-121 | The pointer to the only matching handle, or the last pointer of its chain if there is none. |
| HandleTables.HandleTable.Lookup | ios/Pods/leveldb-library/util/cache.cc:75-77 | The member with the key, if any. |
| HandleTables.HandleTable.Insert | ios/Pods/leveldb-library/util/cache.cc:79-93 | The handle is a member in place of the one with its key; the buckets change only if a new member makes more members than buckets, and are then no more than needed. |
| HandleTables.HandleTable.Remove | ios/Pods/leveldb-library/util/cache.cc:95-103 | The one member with the key leaves. |
| HandleTables.HandleTable.Resize | ios/Pods/leveldb-library/util/cache.cc:123-147 | Relinking all chains into a doubled list keeps exactly the members, each in its bucket. |
| Cache.LRUCache.Ref | ios/Pods/leveldb-library/util/cache.cc:218-224 | One more reference; a handle nobody held moves from the LRU to the in-use list. |
| Cache.LRUCache.Unref | ios/Pods/leveldb-library/util/cache.cc:226-238 | The last reference calls the deleter; the last but the cache's own puts the handle behind all others on the LRU list. |
| Cache.LRUCache.Lookup | ios/Pods/leveldb-library/util/cache.cc:253-260 | The cached handle with the key, now held once more, or null if there is none. |
| Cache.LRUCache.Release | ios/Pods/leveldb-library/util/cache.cc:262-265 | One reference less, with the exact effect on both lists and the deleter. |
| Cache.LRUCache.FinishErase | ios/Pods/leveldb-library/util/cache.cc:306-317 | The handle is on no list, not charged, and deleted at once exactly if nobody holds it. |
| Cache.LRUCache.Erase | ios/Pods/leveldb-library/util/cache.cc:319-322 | Exactly the entry with the key is no longer cached. |
| Cache.LRUCache.EvictOverCapacity | ios/Pods/leveldb-library/util/cache.cc:294-301 | Evicts oldest first and no more than needed; held handles stay. |
| Cache.LRUCache.Insert | ios/Pods/leveldb-library/util/cache.cc:267-304 | MAIN: the new handle, the replaced entry, the evicted front of the LRU list and the deleter calls are exactly determined; usage is within capacity or nothing is left to evict. |
| Cache.LRUCache.Prune | ios/Pods/leveldb-library/util/cache.cc:324-334 | All unheld entries are deleted, oldest first. |
| Cache.Perform | ios/Pods/leveldb-library/util/cache.cc:253-334 | Every client call answers as it should, and keeps the invariant, the client's handles and the log of deleter calls. |
| Cache.Drive | ios/Pods/leveldb-library/util/cache.cc:218-334 | MAIN: in any sequence of calls each answers as it should: a lookup hands out the cached entry of its key or nothing, an insertion its own. Usage is the sum of cached charges, the table holds exactly the cached handles, each is on the list its references say, and deleters ran once each, never for a handle still out. |
| Encodings.VarintLength | ios/Pods/nanopb/pb_encode.c:608-628 | A number below 128^k takes at most k bytes. |
| Wire.EncodeVarint | ios/Pods/nanopb/pb_encode.c:608-628 | Writes the varint if it fits; a sizing stream counts it. |
| Wire.DecodeVarint | ios/Pods/nanopb/pb_decode.c:255-275 | On any bytes: the varint at the front, modulo 2^64, if it ends within ten bytes. |
| Wire.DecodeVarint32 | ios/Pods/nanopb/pb_decode.c:187-247 | On any bytes: the varint at the front, where it fits in 32 bits as the code checks; the end of the stream is told apart. |
| Wire.ZigZagRoundTrip | ios/Pods/nanopb/pb_decode.c:1285-1297 | Zigzag decodes to the same number. |
| Wire.EncodeSVarint | ios/Pods/nanopb/pb_encode.c:630-639 | Shifts and complements of 64-bit words give the zigzag number. |
| Wire.DecodeFixed | ios/Pods/nanopb/pb_decode.c:1299-1331 | The little-endian word at the front, if it is there. |
| WireFormat.VarintMeans | ios/Pods/nanopb/pb_decode.c:255-275 | What DecodeVarint reads is the varint of the specification, a sum of 7-bit groups, modulo 2^64. |
| WireFormat.PayloadMeans | ios/Pods/nanopb/pb_encode.c:769-911 | The payload of a value is, read after the specification of its kind, that value. |
| WireFormat.PackedSplits | ios/Pods/nanopb/pb_encode.c:162-205 | MAIN: the body of a packed array is exactly the payloads of its elements. |
| WireFormat.MessageSplits | ios/Pods/nanopb/pb_encode.c:341-426 | MAIN: a record reader after the specification (key = number * 8 + type, types 0, 1, 2 and 5) splits the bytes of every message into exactly the values present, under the number of the field and the type of its kind. |
| Nanopb.FieldIter.Next | ios/Pods/nanopb/pb_common.c:29-85 | One field on, back to the first at the end, counting the required ones. |
| Nanopb.FieldIter.Find | ios/Pods/nanopb/pb_common.c:87-106 | Stands on the field with the tag; gives up only if there is none. |
| NanopbEncode.EncodePacked | ios/Pods/nanopb/pb_encode.c:162-205 | A packed array succeeds exactly if it has an encoding that fits, which it then writes: size first, then values. |
| NanopbEncode.EncodeArray | ios/Pods/nanopb/pb_encode.c:147-236 | The same for every repeated field; too many elements are an error. |
| NanopbEncode.EncodeField | ios/Pods/nanopb/pb_encode.c:341-426 | The same for required, optional, proto3, repeated and oneof fields. |
| NanopbEncode.EncodeSubmessage | ios/Pods/nanopb/pb_encode.c:717-765 | The sizing pass counts what the writing pass writes, so the size check behind it never fails. |
| NanopbEncode.Encode | ios/Pods/nanopb/pb_encode.c:528-550 | MAIN: succeeds exactly if every value passes the encoder's checks and the bytes fit, and emits exactly the bytes MessageSplits is about. |
| NanopbEncode.EncodedSize | ios/Pods/nanopb/pb_encode.c:567-576 | The exact size, exactly if there is an encoding. |
| NanopbEncode.EncodeToBuffer | ios/Pods/nanopb/pb_encode.c:528-576 | MAIN: encoding into n bytes succeeds if and only if the size can be computed and is at most n. |
| NanopbDecode.DecodePackedItems | ios/Pods/nanopb/pb_decode.c:424-453 | On any bytes: the elements one after the other, up to the end of the substream; too many for the array are an error. |
| NanopbDecode.DecodePacked | ios/Pods/nanopb/pb_decode.c:424-453 | On any bytes: the substream of a packed array element by element. |
| NanopbDecode.SkipField | ios/Pods/nanopb/pb_decode.c:321-331 | Past exactly one payload: a varint, 8 bytes, a length-prefixed string or 4 bytes; other types are an error. |
| NanopbDecode.DecodeField | ios/Pods/nanopb/pb_decode.c:406-483 | On any bytes and wire type: where a record of a field goes and which are refused, whatever the rule. |
| NanopbDecode.DecodeNoInit | ios/Pods/nanopb/pb_decode.c:934-1082 | On any bytes: records are found by tag, decoded or skipped; required and fixed-count fields are accounted for at the end. |
| NanopbDecode.Decode | ios/Pods/nanopb/pb_decode.c:1084-1096 | On any bytes: defaults first, then the records. |
| NanopbRoundTrip.EncodeThenDecode | ios/Pods/nanopb/pb_decode.c:934-1096 | MAIN: for every nested descriptor and value, decoding an encoding succeeds if and only if every char array sent has room for its terminator; then every byte is read and everything sent is restored. |
| NanopbRoundTrip.SentIsDecoded | ios/Pods/nanopb/pb_decode.c:934-1082 | MAIN: records of known fields in order, with unknown ones anywhere between, decode if and only if no value is refused, no array overflows or is left half filled, and no required field of the first 64 is missing; then they give what was sent and defaults for the rest. |
| NanopbUnknown.UnknownFieldsAreSkipped | ios/Pods/nanopb/pb_decode.c:321-331 | MAIN: a decoder whose descriptor lacks any of the fields decodes if and only if it would without them, and restores the others. |
| NanopbUnknown.RestoresTheOthers | ios/Pods/nanopb/pb_decode.c:321-331 | What it restores is, field by field, what the full decoder would. |
| NanopbUnknown.MissingFieldsGetDefaults | ios/Pods/nanopb/pb_decode.c:1043-1082 | MAIN: a decoder with more fields than the encoder decodes if and only if none of those is required, of the first 64, and the values sent can be restored; then those have their defaults. |
| NanopbFits.MessageFits | ios/Pods/nanopb/pb_decode.c:934-1082 | MAIN: whatever the bytes, no array, string or bytes field decoded is longer than its place in the struct, at any depth. |
| NanopbFits.DecodeFits | ios/Pods/nanopb/pb_decode.c:1084-1096 | MAIN: so is the result of Decode on any bytes. |
| NanopbRestored.FullArrayIsRefused | ios/Pods/nanopb/pb_decode.c:1495-1518 | A text in a char array of three is sent whatever its length; it can be restored if and only if it is shorter than three. |
| NanopbRestored.RestoredSendsTheSame | ios/Pods/nanopb/pb_encode.c:341-426 | MAIN: a message that was sent comes back as one with the same bytes if and only if, in it and in every submessage sent, each proto3 singular field not sent has zero for its default and each one sent stays nonzero. |
| NanopbRestored.EncodeTwice | ios/Pods/nanopb/pb_encode.c:528-550 | MAIN: encode, decode, encode again gives the same bytes if and only if that condition holds. |
| NanopbRestored.MessageNonzero | ios/Pods/nanopb/pb_encode.c:240-337 | Exactly when a message comes back as zero: a union counts only if its tag names a member, an unsent field only through its default. |
| NanopbRestored.VarintPrefix | ios/Pods/nanopb/pb_encode.c:608-628 | No varint is the beginning of another, so the bytes of a message determine its records. |
| NanopbRestored.ZeroIsLost | ios/Pods/nanopb/pb_encode.c:240-337 | A zero in a proto3 field with another default is not sent and comes back as the default; every other value of the field is kept. |
| NanopbRestored.StrayChoiceIsLost | ios/Pods/nanopb/pb_encode.c:240-337 | A union whose tag names no member makes its message be sent, but comes back without a choice. |

## Left out

- The application code, the Flutter and Firebase glue and the device sketch: shallow calls without state of their own.
- The memtable flush in the middle of DoCompactionWork's loop (`db_impl.cc:917-928`): background jobs run one at a time.
- Background errors outside the write queue, shutdown, paranoid mode, file locks: steps succeed or the process stops.
- A log cut in the middle of a record is covered by Log and Durability; at the level of runs a record is there in full or not at all, and a log is cut without its directory entry being lost.
- DatabaseOpen.OpenKeeps: reusing a log with a torn tail is not modelled; a log holds the records that can be read back, and what is appended follows them.
- DatabaseProgress.MemoryCanBeFlushed: that MakeRoomForWrite also waits while there are too many level-0 files is not modelled.
- Commits.ReadYourWrites: write errors are not modelled in the joint runs; after a failed append, sync or insertion only the properties of WriteQueue are shown.
- Durability.RecoverLogFile: one log file of records the queue wrote, whose memtable does not fill up during recovery; tables flushed in the middle of it are in Database.Open.
- Compaction scores, seek statistics, read sampling and random heights: any level, any file and any height from 1 to 12 may come up.
- Compactions.DoCompactionWork: takes the sizes the table builder reports as a parameter; where it cuts is stated for any.
- Installs.InstallPreservesReads: assumes that no left-out file of the next level continues the user key at which its inputs end, because the code does not see to it and the property can fail otherwise; InstallPreservesReadsIff has the exact condition, which the runs assume of each compaction.
- Internal keys that cannot be parsed are not modelled in the compaction loop; they only occur in damaged files.
- Tables at the level of runs are sorted entry lists under a file number. TableBuild shows that a table file built from such a list answers a lookup as that list does; the two are not put together in one theorem.
- Recovery.Recover: takes the records of the MANIFEST one by one; their framing in a log file is that of Log, and CURRENT is a pointer that is switched atomically.
- TableBuild.BuildAndGet: promises the read for files below 2^64 bytes with blocks below 2^32 bytes, because offsets in a block and in the filter block are 32-bit words.
- Blocks.BuildAndRead: promises the entries for blocks below 2^32 bytes, for the same reason.
- Blocks.BlockIter.ParseNextKey: bytes outside a damaged block are not modelled, they read as nothing; EntryInside says exactly when an entry reaches there.
- WriteBatches.Iterate: counts wrap as 32-bit words; the code counts in int, which is undefined from 2^31 updates on.
- The children of the internal iterator are sorted runs; TwoLevel and MemTable show that levels and memtables behave as such runs, without being plugged in as objects.
- Block compression (Snappy) and the block cache in front of BlockReader.
- LogReader.Reader.ReadRecord: the reader starts at the beginning of the file; an initial offset and resynchronisation are not modelled.
- Crc32c.Value: the tables are given by the polynomial and the 16-byte advance; their 1280 literals are not compared with that, and the hardware path is not modelled.
- The Bloom filter's hash function is a parameter; the number of probes is computed with exact arithmetic.
- Cache.Drive: one shard, without its destructor; charges are unbounded integers. A handle number is never used again.
- Memory ordering beyond one step for each atomic load or store of the skip list, and reclamation of nodes.
- MemTables.MemTable.Get: memory behind an entry's buffer is not modelled; a length is read within the buffer.
- NanopbEncode.Encode: callbacks, extensions and pointer fields are not modelled, nor is wrap-around of size_t; a message is a value, not memory at offsets, and a char array is the text before its terminator.
- NanopbDecode.Decode: callbacks, extensions and pointer fields are not modelled here either, and what a failed call leaves in the struct is not.
- Wire.DecodeVarint32: the 8-bit shift counter is an unbounded integer; the two differ only on varints of more than 37 bytes.
- An empty message type looks to nanopb like a field with number 0; the iterator of the model has no such field.
- repair.cc, c.cc, dumpfile.cc, histograms, loggers, environment and thread code.

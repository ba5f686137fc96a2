# LevelDB and nanopb, verified models

The app in this repository carries two pieces of hard code in its `Pods` tree: the LevelDB storage engine and the
nanopb Protocol Buffers codec. This project models both in Dafny and proves what they are for. `dafny verify
dfyconfig.toml` checks everything.

**The LSM engine.** `InternalKeys`, `Visibility` and `Batches` say what entries, snapshots and reads are. `Versions`,
`Inputs`, `Picking`, `CompactionPicker`, `CompactionWork`, `Builder`, `Manifest` and `Installing` are the code of the
version set and of compaction; `Database.Db` puts them together as the engine's operations. `Levels`, `Dropping`,
`CompactionReads` and `Runs` are the state machine they implement: its invariant holds over every run, and reads stay
true to the history of writes over every run in which no compaction is unsafe: `Runs.RunsReadWritten` says so in terms
of the operations written. Every method of `Db` is proved to be a step of that machine.

A compaction is not always safe. `SetupOtherInputs` closes the level inputs at user-key boundaries but not the inputs
of the next level. When a user key straddles two files of that next level and only the newer one is an input, a
tombstone can be dropped while an older value stays. `CompactionReads.PreservesReadsIff` gives the exact condition,
`CompactionReads.ClosedNeverResurrects` shows that closing those inputs would exclude it, and
`Resurrection.DeletedKeyReadAgain` is a run of thirteen steps from the empty store, with the levels and inputs the
code itself picks, in which a deleted key comes back. Sortedness and recency of the levels need no such hypothesis.

A compaction works without the lock. `Interleavings` splits it into its choice of inputs and the installation of its
outputs, with writes and memtable flushes between them, and `Interleavings.InstallKeepsIff` says when that is
harmless: exactly when no output meets a file flushed to the output level meanwhile. `GapFree` proves that automatic
compactions always meet this condition. Manual ones need not: in the run of `Collision` the code picks two files with
a gap between them, a flush sends a new file into the gap, and the output is laid over it, so that a completed write
is no longer found.

**Recovery.** `EditHistories` follows the edits a run logs, and `ManifestFiles` reads them back from the bytes of a
manifest: whatever prefix a crash leaves, the version recovered is one the engine went through. `CrashRecovery` does
the same for the write-ahead log: what comes back is whole batches in the order they were written, and all that a
synchronous write returned for.

**Iterators.** `Cursors` is the plain meaning of an iterator. `MergingIterators`, `TwoLevelIterators`, `DbIterators`
and `BlockIterators` are classes with the fields of the originals, each proved to behave as a cursor over a list for
any sequence of seeks and moves in both directions. For `DBIter` the comment at
`SmartMeal/Pods/leveldb-library/db/db_iter.cc:41-46` promises that going backward the internal iterator stands just
before all entries of the key shown; what the code keeps is weaker (no visible entry lies strictly between the two),
and that is the invariant here. `EngineIterators` puts them together: an iterator of the engine lists exactly what its
reads return.

**Tables.** `Blocks`, `BlockBuilders`, `BlockIterators`, `BloomFilters`, `FilterBlocks`, `Comparators`, `Tables`,
`TableFormats`, `TableBuilders` and `TableReaders` follow a table from `Add` to the bytes of the file and back:
`TableBuilder.Finish` leaves a complete table of the pairs added, `TableReaders.Open` opens it, and
`TableReaders.InternalGet` and `GetNewest` look up exactly what a sorted list would give.

**Log, batches, group commit.** `LogWriter` and `LogReader` are the write-ahead log under crashes, `Coding`,
`VersionEdits`, `WriteBatches` and `MemTableEntries` the byte formats with their round trips, `GroupCommit` the writer
queue as a protocol with its invariant, refined by the class `WriteQueue`. What is read of damaged logs, records and
batches is proved as well, and `FormatBytes` has the formats in concrete bytes.

**Concurrency of the skip list.** `SkipLists` is the list, whose `Insert` is proved to make its stores as a protocol
says; `SkipListReaders` interleaves those stores with the reads of any number of searches.

**Cache and checksum.** `Rings`, `HandleTables` and `LruCaches` are the LRU cache on intrusive lists and hash chains;
`Crc32c` the four-lane checksum against the bitwise definition of section 12.1 of RFC 3720.

**nanopb.** `PbFields` and `PbMessages` are descriptors and messages, `PbFieldIters` the wrapping field iterator on
raw offsets, `PbRequired` the bitmap of required fields. `PbEncoding` and `PbReaders` are the encoder and the decoder
on their streams, proved against the wire format (`PbEncoding`, `PbDecoding`, `PbVarints`), and `PbRoundTrips` proves
that decoding undoes encoding. `PbUnknownFields` proves that a reader who knows fewer fields passes over the others, and
`PbMerging` what decoding does to a message that already holds something, and `PbIncomplete` which messages that stop
short are refused. Two findings: in a message type without fields the terminator of the descriptor passes for a field
with tag 0, so `pb_field_iter_find` returns true there; and `pb_decode_varint32`, which means to take only negative numbers
among those of more than 32 bits, also takes others (`PbWideVarints`). The model does the same.

Methods of a class state their whole effect through the abstract value of the object (`Abs()`, `Contents()`, `Left()`,
`Now()`); what the source promises about those values is proved as lemmas over all inputs. Integers are unbounded
where the source's words cannot overflow in the cases modelled, and reduced explicitly where they can (checksums,
varints, hash probes, casts to narrow fields).

## Model

| member | source | states |
|---|---|---|
| Versions.FindFile | SmartMeal/Pods/leveldb-library/db/version_set.cc:87-105 | binary search returns the smallest index whose file ends at or after the key on any sorted list of non-overlapping files, and on any other list what its halving comes to |
| Versions.SomeFileOverlapsRange | SmartMeal/Pods/leveldb-library/db/version_set.cc:121-156 | true exactly when some file meets the user key range, open ends included; the binary search on sorted disjoint files answers as the scan does |
| Versions.LevelSortedApart | SmartMeal/Pods/leveldb-library/db/version_set.cc:87-105 | in every version each level from 1 on is sorted and disjoint by internal key, which is what the binary searches rely on |
| Versions.TableGetNewest | SmartMeal/Pods/leveldb-library/db/version_set.cc:262-276 | seeking the lookup key in a sorted table and comparing user keys finds the newest visible entry of the key if there is one, and otherwise tells there is none |
| Versions.GetFromZero | SmartMeal/Pods/leveldb-library/db/version_set.cc:281-303 | the overlapping level-0 files, searched from the newest: the first hit is the newest visible entry of all level 0, no hit means level 0 shows nothing |
| Versions.ZeroHit | SmartMeal/Pods/leveldb-library/db/version_set.cc:288-303 | a hit in a level-0 file settles the read once the newer level-0 files showed nothing visible |
| Versions.OnlyFoundFile | SmartMeal/Pods/leveldb-library/db/version_set.cc:305-322 | in a sorted level only the file FindFile names can hold the newest visible entry |
| Versions.LevelHit | SmartMeal/Pods/leveldb-library/db/version_set.cc:305-322 | at a level below 0 the one file searched gives the newest visible entry of the whole version, once nothing shallower is visible |
| Versions.Get | SmartMeal/Pods/leveldb-library/db/version_set.cc:281-400 | the first hit over level 0 from the newest file and one file for each deeper level equals the read of the newest visible entry over everything the version holds |
| Inputs.GetOverlappingInputs | SmartMeal/Pods/leveldb-library/db/version_set.cc:498-538 | terminates despite the restarts at level 0 and returns, in level order, exactly the files meeting the least user key range that contains the request and is closed under every overlapping file; below level 0 exactly the files meeting the request |
| Inputs.WidenByFile | SmartMeal/Pods/leveldb-library/db/version_set.cc:520-534 | widening by a file that meets the range never leaves a closed range around it, so the range found is the least one |
| Inputs.FindSmallestBoundaryFile | SmartMeal/Pods/leveldb-library/db/version_set.cc:1321-1342 | the smallest file that begins behind the key with the same user key, if there is any |
| Inputs.AddBoundaryInputs | SmartMeal/Pods/leveldb-library/db/version_set.cc:1355-1378 | extends the inputs by the whole chain of boundary files and by nothing else |
| Inputs.ChainExtendsSlice | SmartMeal/Pods/leveldb-library/db/version_set.cc:1355-1378 | in a sorted level the chain continues a slice of files up to the first change of user key: the user key the slice ends on does not begin the next file |
| Inputs.MeetingIsSlice | SmartMeal/Pods/leveldb-library/db/version_set.cc:498-538 | in a sorted level the files meeting a range are consecutive |
| Inputs.GetRange | SmartMeal/Pods/leveldb-library/db/version_set.cc:1182-1202 | the least range of internal keys that covers all the files |
| Picking.BoundaryCloses | SmartMeal/Pods/leveldb-library/db/version_set.cc:1355-1394 | what may start a compaction is closed by AddBoundaryInputs: no file of the level left out shares a user key with it where it would be older |
| Picking.ClosedSelects | SmartMeal/Pods/leveldb-library/db/version_set.cc:1380-1426 | closed level inputs with every file of the next level that meets their user keys are a selection under which what stays at the level or above is newer than the inputs |
| CompactionPicker.SetupOtherInputs | SmartMeal/Pods/leveldb-library/db/version_set.cc:1380-1439 | closes the level inputs, takes the files of the next level that meet them, and takes more level inputs exactly when they are more, pick up nothing more below and all stay under 25 times the file size limit; grandparents are the files two levels down that meet the whole; the result is a proper selection |
| CompactionPicker.Finalize | SmartMeal/Pods/leveldb-library/db/version_set.cc:1026-1062 | the fullest level but the last, the first of them if several are, level 0 by its number of files and the others by their bytes |
| CompactionPicker.ScoreMeans | SmartMeal/Pods/leveldb-library/db/version_set.cc:41-52 | the score is a quarter of the number of files at level 0, and at level l from 1 to 5 the bytes over 10 to the l MiB |
| CompactionPicker.OverfullMeans | SmartMeal/Pods/leveldb-library/db/version_set.cc:1026-1062 | some score is at least 1 exactly when level 0 has four files or some level l from 1 to 5 has 10 to the l MiB |
| CompactionPicker.PickTrigger | SmartMeal/Pods/leveldb-library/db/version_set.cc:1247-1284 | size goes before seeks: if a level is overfull the fullest one is compacted, and it has files; otherwise the file charged with seeks, or nothing |
| CompactionPicker.PickCompaction | SmartMeal/Pods/leveldb-library/db/version_set.cc:1247-1299 | a size compaction starts from the first file to end after the compact pointer or wraps to the first, a seek compaction from the given file; at level 0 all files overlapping it join; the rest is as for SetupOtherInputs |
| CompactionPicker.CompactRange | SmartMeal/Pods/leveldb-library/db/version_set.cc:1441-1472 | null exactly when no file of the level meets the range; otherwise it starts from all files meeting it at level 0, and below from the shortest prefix of them that reaches the size limit |
| CompactionPicker.PickLevelForMemTableOutput | SmartMeal/Pods/leveldb-library/db/version_set.cc:470-495 | the level chosen is at most 2, past level 0 only if no file there or above meets the range of the memtable, and the deepest one before a level that meets files or has more than ten times the file size limit below it |
| CompactionWork.IsBaseLevelForKey | SmartMeal/Pods/leveldb-library/db/version_set.cc:1510-1529 | with the positions left by any nondecreasing sequence of earlier calls it answers as a scan of all files two and more levels below |
| CompactionWork.ShouldStopBefore | SmartMeal/Pods/leveldb-library/db/version_set.cc:1531-1557 | stops exactly when the grandparent files passed since the last stop, from the first key on, outweigh the limit, and then starts counting again |
| CompactionWork.DropDecision | SmartMeal/Pods/leveldb-library/db/db_impl.cc:935-979 | the loop variables current_user_key and last_sequence_for_key give the drop rule stated on the whole input: hidden by a newer entry every snapshot sees, or a tombstone every snapshot sees above nothing deeper |
| CompactionWork.DoCompactionWork | SmartMeal/Pods/leveldb-library/db/db_impl.cc:887-1058 | the outputs one after another are exactly the surviving entries of the input in order, in freshly and consecutively numbered files; an output's table is below the file size limit before its last entry, no stop lies inside it, and every output but the last has reached the limit or ends before a stop; there is a stop where the grandparents passed since the last one weigh more than ten times the limit |
| CompactionWork.CountsOn | SmartMeal/Pods/leveldb-library/db/version_set.cc:1531-1557 | the fields ShouldStopBefore keeps from entry to entry mark exactly those stops |
| CompactionWork.CompactionState.Add | SmartMeal/Pods/leveldb-library/db/db_impl.cc:982-1003 | the surviving entry goes behind everything written so far; exactly when the table with it has reached the file size limit the output is closed, and holds that table |
| Merging.MergeAllSorted | SmartMeal/Pods/leveldb-library/db/version_set.cc:1214-1245 | merging sorted children with distinct keys yields the sorted list of all their entries |
| Merging.SortedUnique | SmartMeal/Pods/leveldb-library/table/merger.cc:148-176 | a sorted list is determined by the set of its entries, so the order in which children are merged does not matter |
| CompactionOutputs.InputMerges | SmartMeal/Pods/leveldb-library/db/version_set.cc:1214-1245 | the input iterator of a compaction (level-0 files one by one, other levels concatenated) yields every entry of the input files once, sorted |
| CompactionOutputs.CutIsApart | SmartMeal/Pods/leveldb-library/db/db_impl.cc:993-1003 | cutting a sorted list into tables gives files with right bounds, in order and apart from each other |
| CompactionOutputs.WorkFits | SmartMeal/Pods/leveldb-library/db/db_impl.cc:887-1058 | what DoCompactionWork leaves is a legal set of outputs for the state machine: same survivors, fresh numbers, no overlap |
| Dropping.ShadowedGo | SmartMeal/Pods/leveldb-library/db/db_impl.cc:955-958 | behind an entry that every snapshot sees all older input entries of its user key are dropped |
| Dropping.DroppingPreserves | SmartMeal/Pods/leveldb-library/db/db_impl.cc:949-979 | dropping changes no read at or above the smallest snapshot unless a dropped tombstone hides an entry outside the inputs |
| Dropping.DroppingReveals | SmartMeal/Pods/leveldb-library/db/db_impl.cc:959-969 | and when one does, the read at the smallest snapshot changes |
| CompactionReads.PreservesReadsIff | SmartMeal/Pods/leveldb-library/db/db_impl.cc:899-1017 | a compaction preserves every read at or above the smallest snapshot if and only if it resurrects no key: no visible tombstone of its inputs, unseen deeper, with an older value of its key in a level + 1 file left out of the inputs |
| CompactionReads.ClosedNeverResurrects | SmartMeal/Pods/leveldb-library/db/version_set.cc:1380-1400 | closing inputs_[1] at its boundary, as the code does for the level inputs, is sufficient: such a compaction resurrects nothing |
| CompactionReads.ShallowerNewer | SmartMeal/Pods/leveldb-library/db/version_set.cc:1380-1426 | what stays at the input level or above holds only newer entries than the inputs |
| Resurrection.Reached | SmartMeal/Pods/leveldb-library/db/db_impl.cc:697-776 | thirteen steps of the engine from the empty store (writes, memtable switches, flushes, a snapshot and two compactions) that are a run of the state machine |
| Resurrection.LevelsPicked | SmartMeal/Pods/leveldb-library/db/version_set.cc:470-495 | PickLevelForMemTableOutput sends each flush of that run to the level the run has it at, and to no other |
| Resurrection.InputsChosen | SmartMeal/Pods/leveldb-library/db/version_set.cc:1380-1439 | and whatever SetupOtherInputs makes of the file a compaction of that run starts from, it is the inputs the run has: the level + 1 file ending on a user key is taken and the one beginning on it is not |
| Resurrection.KeyTwoComesBack | SmartMeal/Pods/leveldb-library/db/db_impl.cc:959-969 | the last step of the run is an unsafe compaction: it drops the tombstone of key 2 while the older value stays |
| Resurrection.DeletedKeyReadAgain | SmartMeal/Pods/leveldb-library/db/version_set.cc:1384-1399 | in this run key 2 is deleted, and in its last state the history says so while the engine reads a value: compaction as the code does it does not preserve reads |
| Resurrection.WhateverTheCut | SmartMeal/Pods/leveldb-library/db/db_impl.cc:982-1003 | the same for every way of cutting the outputs of the last compaction into files |
| Levels.FlushKeepsLevels | SmartMeal/Pods/leveldb-library/db/db_impl.cc:500-542 | a memtable flush to the level the code picks keeps levels sorted and disjoint and shallower levels newer for every user key |
| Levels.CompactKeepsLevels | SmartMeal/Pods/leveldb-library/db/db_impl.cc:869-885 | so does a compaction, with no hypothesis on the boundary of its level + 1 inputs |
| Levels.MoveKeepsLevels | SmartMeal/Pods/leveldb-library/db/db_impl.cc:731-745 | so does a trivial move, which also keeps every entry |
| Runs.StepKeepsInv | SmartMeal/Pods/leveldb-library/db/db_impl.cc:697-776 | every step (write, memtable switch, flush, compaction, move, snapshot) keeps the invariant: levels sorted, disjoint, numbered, newer above older, nothing held that was never written |
| Runs.RunsKeepInv | SmartMeal/Pods/leveldb-library/db/db_impl.cc:697-776 | over every run of such steps, of any length |
| Runs.CompactKeepsReadsIff | SmartMeal/Pods/leveldb-library/db/db_impl.cc:887-1017 | with reads true to the history before it, a compaction keeps them so if and only if it is safe for every user key |
| Runs.StepKeepsFaithful | SmartMeal/Pods/leveldb-library/db/db_impl.cc:697-776 | every other step keeps all live and future snapshots reading what the history says |
| Runs.RunsStayFaithful | SmartMeal/Pods/leveldb-library/db/db_impl.cc:697-776 | over every run without an unsafe compaction each read at a live or later snapshot returns the newest value ever written to the key at or before it |
| Runs.WriteThenRead | SmartMeal/Pods/leveldb-library/db/write_batch.cc:98-137 | at every point inside a written batch a read finds the value of the last of the operations so far on its key, nothing if that is a deletion, and otherwise what was read before |
| Runs.HistoryIsWritten | SmartMeal/Pods/leveldb-library/db/db_impl.cc:1195-1252 | over every run the history is the operations of all batches written, in order, under the sequence numbers from 1 |
| Runs.RunsReadWritten | SmartMeal/Pods/leveldb-library/db/db_impl.cc:1110-1252 | over every run without an unsafe compaction a read at sequence number q from the smallest snapshot on finds what the first q operations written leave under its key |
| Runs.UnsafeBreaks | SmartMeal/Pods/leveldb-library/db/version_set.cc:1384-1399 | after the first unsafe compaction of any run the history says that the key is gone at the smallest snapshot, and the engine reads a value there |
| Runs.ClosedIsSafe | SmartMeal/Pods/leveldb-library/db/version_set.cc:1384-1399 | a compaction whose level + 1 inputs are closed at their boundary is never unsafe |
| Interleavings.ActKeeps | SmartMeal/Pods/leveldb-library/db/db_impl.cc:887-1040 | writes, memtable switches, flushes, snapshots and new file numbers while a compaction is at work keep the invariant, and keep what it was chosen from in place under newer entries only |
| Interleavings.InstallKeepsIff | SmartMeal/Pods/leveldb-library/db/db_impl.cc:869-885 | installing the outputs keeps levels sorted, disjoint and newest first if and only if no output meets a file flushed to the output level meanwhile |
| Interleavings.InstallKeepsReadsIff | SmartMeal/Pods/leveldb-library/db/db_impl.cc:887-1040 | with reads true to the history before it, the installation keeps them so if and only if it brings no key back that the smallest live snapshot sees as deleted |
| Interleavings.RunsStayOk | SmartMeal/Pods/leveldb-library/db/db_impl.cc:887-1040 | over every run in which work and flushes interleave and no output meets such a file, the invariant holds |
| Interleavings.RunsStayFaithful | SmartMeal/Pods/leveldb-library/db/db_impl.cc:887-1040 | and if no installation brings a key back, each read at a live or later snapshot returns the newest value ever written to the key at or before it |
| Interleavings.InOnePiece | SmartMeal/Pods/leveldb-library/db/db_impl.cc:747-776 | a compaction step of the state machine is one during which nothing else happens |
| GapFree.GaplessClear | SmartMeal/Pods/leveldb-library/db/db_impl.cc:917-928 | if every user key between the inputs is spanned by one, no output meets a file flushed meanwhile, wherever the outputs are cut |
| GapFree.SetUpGapless | SmartMeal/Pods/leveldb-library/db/version_set.cc:1380-1439 | SetupOtherInputs leaves no gap between its inputs if there was none between the files it started from |
| GapFree.AutomaticGapless | SmartMeal/Pods/leveldb-library/db/version_set.cc:1247-1299 | a compaction that starts from one file, with what overlaps it at level 0, has inputs without gaps |
| GapFree.AutomaticRunsStayOk | SmartMeal/Pods/leveldb-library/db/db_impl.cc:887-1040 | over every run whose compactions are picked automatically the invariant holds, whatever is flushed while they are at work |
| Collision.Reached | SmartMeal/Pods/leveldb-library/db/db_impl.cc:580-630 | eighteen actions from the empty store (five writes and flushes, and a manual compaction during which the last flush happens) that are a run of the machine |
| Collision.LevelsPicked | SmartMeal/Pods/leveldb-library/db/version_set.cc:470-495 | PickLevelForMemTableOutput sends the flushes of that run to the levels the run has them at, and to no others |
| Collision.BothStart | SmartMeal/Pods/leveldb-library/db/version_set.cc:1441-1472 | CompactRange starts the compaction of that run from the two files the run has |
| Collision.AllChosen | SmartMeal/Pods/leveldb-library/db/version_set.cc:1380-1439 | and SetupOtherInputs adds the two files of the run, and nothing else |
| Collision.OutputMeetsFlush | SmartMeal/Pods/leveldb-library/db/version_set.cc:717-731 | the last action of the run breaks the invariant: the output reaches over the user key of the file flushed meanwhile, on the same level |
| Collision.WriteIsLost | SmartMeal/Pods/leveldb-library/db/version_set.cc:281-322 | then the write that was flushed is held by the engine and in the history, but in no memtable, and Version::Get does not find it, since the binary search leads to the output |
| Builder.InsertKeeps | SmartMeal/Pods/leveldb-library/db/version_set.cc:590-596 | insertion into the ordered file set keeps the order and adds the file unless an equal one is there |
| Builder.SaveMembers | SmartMeal/Pods/leveldb-library/db/version_set.cc:672-727 | merging base and added files loses none and keeps out exactly the deleted numbers |
| Builder.SaveOrdered | SmartMeal/Pods/leveldb-library/db/version_set.cc:672-727 | and the saved level is in order |
| Builder.ReplayEqualsSteps | SmartMeal/Pods/leveldb-library/db/version_set.cc:629-727 | for histories that never add a file number to a level twice, applying all edits in one builder gives the level reached by applying them one version at a time |
| Manifest.SaveOne | SmartMeal/Pods/leveldb-library/db/version_set.cc:672-715 | the two-position merge loop computes that merge |
| Manifest.LogAndApply | SmartMeal/Pods/leveldb-library/db/version_set.cc:777-842 | the new version is the current one with the edit's deletions and additions, level by level |
| Manifest.SnapshotRebuilds | SmartMeal/Pods/leveldb-library/db/version_set.cc:1064-1092 | the snapshot record alone rebuilds the version it was taken from |
| Manifest.RecoverRebuilds | SmartMeal/Pods/leveldb-library/db/version_set.cc:903-951 | a snapshot record followed by the edits logged since rebuilds, file by file, the version those edits led to one at a time |
| EditHistories.StepInstalls | SmartMeal/Pods/leveldb-library/db/version_set.cc:777-842 | the edit that a flush, a move or a compaction logs turns the version of the state before it into the version of the state after it |
| EditHistories.StepNumbers | SmartMeal/Pods/leveldb-library/db/version_set.cc:629-670 | it gives no level a file number the level has ever had, since files only move down and new files have new numbers |
| EditHistories.RunsKeepHistory | SmartMeal/Pods/leveldb-library/db/version_set.cc:777-842 | over every run the edits logged since any state, applied one at a time to its version, lead to the version of every later state, and never add a number to a level twice |
| EditHistories.PrefixIsSteps | SmartMeal/Pods/leveldb-library/db/version_set.cc:812-822 | any prefix of the edits logged is the edits of the steps up to some state |
| ManifestFiles.RecordStands | SmartMeal/Pods/leveldb-library/db/version_edit.cc:41-84 | every edit over named keys has a record that fits the format and stands for it |
| ManifestFiles.Recover | SmartMeal/Pods/leveldb-library/db/version_set.cc:903-951 | from any byte prefix of a manifest: the records that are there in full go through one builder; the last sequence, next file and log numbers are those of the last record that has one, a previous log number that no record has is 0, and a foreign comparator or a number that no record has is refused with the first complaint |
| ManifestFiles.RecoversApplied | SmartMeal/Pods/leveldb-library/db/version_set.cc:903-976 | what is recovered from a snapshot record and the records of edits is the version those edits lead to |
| ManifestFiles.RecoveredVersionWasCurrent | SmartMeal/Pods/leveldb-library/db/version_set.cc:862-976 | over every run, for a manifest begun at any state and cut anywhere by a crash: the version recovered is that of a state the engine went through |
| Installing.FlushInstalled | SmartMeal/Pods/leveldb-library/db/db_impl.cc:527-541 | logging and applying the edit of a flush yields exactly the levels with the new file |
| Installing.CompactionInstalled | SmartMeal/Pods/leveldb-library/db/db_impl.cc:869-885 | logging and applying the edit of a compaction replaces exactly its inputs by its outputs |
| Installing.MoveInstalled | SmartMeal/Pods/leveldb-library/db/db_impl.cc:731-745 | and that of a trivial move takes the file from its level to the next |
| Database.Db.constructor | SmartMeal/Pods/leveldb-library/db/db_impl.cc:126-150 | a new engine is the initial state of the state machine |
| Database.Db.Write | SmartMeal/Pods/leveldb-library/db/db_impl.cc:1195-1252 | a batch is a write step: consecutive sequence numbers, all of it in the memtable; from then on a read finds the value of the last operation on its key, nothing if that is a deletion, and what it found before if the batch does not touch the key |
| Database.Db.SwitchMemTable | SmartMeal/Pods/leveldb-library/db/db_impl.cc:1320-1378 | the memtable becomes the frozen one, nothing else changes |
| Database.Db.CompactMemTable | SmartMeal/Pods/leveldb-library/db/db_impl.cc:544-575 | writing out the frozen memtable is a flush step of the state machine at the level PickLevelForMemTableOutput picks, or nothing when it is empty; what is logged is that step's edit |
| Database.Db.TakeSnapshot | SmartMeal/Pods/leveldb-library/db/db_impl.cc:1176-1179 | a snapshot is the last sequence number, kept in order |
| Database.Db.ReleaseSnapshot | SmartMeal/Pods/leveldb-library/db/db_impl.cc:1181-1184 | releasing one leaves the others |
| Database.Db.Get | SmartMeal/Pods/leveldb-library/db/db_impl.cc:1110-1155 | memtable, frozen memtable and version together return the newest visible entry of all the engine holds |
| Database.Db.GetFaithful | SmartMeal/Pods/leveldb-library/db/db_impl.cc:1110-1155 | as long as reads are faithful, a read at a live snapshot or of the latest state returns what the history says |
| EngineIterators.InternalListsMerge | SmartMeal/Pods/leveldb-library/db/db_impl.cc:1072-1097 | memtables, level-0 files and concatenated levels are sorted lists without a shared key, and merged they list exactly what the engine holds, in order |
| EngineIterators.IteratorIsReads | SmartMeal/Pods/leveldb-library/db/db_impl.cc:1157-1167 | so the user keys and values visible in that list at a sequence number are what reads at that number find, and what the history says when reads are faithful |
| Database.Db.NewIterator | SmartMeal/Pods/leveldb-library/db/db_impl.cc:1157-1167 | a new iterator is a cursor, at no position yet, over exactly the key value pairs that reads at its snapshot return |
| Database.Db.RunCompaction | SmartMeal/Pods/leveldb-library/db/db_impl.cc:731-776 | a picked compaction is a move or a compaction step of exactly the picked inputs, and logs the edit of that step; it is a move exactly if it is not manual, a single file meets nothing below and no more than ten times the file size limit further down; the compact pointer of the level is set |
| Database.Db.BackgroundWork | SmartMeal/Pods/leveldb-library/db/db_impl.cc:697-745 | one round of background work without a manual request: the frozen memtable if there is one, else the fullest level if it is overfull, else the file charged with seeks, and nothing exactly if there is none of these; each is a step of the state machine that logs its edit |
| Database.Db.AutomaticCompaction | SmartMeal/Pods/leveldb-library/db/db_impl.cc:697-776 | so an automatic compaction is a step of the state machine, whose inputs are those SetupOtherInputs makes of the file the trigger names or the next one past the compact pointer, which moves on to the end of the inputs; what is logged is that step's edit |
| Database.Db.ManualCompaction | SmartMeal/Pods/leveldb-library/db/db_impl.cc:697-776 | and so is a manual one, whose inputs are those SetupOtherInputs makes of the files CompactRange starts from, unless no file of the level meets the range any more, and then it reports done |
| DbIterators.ViewIsReads | SmartMeal/Pods/leveldb-library/db/db_iter.cc:25-40 | the list a user iterates is strictly increasing and holds exactly what reads at the iterator's sequence return |
| DbIterators.DbIterator.FindNextUserEntry | SmartMeal/Pods/leveldb-library/db/db_iter.cc:177-207 | the forward scan stops on the first entry that shows from the start or behind the skipped key, or at the end when none does |
| DbIterators.DbIterator.ScanBack | SmartMeal/Pods/leveldb-library/db/db_iter.cc:236-265 | the backward loop saves the newest visible entry of the greatest user key before the start that is not deleted |
| DbIterators.DbIterator.FindPrevUserEntry | SmartMeal/Pods/leveldb-library/db/db_iter.cc:236-276 | and then stands with no visible entry between it and the entries of the key shown |
| DbIterators.DbIterator.SeekToFirst | SmartMeal/Pods/leveldb-library/db/db_iter.cc:292-301 | the cursor goes to the first pair of the list |
| DbIterators.DbIterator.SeekToLast | SmartMeal/Pods/leveldb-library/db/db_iter.cc:303-308 | the cursor goes to the last pair |
| DbIterators.DbIterator.Seek | SmartMeal/Pods/leveldb-library/db/db_iter.cc:278-290 | the cursor goes to the first pair whose key is at or past the target |
| DbIterators.DbIterator.Next | SmartMeal/Pods/leveldb-library/db/db_iter.cc:141-175 | the cursor moves on by one, also right after going backward |
| DbIterators.DbIterator.Prev | SmartMeal/Pods/leveldb-library/db/db_iter.cc:209-234 | the cursor moves back by one, also right after going forward |
| MergingIterators.SmallestIsNext | SmartMeal/Pods/leveldb-library/table/merger.cc:148-161 | the least entry the children show past a common cut is the next entry of the sorted union |
| MergingIterators.LargestIsPrevious | SmartMeal/Pods/leveldb-library/table/merger.cc:163-176 | the greatest one before a cut is the previous entry |
| MergingIterators.FindSmallest | SmartMeal/Pods/leveldb-library/table/merger.cc:148-161 | the child with the smallest key, if any child is valid |
| MergingIterators.FindLargest | SmartMeal/Pods/leveldb-library/table/merger.cc:163-176 | the child with the largest key, if any child is valid |
| MergingIterators.MergingIterator.TurnForward | SmartMeal/Pods/leveldb-library/table/merger.cc:60-74 | a change of direction changes nothing a caller sees: same current entry, same place in the union |
| MergingIterators.MergingIterator.TurnBackward | SmartMeal/Pods/leveldb-library/table/merger.cc:86-103 | and so the other way |
| MergingIterators.MergingIterator.SeekToFirst | SmartMeal/Pods/leveldb-library/table/merger.cc:31-37 | first entry of the sorted union |
| MergingIterators.MergingIterator.SeekToLast | SmartMeal/Pods/leveldb-library/table/merger.cc:39-45 | last entry of the sorted union |
| MergingIterators.MergingIterator.Seek | SmartMeal/Pods/leveldb-library/table/merger.cc:47-53 | first entry of the union at or past the target |
| MergingIterators.MergingIterator.Next | SmartMeal/Pods/leveldb-library/table/merger.cc:55-79 | the next entry of the union, in any mix of directions |
| MergingIterators.MergingIterator.Prev | SmartMeal/Pods/leveldb-library/table/merger.cc:81-108 | the previous entry of the union, in any mix of directions |
| TwoLevelIterators.SeekThrough | SmartMeal/Pods/leveldb-library/table/two_level_iterator.cc:82-87 | seeking the index and then the block it names is seeking the concatenation of all blocks, empty ones included |
| TwoLevelIterators.TwoLevelIterator.Seek | SmartMeal/Pods/leveldb-library/table/two_level_iterator.cc:82-87 | a cursor over the concatenation of the blocks goes to the first entry at or past the target |
| TwoLevelIterators.TwoLevelIterator.SeekToFirst | SmartMeal/Pods/leveldb-library/table/two_level_iterator.cc:89-94 | to its first entry, past empty blocks |
| TwoLevelIterators.TwoLevelIterator.SeekToLast | SmartMeal/Pods/leveldb-library/table/two_level_iterator.cc:96-101 | to its last entry, before empty blocks |
| TwoLevelIterators.TwoLevelIterator.Next | SmartMeal/Pods/leveldb-library/table/two_level_iterator.cc:103-107 | to the next entry, across blocks |
| TwoLevelIterators.TwoLevelIterator.Prev | SmartMeal/Pods/leveldb-library/table/two_level_iterator.cc:109-113 | to the previous entry, across blocks |
| TwoLevelIterators.LevelConcatenates | SmartMeal/Pods/leveldb-library/db/version_set.cc:158-227 | over a sorted level the two-level iterator's list is the level's entries in order |
| SkipLists.PublishKeeps | SmartMeal/Pods/leveldb-library/db/skiplist.h:362-367 | one publishing store links the key at its level, which stays ordered, and leaves every other level as it was; level i + 1 stays inside level i |
| SkipLists.SkipList.FindGreaterOrEqual | SmartMeal/Pods/leveldb-library/db/skiplist.h:260-281 | the first node at or after the key, and at each level the last node before it |
| SkipLists.SkipList.FindLessThan | SmartMeal/Pods/leveldb-library/db/skiplist.h:283-301 | the last node before the key |
| SkipLists.SkipList.FindLast | SmartMeal/Pods/leveldb-library/db/skiplist.h:303-321 | the last node of the list |
| SkipLists.SkipList.Contains | SmartMeal/Pods/leveldb-library/db/skiplist.h:370-378 | true exactly for the keys in the list |
| SkipLists.SkipList.Insert | SmartMeal/Pods/leveldb-library/db/skiplist.h:336-368 | terminates for every height from 1 to 12 with the old set and the key, linked at exactly the levels below the height; the states other threads can see are an insertion of the protocol: the height first, then the links from level 0 up, each behind the predecessor found at its level |
| SkipLists.WriterStepKeeps | SmartMeal/Pods/leveldb-library/db/skiplist.h:336-368 | every visible store of the writer keeps each level ordered and inside the one below, and adds the new key with the first link and nothing else |
| SkipListReaders.ReadLinkKeeps | SmartMeal/Pods/leveldb-library/db/skiplist.h:260-281 | the last read of a search gets the right answer for the keys in the list at that moment |
| SkipListReaders.NextKeeps | SmartMeal/Pods/leveldb-library/db/skiplist.h:336-368 | every step of the writer or of any of the readers, in any interleaving, keeps each level sorted and nested and only adds keys |
| SkipListReaders.SearchIsRight | SmartMeal/Pods/leveldb-library/db/skiplist.h:260-281 | over every interleaving with any number of readers a search returns the right answer for the key set at its end, which includes all keys that were there while it ran |
| SkipListReaders.OldOrNew | SmartMeal/Pods/leveldb-library/db/skiplist.h:336-368 | the answer of a search that overlaps one insertion is right for the key set before it or for that set with the new key |
| SkipListReaders.SearchDuringInsert | SmartMeal/Pods/leveldb-library/db/skiplist.h:336-368 | so is the answer of a search that ends anywhere during Insert, whatever the interleaving of its stores with the reads of any number of searches |
| SkipListReaders.ReadMakesProgress | SmartMeal/Pods/leveldb-library/db/skiplist.h:260-281 | while the list stands still every read brings the search closer to its end |
| MemTables.InsertInto | SmartMeal/Pods/leveldb-library/db/write_batch.cc:115-137 | inserting a batch adds exactly its operations under consecutive sequence numbers and keeps the memtable sorted |
| Batches.NumberingReads | SmartMeal/Pods/leveldb-library/db/write_batch.cc:98-137 | numbered operations read as what the first q of them leave: the value of the last one on the key whatever it is, nothing after a deletion |
| MemTableEntries.EntryParts | SmartMeal/Pods/leveldb-library/db/memtable.cc:76-99 | an entry's bytes give back its internal key and its value |
| MemTableEntries.EntryOrder | SmartMeal/Pods/leveldb-library/db/memtable.cc:28-35 | comparing encoded entries is comparing internal keys |
| MemTableEntries.MemTable.Add | SmartMeal/Pods/leveldb-library/db/memtable.cc:76-99 | adds exactly the encoded entry, in internal key order |
| MemTableEntries.MemTable.Get | SmartMeal/Pods/leveldb-library/db/memtable.cc:101-137 | returns the value, or the deletion, of the newest entry of the user key at or before the sequence number, and a miss exactly when there is none |
| WriteBatches.WriteBatch.Record | SmartMeal/Pods/leveldb-library/db/write_batch.cc:98-109 | the operation comes behind the others and is counted |
| WriteBatches.WriteBatch.Append | SmartMeal/Pods/leveldb-library/db/write_batch.cc:144-148 | the operations of both batches in order, counted together, under the first batch's sequence number |
| WriteBatches.WriteBatch.SetSequence | SmartMeal/Pods/leveldb-library/db/write_batch.cc:94-96 | changes the sequence number and nothing else |
| WriteBatches.Iterate | SmartMeal/Pods/leveldb-library/db/write_batch.cc:42-80 | on any bytes: the operations handled before the end or the first malformed one, and the complaint made, wrong count included |
| FormatBytes.BatchInBytes | SmartMeal/Pods/leveldb-library/db/write_batch.cc:5-13 | the bytes of a batch of a put and a deletion |
| FormatBytes.EntryInBytes | SmartMeal/Pods/leveldb-library/db/memtable.cc:76-99 | the bytes of a memtable entry and of an internal key of a deletion |
| WriteBatches.BatchRoundTrip | SmartMeal/Pods/leveldb-library/db/write_batch.cc:42-109 | walking a batch's bytes yields exactly its operations, its sequence number, and no complaint |
| WriteBatches.CutBatch | SmartMeal/Pods/leveldb-library/db/write_batch.cc:42-80 | a batch that ends inside an operation is walked up to it and then complained of |
| WriteBatches.BadBatch | SmartMeal/Pods/leveldb-library/db/write_batch.cc:42-80 | so is one with an unknown tag, or with a count other than the number of operations |
| GroupCommit.BuildBatchGroup | SmartMeal/Pods/leveldb-library/db/db_impl.cc:1270-1316 | the longest prefix of the queue without a writer that waits for the disk behind a leader that does not, and within 1 MiB, or 128 KiB more than a first batch of at most 128 KiB; its batch is the concatenation in queue order |
| GroupCommit.StepKeepsInv | SmartMeal/Pods/leveldb-library/db/db_impl.cc:1195-1268 | every step of the writer queue keeps the invariant: only the head works, log before memtable, last sequence last |
| GroupCommit.RunsKeepInv | SmartMeal/Pods/leveldb-library/db/db_impl.cc:1195-1268 | over every run each batch is applied exactly once, in arrival order, under consecutive sequence numbers |
| GroupCommit.VisibleIsDone | SmartMeal/Pods/leveldb-library/db/db_impl.cc:1216-1246 | what a reader at LastSequence sees, also between memtable insertion and the new last sequence, is each returned batch entirely and nothing else |
| GroupCommit.SnapshotsSeeWholeBatches | SmartMeal/Pods/leveldb-library/db/db_impl.cc:1176-1179 | a snapshot never splits a batch, whatever is written later |
| GroupCommit.SyncedOnReturn | SmartMeal/Pods/leveldb-library/db/db_impl.cc:1219-1227 | when the writers of a group return and one asked for it, everything logged so far is on disk |
| GroupCommit.ServedIsStored | SmartMeal/Pods/leveldb-library/db/db_impl.cc:1249-1258 | a writer that is released finds its batch in the memtables in full |
| CrashRecovery.StepKeepsLog | SmartMeal/Pods/leveldb-library/db/db_impl.cc:1216-1258 | every step of the writer queue keeps what the log promises: it holds exactly the operations of the requests served since it was begun, its records end where batches do, and every batch a synchronous write returned for is on disk |
| CrashRecovery.RunsKeepLog | SmartMeal/Pods/leveldb-library/db/db_impl.cc:1216-1258 | over every run of the writer queue |
| CrashRecovery.PrefixIsBatches | SmartMeal/Pods/leveldb-library/db/db_impl.cc:427-465 | replaying any prefix of the log's records gives the batches of the first k requests for some k, each entirely, and all synced ones once the prefix reaches what is known to be on disk |
| CrashRecovery.LogLegible | SmartMeal/Pods/leveldb-library/db/db_impl.cc:427-442 | what is logged for a put and for a deletion is read back as that put and that deletion, so a log of batches of bytes stands for the operations written |
| CrashRecovery.RecoverLogFile | SmartMeal/Pods/leveldb-library/db/db_impl.cc:380-498 | from any byte prefix of a log: exactly the batches whose bytes are all there are replayed, as the operations that were written, full memtables become tables on the way, each newer than the ones before, and the largest sequence number is found |
| CrashRecovery.RecoveredAfterCrash | SmartMeal/Pods/leveldb-library/db/db_impl.cc:1195-1258 | over every run, at every moment, for every prefix of the log's bytes that has at least what was synced: what is recovered is the batches of the first k requests since the log was begun, with every batch a synchronous write returned for among them |
| CrashRecovery.RecoveredIsMemTable | SmartMeal/Pods/leveldb-library/db/db_impl.cc:427-498 | from the whole log of an idle engine: what its memtable held, the very same list if no table was written on the way, and its last sequence number |
| GroupCommit.WriteQueue.CommitGroup | SmartMeal/Pods/leveldb-library/db/db_impl.cc:1216-1258 | the work of the head of the queue is a sequence of protocol steps, after which exactly the longest group that may go together has returned |
| LogWriter.Writer.AddRecord | SmartMeal/Pods/leveldb-library/db/log_writer.cc:34-80 | appends the record cut into fragments that fit the blocks, zero padding where no header fits, wherever the file ends now |
| LogWriter.WriteLog | SmartMeal/Pods/leveldb-library/db/log_writer.cc:34-108 | the file after a list of records is their log format |
| FormatBytes.LogInBytes | SmartMeal/Pods/leveldb-library/db/log_writer.cc:34-108 | the bytes behind the checksum of a log record, and the padding in front of it where no header fits |
| FormatBytes.MaskInBits | SmartMeal/Pods/leveldb-library/util/crc32c.h:22-33 | the masks of two checksums |
| LogReader.FragmentParses | SmartMeal/Pods/leveldb-library/db/log_reader.cc:189-270 | where the writer put a fragment the reader finds it, if all of it is there |
| LogReader.Reader.ReadPhysicalRecord | SmartMeal/Pods/leveldb-library/db/log_reader.cc:189-270 | on any bytes a fragment is returned only if it is there with its checksum; on any prefix of a written log the next fragment if all of it is there, otherwise the end, never a corruption |
| LogReader.Reader.ReadRecord | SmartMeal/Pods/leveldb-library/db/log_reader.cc:56-174 | on any bytes a record is returned only if a full fragment, or a first one, middle ones and a last one behind each other, are there with their checksums and spell it; on a prefix of a written log the next record exactly if its last fragment lies inside, and no corruption is reported |
| LogReader.ReadLog | SmartMeal/Pods/leveldb-library/db/log_reader.cc:56-174 | reading any byte prefix of a written log yields exactly the records whose last fragment lies inside it, in order, with nothing reported; reading any bytes at all yields only records that are there one behind the other with their checksums |
| Crc32c.ChecksumConcat | SmartMeal/Pods/leveldb-library/util/crc32c.cc:276-377 | extending twice is extending by the concatenation, for all data |
| Crc32c.TableStep | SmartMeal/Pods/leveldb-library/util/crc32c.cc:18-82 | one table lookup is eight polynomial steps |
| Crc32c.StrideStep | SmartMeal/Pods/leveldb-library/util/crc32c.cc:84-244 | the four stride tables advance a word by sixteen zero bytes |
| Crc32c.RotateLanes | SmartMeal/Pods/leveldb-library/util/crc32c.cc:332-366 | rotating the four lanes past one word is folding that word |
| Crc32c.Extend | SmartMeal/Pods/leveldb-library/util/crc32c.cc:276-377 | for every length and starting alignment the four-lane strided computation equals the bitwise checksum of section 12.1 of RFC 3720 extended by the data |
| Crc32c.TableLiterals | SmartMeal/Pods/leveldb-library/util/crc32c.cc:18-82 | the recurrence yields the literals of the byte table at zero and at the powers of two |
| Crc32c.CheckValue | SmartMeal/Pods/leveldb-library/util/crc32c.cc:276-377 | the check value of section B.4 of RFC 3720 for 32 bytes of zeros |
| Crc32c.MaskRoundTrip | SmartMeal/Pods/leveldb-library/util/crc32c.h:29-38 | unmasking undoes masking and the other way round |
| Rings.UnlinkKeepsRing | SmartMeal/Pods/leveldb-library/util/cache.cc:240-243 | taking a handle out leaves the ring of the others in order |
| Rings.LinkKeepsRing | SmartMeal/Pods/leveldb-library/util/cache.cc:245-251 | linking before the list head appends at the recent end |
| HandleTables.HandleTable.Lookup | SmartMeal/Pods/leveldb-library/util/cache.cc:75-77 | finds the handle of the slot exactly when the map has it |
| HandleTables.HandleTable.Insert | SmartMeal/Pods/leveldb-library/util/cache.cc:79-93 | the map with the slot replaced, the handle that had it returned; the table grows exactly when there would be more handles than chains |
| HandleTables.HandleTable.Remove | SmartMeal/Pods/leveldb-library/util/cache.cc:95-103 | the map without the slot, the handle that had it returned |
| HandleTables.HandleTable.Resize | SmartMeal/Pods/leveldb-library/util/cache.cc:123-147 | rehashing keeps the map; the chains become the least power of two, from four on, that is not below the number of handles |
| LruCaches.LruCache.Ref | SmartMeal/Pods/leveldb-library/util/cache.cc:218-224 | one more reference; an unreferenced cached handle moves to the list in use |
| LruCaches.LruCache.Unref | SmartMeal/Pods/leveldb-library/util/cache.cc:226-238 | one less; the deleter runs exactly when the last goes, and a handle only the cache holds moves to the recent end of the LRU list |
| LruCaches.LruCache.FinishErase | SmartMeal/Pods/leveldb-library/util/cache.cc:306-317 | the handle leaves its list, its charge leaves the sum, and the cache's reference goes |
| LruCaches.LruCache.Lookup | SmartMeal/Pods/leveldb-library/util/cache.cc:253-260 | returns what the map of latest unevicted inserts holds, pinned by a reference |
| LruCaches.LruCache.Release | SmartMeal/Pods/leveldb-library/util/cache.cc:262-265 | gives exactly one reference back, the last one passes the handle to its deleter |
| LruCaches.LruCache.Insert | SmartMeal/Pods/leveldb-library/util/cache.cc:267-304 | the new handle is cached under its slot in place of the old one, which gives up the cache's reference; unreferenced handles go, oldest first, only while usage is over capacity, and in the end usage is within capacity or the LRU list is empty; no other handle changes |
| LruCaches.LruCache.EvictWhileOver | SmartMeal/Pods/leveldb-library/util/cache.cc:294-301 | evicts a prefix of the LRU list, no longer than needed, and changes no other handle |
| LruCaches.LruCache.Erase | SmartMeal/Pods/leveldb-library/util/cache.cc:319-322 | the slot is free, its handle gives up the cache's reference and goes to its deleter without another, other slots keep their handles |
| LruCaches.LruCache.Prune | SmartMeal/Pods/leveldb-library/util/cache.cc:324-333 | exactly the unreferenced handles go |
| Coding.EncodeVarint32 | SmartMeal/Pods/leveldb-library/util/coding.cc:21-47 | the unrolled branches write the varint of every 32-bit number |
| Coding.EncodeVarint64 | SmartMeal/Pods/leveldb-library/util/coding.cc:55-64 | the loop writes the varint of every number |
| Coding.VarintLength | SmartMeal/Pods/leveldb-library/util/coding.cc:77-84 | the length of that encoding |
| Coding.Varint32RoundTrip | SmartMeal/Pods/leveldb-library/util/coding.cc:86-114 | every 32-bit number is read back, whatever follows |
| Coding.Varint64RoundTrip | SmartMeal/Pods/leveldb-library/util/coding.cc:116-143 | every 64-bit number is read back, whatever follows |
| Coding.EndlessRefused | SmartMeal/Pods/leveldb-library/util/coding.cc:86-143 | a 32-bit varint without an end in five bytes is refused, a 64-bit one without an end in ten |
| WideVarints.AnyNumber | SmartMeal/Pods/leveldb-library/util/coding.cc:86-143 | a number of any size through the two readers: its bits past the width are dropped while it has no more than five or ten bytes, and it is refused when it has more |
| Coding.PrefixedRoundTrip | SmartMeal/Pods/leveldb-library/util/coding.cc:145-163 | so is every length-prefixed string |
| Coding.FixedRoundTrip | SmartMeal/Pods/leveldb-library/util/coding.cc:9-19 | and every fixed-width number |
| VersionEdits.EncodeTo | SmartMeal/Pods/leveldb-library/db/version_edit.cc:41-84 | writes the entries of the edit in the order of the format |
| FormatBytes.EditInBytes | SmartMeal/Pods/leveldb-library/db/version_edit.cc:41-84 | the bytes of manifest entries with one number or string |
| FormatBytes.FilesInBytes | SmartMeal/Pods/leveldb-library/db/version_edit.cc:41-84 | and of those that name files and compact pointers |
| VersionEdits.DecodeFrom | SmartMeal/Pods/leveldb-library/db/version_edit.cc:105-203 | on any bytes: the edit described so far and the first complaint |
| VersionEdits.EditRoundTrip | SmartMeal/Pods/leveldb-library/db/version_edit.cc:41-203 | decoding an encoded edit into a fresh one gives it back, for every edit whose numbers fit their words |
| VersionEdits.CutRecord | SmartMeal/Pods/leveldb-library/db/version_edit.cc:105-203 | a record that ends inside an entry is refused with that entry's complaint, wherever it is cut |
| VersionEdits.BadRecord | SmartMeal/Pods/leveldb-library/db/version_edit.cc:85-203 | so is one with an entry for a level from 7 on or with an empty key, whatever follows |
| BlockBuilders.SharedPrefix | SmartMeal/Pods/leveldb-library/table/block_builder.cc:79-85 | the longest common prefix |
| BlockBuilders.BlockBuilder.Add | SmartMeal/Pods/leveldb-library/table/block_builder.cc:71-105 | the pair comes last, sharing all it has in common with its predecessor, or nothing at every interval-th entry, which becomes a restart point |
| BlockBuilders.BlockBuilder.SizeIsExact | SmartMeal/Pods/leveldb-library/table/block_builder.cc:55-59 | the size estimate is the exact size of the finished block, and only a block without pairs is empty |
| BlockBuilders.BlockBuilder.Finish | SmartMeal/Pods/leveldb-library/table/block_builder.cc:61-69 | the entries, the restart offsets and their number |
| Blocks.LengthsDecode | SmartMeal/Pods/leveldb-library/table/block.cc:55-75 | the three lengths are read back through the fast path or the varints, and refused when less is left than key and value take |
| Blocks.EntryDecodes | SmartMeal/Pods/leveldb-library/table/block.cc:55-75 | an entry is decoded as it was written, through the fast path or the varints |
| FormatBytes.BlockInBytes | SmartMeal/Pods/leveldb-library/table/block.cc:55-75 | the bytes of a block entry, of the restart array and of the type in the trailer |
| FormatBytes.FooterInBytes | SmartMeal/Pods/leveldb-library/table/format.cc:31-40 | the bytes of a footer |
| FormatBytes.FilterInBytes | SmartMeal/Pods/leveldb-library/table/filter_block.cc:35-49 | the bytes of a filter block without filters |
| BlockIterators.BlockOpens | SmartMeal/Pods/leveldb-library/table/block.cc:20-40 | a finished block yields its restart count and the right offset for each |
| BlockIterators.BlockIter.ParseNextKey | SmartMeal/Pods/leveldb-library/table/block.cc:225-252 | the next pair, its key put together from its predecessor's |
| BlockIterators.BlockIter.SeekToFirst | SmartMeal/Pods/leveldb-library/table/block.cc:204-207 | a cursor over exactly the added pairs: the first pair |
| BlockIterators.BlockIter.SeekToLast | SmartMeal/Pods/leveldb-library/table/block.cc:209-214 | a cursor over exactly the added pairs: the last pair |
| BlockIterators.BlockIter.Next | SmartMeal/Pods/leveldb-library/table/block.cc:138-141 | a cursor over exactly the added pairs: the next pair |
| BlockIterators.BlockIter.Prev | SmartMeal/Pods/leveldb-library/table/block.cc:143-162 | a cursor over exactly the added pairs: the previous pair: Prev undoes Next, for every restart interval |
| BlockIterators.BlockIter.Seek | SmartMeal/Pods/leveldb-library/table/block.cc:164-202 | a cursor over exactly the added pairs: binary search over restart points and a scan reach the first pair whose key is at or past the target |
| Comparators.FindShortestSeparator | SmartMeal/Pods/leveldb-library/util/comparator.cc:31-52 | the start itself, or cut off where the two first differ with that byte counted up if there is room: no longer than it, strictly between start and limit |
| Comparators.FindShortSuccessor | SmartMeal/Pods/leveldb-library/util/comparator.cc:54-66 | the key cut off behind the first byte that can be counted up, which is; no longer than it and after it, or the key itself |
| Comparators.LessOrder | SmartMeal/Pods/leveldb-library/util/comparator.cc:27-29 | the bytewise order is a strict total order |
| Comparators.InternalOrder | SmartMeal/Pods/leveldb-library/db/dbformat.cc:47-63 | the order of internal keys is a strict weak order |
| Comparators.InternalSeparator | SmartMeal/Pods/leveldb-library/db/dbformat.cc:65-82 | the start itself, or the shortened user key with the largest tag: a key whose user key lies strictly between theirs |
| Comparators.InternalSuccessor | SmartMeal/Pods/leveldb-library/db/dbformat.cc:84-97 | the key itself, or the shortened user key with the largest tag: a key of a later user key |
| BloomFilters.CreateFilter | SmartMeal/Pods/leveldb-library/util/bloom.cc:28-54 | a bit array of the least whole bytes with at least 64 bits and so many for each key, in which exactly the probes of the keys are marked, and behind it the number of probes |
| BloomFilters.DeltaRotates | SmartMeal/Pods/leveldb-library/util/bloom.cc:44-52 | the step between probes is the hash rotated right by 17 bits |
| BloomFilters.KeyMayMatch | SmartMeal/Pods/leveldb-library/util/bloom.cc:56-80 | true exactly when all probes are marked, or for an encoding it does not know |
| BloomFilters.NoFalseNegatives | SmartMeal/Pods/leveldb-library/util/bloom.cc:28-80 | a filter denies exactly the keys that have a probe unmarked, so never one it was made from; the most probes any policy makes included |
| FilterBlocks.FilterBlockBuilder.StartBlock | SmartMeal/Pods/leveldb-library/table/filter_block.cc:21-27 | all ranges before the block's offset have their filters; pending keys went to the range they belong to |
| FilterBlocks.FilterBlockBuilder.GenerateFilter | SmartMeal/Pods/leveldb-library/table/filter_block.cc:51-75 | the pending keys become the next filter, an empty one when there are none |
| FilterBlocks.FilterBlockBuilder.Finish | SmartMeal/Pods/leveldb-library/table/filter_block.cc:35-49 | the filters, their offsets, and the trailer |
| FilterBlocks.FilterNeverDenies | SmartMeal/Pods/leveldb-library/table/filter_block.cc:77-104 | a finished filter block never denies a key at an offset under which it was added |
| TableFormats.HandleRoundTrip | SmartMeal/Pods/leveldb-library/table/format.cc:15-29 | a block handle is read back from its encoding |
| TableFormats.ReadsBlock | SmartMeal/Pods/leveldb-library/table/format.cc:64-139 | a block is read back as it was written, with or without checksum verification |
| TableFormats.ReadBlockIff | SmartMeal/Pods/leveldb-library/table/format.cc:64-139 | with checksum verification a block is read exactly if it is there with its trailer; without, exactly if its bytes are there and marked uncompressed |
| TableFormats.FooterHasMagic | SmartMeal/Pods/leveldb-library/table/format.cc:42-62 | no footer is read without the magic number in its last eight bytes |
| TableFormats.FooterRoundTrip | SmartMeal/Pods/leveldb-library/table/format.cc:31-62 | the footer is 48 bytes and is read back |
| TableBuilders.AddPair | SmartMeal/Pods/leveldb-library/table/table_builder.cc:94-123 | a pair behind all others keeps keys ascending and separators between the blocks |
| TableBuilders.CloseBlock | SmartMeal/Pods/leveldb-library/table/table_builder.cc:125-139 | finishing a block changes nothing of what was added |
| TableBuilders.FiledClose | SmartMeal/Pods/leveldb-library/table/table_builder.cc:125-139 | when a block is finished every key so far is in the filter of its block's range or still pending for it |
| TableBuilders.TableBuilder.Add | SmartMeal/Pods/leveldb-library/table/table_builder.cc:94-123 | the pairs added grow by this one; the block it goes to is finished exactly when it has reached the block size, and the block before it gets its index entry under the shortened separator |
| TableBuilders.TableBuilder.Flush | SmartMeal/Pods/leveldb-library/table/table_builder.cc:125-139 | the open block is written if it has pairs, and a new one begun; the pairs added stay the same |
| TableBuilders.TableBuilder.WriteBlock | SmartMeal/Pods/leveldb-library/table/table_builder.cc:141-175 | the finished block with its trailer is at the end of the file, where the handle says |
| TableBuilders.TableBuilder.Finish | SmartMeal/Pods/leveldb-library/table/table_builder.cc:198-253 | the file is a complete table of exactly the pairs added: blocks, filters, index, metaindex and footer |
| Tables.LookupDecides | SmartMeal/Pods/leveldb-library/table/table.cc:214-242 | the first key at or past the target is in the block whose separator is first at or past it, or is of another user key: shortened separators lose nothing |
| Tables.NextIsForeign | SmartMeal/Pods/leveldb-library/db/dbformat.cc:65-82 | a key past a whole block but not past its separator lies before the next block's first user key |
| Tables.FirstIsNewest | SmartMeal/Pods/leveldb-library/table/table.cc:214-242 | the first pair at or past the seek key of (user, sequence) is the newest entry of the user key at or before it, or of another user key when there is none |
| TableReaders.Open | SmartMeal/Pods/leveldb-library/table/table.cc:38-80 | a table that was built is opened, with its filter if the reader has the policy |
| TableReaders.ReadMeta | SmartMeal/Pods/leveldb-library/table/table.cc:82-109 | the filter is found under its policy's name in the metaindex exactly when one was written |
| TableReaders.Denied | SmartMeal/Pods/leveldb-library/table/table.cc:224-227 | when the filter denies the key, no pair of its user key is in the block |
| TableReaders.InternalGet | SmartMeal/Pods/leveldb-library/table/table.cc:214-242 | for any block size and restart interval and despite separators and filters: nothing but the first pair at or past the key is ever found, and it is found whenever it is of the key's user key |
| TableReaders.GetNewest | SmartMeal/Pods/leveldb-library/db/version_set.cc:262-276 | with the callback's comparison of user keys: the newest entry of the user key at or before the sequence number, or a miss exactly when there is none |
| PbFieldIters.FieldIter.Begin | SmartMeal/Pods/nanopb/pb_common.c:8-27 | the iterator stands on the first field; false exactly for a message type without fields |
| PbFieldIters.FieldIter.Next | SmartMeal/Pods/nanopb/pb_common.c:29-85 | one field on or back to the first; the data pointer, the size pointer and the required-field index are again functions of the position alone, unions and arrays included |
| PbFieldIters.FieldIter.Find | SmartMeal/Pods/nanopb/pb_common.c:87-104 | terminates; true exactly when a non-extension field has the tag (or the terminator passes for tag 0 in an empty type); stops on the next such field going round, or comes back to where it was |
| PbFieldIters.AtItsPlace | SmartMeal/Pods/nanopb/pb.h:390-409 | over a descriptor that the macros make of a structure, the data and size pointers come to the places of its members, arrays, pointers and unions included |
| PbRequired.MarkSeen | SmartMeal/Pods/nanopb/pb_decode.c:1021-1026 | sets exactly the bit of the index in the two words |
| PbRequired.AllSeen | SmartMeal/Pods/nanopb/pb_decode.c:1039-1079 | the test of whole words and remaining bits passes exactly when each of the first 64 required fields was seen |
| PbReaders.CountRequired | SmartMeal/Pods/nanopb/pb_decode.c:1045-1058 | running the iterator to the end of the descriptor counts the required fields, from wherever it stands |
| PbVarints.PbVarint32RoundTrip | SmartMeal/Pods/nanopb/pb_decode.c:187-252 | every 32-bit number is read back by the reader that also checks overflow and sign extension |
| PbWideVarints.WideNumbers | SmartMeal/Pods/nanopb/pb_decode.c:187-252 | of the numbers of 33 to 64 bits the checking reader takes exactly those with bits 31 and 63 set and bits 35 to 62 in groups of seven alike, for their low 32 bits, and refuses all others |
| PbWideVarints.NegativesAndMore | SmartMeal/Pods/nanopb/pb_decode.c:220-233 | so every negative 32-bit number written as 64 bits is read, and also a number that is no such thing |
| PbVarints.ZigZagRoundTrip | SmartMeal/Pods/nanopb/pb_encode.c:630-639 | zigzag maps every 64-bit integer to a small natural and is undone |
| PbVarints.SignExtended | SmartMeal/Pods/nanopb/pb_decode.c:1345-1380 | a negative number written as 64 bits is read back from a field of any size it fits |
| PbEncoding.OStream.Write | SmartMeal/Pods/nanopb/pb_encode.c:103-124 | succeeds exactly if there is room, writes or only counts, and never lets bytes_written exceed max_size |
| PbEncoding.OStream.EncodeVarint | SmartMeal/Pods/nanopb/pb_encode.c:608-628 | the varint is emitted, through the one-byte case or the loop; ten bytes of buffer suffice |
| PbEncoding.EncodePacked | SmartMeal/Pods/nanopb/pb_encode.c:162-205 | a packed array is a tag, the exact size of its entries, and the entries, whether the size is computed or measured by a sizing pass |
| PbEncoding.EncodeArray | SmartMeal/Pods/nanopb/pb_encode.c:147-236 | an array is emitted packed or entry by entry, an overfull one is refused |
| PbEncoding.EncodeSubmessage | SmartMeal/Pods/nanopb/pb_encode.c:717-765 | the sizing pass counts exactly the bytes the writing pass emits, so the branch for a changed size is unreachable; the substream is as large as needed |
| PbEncoding.EncodeBasicField | SmartMeal/Pods/nanopb/pb_encode.c:341-426 | present fields are emitted behind their tag, absent ones not at all, for has flags, implicit presence, arrays and unions |
| PbEncoding.Encode | SmartMeal/Pods/nanopb/pb_encode.c:528-550 | pb_encode emits the wire format of the message on a stream of either kind, and succeeds exactly if it exists and fits |
| PbEncoding.GetEncodedSize | SmartMeal/Pods/nanopb/pb_encode.c:567-576 | the size reported is the number of bytes that encoding writes |
| PbReaders.IStream.DecodeVarint32 | SmartMeal/Pods/nanopb/pb_decode.c:187-252 | on any input the loop reads what the 32-bit varint reader is specified to read |
| PbReaders.IStream.DecodeVarint | SmartMeal/Pods/nanopb/pb_decode.c:255-275 | so does the 64-bit loop, up to ten bytes |
| PbReaders.IStream.MakeStringSubstream | SmartMeal/Pods/nanopb/pb_decode.c:372-385 | the substream is exactly the counted bytes, the parent goes on behind them |
| PbReaders.IStream.CloseStringSubstream | SmartMeal/Pods/nanopb/pb_decode.c:387-400 | whatever the substream left unread is passed over |
| PbReaders.DecodeStaticField | SmartMeal/Pods/nanopb/pb_decode.c:406-483 | a field's entry replaces, merges, appends or switches the union, as its kind says |
| PbReaders.DecodeEntry | SmartMeal/Pods/nanopb/pb_decode.c:966-1029 | one field found by the iterator, with fixed-count arrays entered and left in order and required fields ticked off |
| PbReaders.DecodeNoinit | SmartMeal/Pods/nanopb/pb_decode.c:934-1082 | on any input: succeeds exactly when the bytes are a sequence of fields of the type with all required ones, and merges them into the destination |
| PbReaders.Decode | SmartMeal/Pods/nanopb/pb_decode.c:1084-1096 | the same from the initial contents of the message type |
| PbDecoding.OneSelector | SmartMeal/Pods/nanopb/pb_decode.c:466-478 | fields of one union have the same data and the same selector, so choosing one drops the others |
| PbRoundTrips.ScalarRoundTrip | SmartMeal/Pods/nanopb/pb_decode.c:1334-1523 | each scalar, string and blob is read back from what was emitted |
| PbRoundTrips.MessageRoundTrip | SmartMeal/Pods/nanopb/pb_encode.c:528-765 | decode(encode(m)) = m up to the payload of absent fields, for every well-formed static descriptor of any nesting and every message that matches it |
| PbRoundTrips.NothingLost | SmartMeal/Pods/nanopb/pb_encode.c:240-337 | the normal form keeps every present field and, for fields whose presence is told by their value, absent ones too; only payloads behind a false has flag or an unset union are reset |
| PbRoundTrips.AllAbsent | SmartMeal/Pods/nanopb/pb_encode.c:289-308 | a submessage that counts as unset reads like a fresh one |
| PbUnknownFields.FieldSkipped | SmartMeal/Pods/nanopb/pb_decode.c:321-331 | what was written for a field whose tag the type lacks is passed over without a trace, wherever the decoder stands, for all wire types, packed and repeated fields included |
| PbUnknownFields.OlderReader | SmartMeal/Pods/nanopb/pb_decode.c:934-1082 | a reader that lacks some of the fields written decodes the others as if only they had been written |
| PbUnknownFields.UnknownInFront | SmartMeal/Pods/nanopb/pb_decode.c:982-997 | an unknown field in front of a message does not change what is decoded |
| PbMerging.Replaces | SmartMeal/Pods/nanopb/pb_decode.c:406-483 | a value other than a submessage takes the place of what was decoded before |
| PbMerging.ChosenMeans | SmartMeal/Pods/nanopb/pb_decode.c:466-480 | choosing a field of a union unsets the others of that union and touches nothing else |
| PbMerging.Merges | SmartMeal/Pods/nanopb/pb_decode.c:466-477 | a submessage is decoded into the one that is there, or into a fresh one if another field of its union was chosen |
| PbMerging.Appends | SmartMeal/Pods/nanopb/pb_decode.c:424-453 | a packed array is appended to what is there, and refused if there is no room for it |
| PbMerging.EntryAppends | SmartMeal/Pods/nanopb/pb_decode.c:454-463 | an entry that comes alone, packable or not, a submessage included, is appended, and refused if there is no room for it |
| PbMerging.NothingDecoded | SmartMeal/Pods/nanopb/pb_decode.c:1039-1079 | the empty input is a message exactly of a type without required fields, and changes nothing |
| PbMerging.NumbersRefused | SmartMeal/Pods/nanopb/pb_decode.c:1345-1428 | a number is refused exactly if it does not fit the storage of its field |
| PbMerging.LongRefused | SmartMeal/Pods/nanopb/pb_decode.c:1447-1523 | a string or blob longer than its field has room for is refused |
| PbMerging.BlobSizes | SmartMeal/Pods/nanopb/pb_decode.c:1549-1570 | a blob of fixed length is read at exactly that length; an empty one stands for zeros, any other length is refused |
| PbMerging.AnythingIsTrue | SmartMeal/Pods/nanopb/pb_decode.c:1334-1343 | any 32-bit number but zero is read as true |
| PbMerging.StringEnds | SmartMeal/Pods/nanopb/pb_decode.c:1487-1523 | a string ends at its first zero byte, wherever its length says it ends |
| PbIncomplete.FirstFieldsOnly | SmartMeal/Pods/nanopb/pb_decode.c:1039-1079 | the encoding of the first n fields alone is a message exactly if none of the others is required, as far as required fields are tracked; the others keep their first contents |
| PbIncomplete.ShortArray | SmartMeal/Pods/nanopb/pb_decode.c:1030-1036 | an array of fixed count that got some of its entries and not all makes the message fail at its end |
| PbIncomplete.Interrupted | SmartMeal/Pods/nanopb/pb_decode.c:996-1018 | or as soon as an entry of another such array arrives, whatever follows |
| FormatBytes.TagsInBytes | SmartMeal/Pods/nanopb/pb_encode.c:669-707 | the bytes of the tags of field 1 with each wire type |
| PbRoundTrips.Encodes | SmartMeal/Pods/nanopb/pb_encode.c:341-426 | every message that matches its descriptor can be encoded |
| PbRoundTrips.EncodedFits | SmartMeal/Pods/nanopb/pb_encode.c:852-872 | what is encoded fits its descriptor: no array holds more than its field has room for, no blob is longer than its field, every number has storage of a size there is, at any depth; anything else is refused |

## Left out

- Runs.RunsStayFaithful: excludes runs with an unsafe compaction, because the code can take one; the exact condition is in CompactionReads.PreservesReadsIff and Runs.CompactKeepsReadsIff.
- CompactionWork.DoCompactionWork: does not interleave the flush of the frozen memtable inside the loop (`SmartMeal/Pods/leveldb-library/db/db_impl.cc:917-928`), on which neither input nor drop decisions depend; `Interleavings` is about that, on the states of the engine, while `Database.Db` runs a compaction in one piece. The size a table has is a parameter.
- Interleavings.RunsStayOk: excludes runs in which an output meets a file flushed meanwhile, because a manual compaction can have one; Interleavings.InstallKeepsIff is the exact condition.
- CompactionPicker.PickTrigger: scores are real numbers where the source has doubles, and the charging of seeks is a parameter that says which file has too many.
- Database.Db.Write: assumes the last sequence number stays below its 56-bit maximum, as the engine does.
- Database.Db.CompactMemTable: the size of a table is a parameter, and a table is its list of entries; the bytes are the subject of the table modules.
- TableReaders.InternalGet: each block and the filter block below 4 GiB, above which 32-bit offsets in them would wrap.
- TableFormats.ReadsBlock: blocks are stored uncompressed; Snappy is not part of this model, and the checksum is a parameter.
- BlockIterators.BlockIter.Seek: blocks are finished blocks; the branches that report corrupt blocks are not modelled.
- LogReader.ReadLog: starts at offset 0; resynchronising from an initial offset is not modelled. On a damaged file it says what is returned, not how many bytes are reported as dropped.
- CrashRecovery.RecoverLogFile: one log at a time, cut short but not damaged; the order of several logs, reuse of the last one and the read-back of table files are not modelled.
- ManifestFiles.Recover: a manifest cut short but not damaged; `CURRENT`, reuse of the manifest and compact pointers are not modelled. User keys and table contents are named by the caller.
- SkipLists.SkipList.Insert: the random height is a parameter, and stores are sequentially consistent steps.
- HandleTables.HandleTable.Lookup: the hash is a parameter, and the bucket is the remainder by the length.
- VersionEdits.EditRoundTrip: decodes into a fresh edit; `Clear` does not reset the compact pointers (`SmartMeal/Pods/leveldb-library/db/version_edit.cc:26-39`), so a reused one may keep some.
- DbIterators.DbIterator.Next: read sampling and keys that cannot be parsed are not modelled.
- PbRoundTrips.MessageRoundTrip: encodings below 4 GiB and tags below 2^29, as the wire format has it; the contents of a fixed-count array that never arrives are whatever was in memory.
- PbReaders.Decode: the destination is a value that the methods return rather than memory written in place, so what is left of it after a failed decode is not captured.
- User keys in the LSM modules are ranks in a total order; byte strings and the comparator are in the table modules.
- I/O errors, file creation, syncing and renaming, locks, shutdown, logging and the environment layer.
- Delays and liveness of `MakeRoomForWrite`, and scheduling of background work.
- Sharding and mutexes of the cache, the block and table caches around the readers, iterator wrappers that cache keys.
- Arena allocation and raw pointers; nodes are named by their keys.
- Merging iterators over no child or a single child, which the source replaces by simpler iterators.
- The app's own Swift code, SnapKit and the Firebase libraries: interface code and thin wrappers.
- nanopb callbacks, extensions, pointer fields and allocation, streams other than buffers, the build without 64-bit integers, and tables of `pb_field_t` wider or narrower than 32 bits.

# LevelDB's storage engine and libuv's algorithms, modelled and proved

The repository vendors LevelDB and parts of libuv in source form. This project models the core of both in Dafny and
proves what they are for.

**The store.** A table file is a strictly sorted run of rows (user key, sequence number, kind, value), user keys
ascending and sequence numbers descending. The specification of the whole engine is one line: a reader at sequence
number s sees, for each key, the newest row with a sequence number of at most s (`DbFormat.View`). Everything else must
keep that: lookup across memtables and levels, choice of compaction inputs, the compaction loop, trivial moves, flushes,
the manifest and its recovery, and the bidirectional iterator. User keys are reals: only their order matters, and every
countable total order, byte strings included, embeds in the reals.

**The main results.**
- Over every run of writes, memtable switches, flushes, moves, compactions, snapshots and manifest rewrites the recency
  and disjointness invariants hold (`StoreRuns.RunKeepsInv`), the newest reader and every snapshot held read exactly what
  was written (`StoreRuns.StoreRefinesHistory`, `SnapshotsReadHistory`, `SnapshotShowsItsMoment`), and recovery from the bytes of the manifest succeeds and gives the current
  file lists (`ManifestBytes.RecoverRun`).
- A compaction does not always keep the meaning of the store. The code closes the upper inputs under files that go on
  with the last user key (version_set.cc:1407, 1422) but not the files of the next level (1410-1411, 1432-1433).
  `CompactionMeaning.CompactionPreservesViewsIff` gives the exact condition, one that can be checked before the
  compaction runs, and `Resurrection.DeletedKeyComesBack` a run from a fresh database, with the inputs the code is
  forced to choose, in which a deleted key comes back. The theorems about what runs read therefore assume that no
  installed compaction meets that condition for the oldest reader.
- A memtable may be flushed while a compaction runs (db_impl.cc:908-918), into a gap between the files being compacted.
  Installing the compaction then keeps the invariant if and only if no output overlaps a file flushed meanwhile
  (`StoreInvariant.InstallKeepsInvIff`), and it does so for every way to cut the outputs if and only if the rows kept do
  not lie on both sides of such a file (`FlushDuringCompaction.EveryCutClearIff`, `FlushIsSafeIff`). The compactions that
  the store starts by itself leave no gap (`CompactionInputs.PickCompaction`, `FlushDuringCompaction.GaplessIsClear`).
  Manual ones may: `GapScenario.ManualCompactionBreaksLevel` is a run from a fresh database to two overlapping files in a
  sorted level. Install steps that break a level are therefore no steps of the model's runs.
- `DBIter` is a cursor over the sorted map of live keys under any mix of operations (`DbIterator.RunOps`), writers commit
  in groups in arrival order (`WriteQueue`) and readers see each group as one write even while it is being inserted
  (`GroupCommit.ReadersSeeGroupsWhole`), the update that comes last in queue order winning
  (`GroupCommit.CommittedGroupIsRead`), and the four-stride CRC equals bit-by-bit polynomial division (`Crc32c.Extend`) by
  the CRC-32C polynomial (`CrcNumbers`).
- The bytes of a manifest record are fixed field by field and read back (`EditLayout.RecordLayout`, `RecordRead`), and
  `ManifestBytes` says which bad records make recovery fail and how.
- `DbEngine.DbImpl` is the database object whose methods are proved to take those steps. The skip list serves readers
  correctly whatever is published between any two of their reads (`SkipListReaders`), the cache evicts the
  entries released longest ago, none too many, and frees each once (`LruCaches`), and level 0 stays bounded
  (`LevelZeroLimit`).
- In libuv: the binary heap of linked nodes stays complete and ordered (`BinaryHeap`), the thread pool
  completes each request exactly once, loses no wake-up, leaves nothing undone (`ThreadPool.EverythingCompletes`) and
  starts requests of one kind in the order submitted (`ThreadPoolOrder.StartedInOrder`), and the red-black tree keeps
  order, links, colours and its height bound under insertion and removal (`RedBlackTree`).

The mirrored left and right halves of the tree code are one method with a side as parameter. The memory of the tree nodes
is a map from pointers to cells, so that every pointer assignment is visible. Code that several places inline (searching
the tree, replacing a child) is one method here.

## Model

| member | source | states |
|---|---|---|
| `DbFormat.RunGetIsNewest` | ios/Pods 2/leveldb-library/db/version_set.cc:263-276 | seeking the packed key (user key, sequence) in a sorted run and comparing user keys returns the newest row at or below the sequence number, and reports a miss exactly when there is none |
| `DbFormat.NewestExists` | ios/Pods 2/leveldb-library/db/dbformat.h:160-163 | a run that holds any row for the key at or below the sequence number has a newest one |
| `DbFormat.PackedTag` | ios/Pods 2/leveldb-library/db/dbformat.h:52-65 | sequence number and type are packed into 64 bits without loss, and no larger sequence number would fit |
| `Versions.FindFile` | ios/Pods 2/leveldb-library/db/version_set.cc:88-106 | the binary search returns the first file whose largest key is not below the target |
| `Versions.FoundFileHoldsNewest` | ios/Pods 2/leveldb-library/db/version_set.cc:382-390 | in a sorted level the file found holds the newest row of the key if the level holds any, also when the key straddles adjacent files |
| `Versions.OverlappingNewestFirst` | ios/Pods 2/leveldb-library/db/version_set.cc:341-366 | exactly the level-0 files whose range includes the key, newest file number first |
| `Versions.GetFromLevelZero` | ios/Pods 2/leveldb-library/db/version_set.cc:341-405 | stops at the first hit and that hit is the newest row of the key in level 0 |
| `Versions.GetFromLevel` | ios/Pods 2/leveldb-library/db/version_set.cc:366-405 | a deeper level answers with its newest row of the key, or with a miss exactly when it has none |
| `Versions.Get` | ios/Pods 2/leveldb-library/db/version_set.cc:326-421 | a whole lookup equals the multi-version map over all rows of all files |
| `Versions.VersionUniqueSeqs` | ios/Pods 2/leveldb-library/db/version_set.cc:326-421 | in a valid version no two different rows of one key have one sequence number |
| `CompactionInputs.SomeFileOverlapsRange` | ios/Pods 2/leveldb-library/db/version_set.cc:122-157 | true exactly when some file overlaps the range, with open ends, by scan or by binary search |
| `CompactionInputs.PickLevelForMemTableOutput` | ios/Pods 2/leveldb-library/db/version_set.cc:491-516 | the level chosen overlaps nothing on the way, is at most 2, and is left only for one of the three stated reasons, one of them more than 10 times the target file size of overlapping files two levels down |
| `CompactionInputs.SizesAdd` | ios/Pods 2/leveldb-library/db/version_set.cc:60-66 | the total size of one file is its size, and totals add up |
| `CompactionInputs.GetOverlappingInputs` | ios/Pods 2/leveldb-library/db/version_set.cc:519-559 | returns all overlapping files; in level 0 the restarts end, at the least closed range that covers the one asked for |
| `CompactionInputs.FindLargestKey` | ios/Pods 2/leveldb-library/db/version_set.cc:1326-1340 | a largest key of the files, none exactly for no files |
| `CompactionInputs.GetRange` | ios/Pods 2/leveldb-library/db/version_set.cc:1205-1227 | the least range covering the inputs |
| `CompactionInputs.FindSmallestBoundaryFile` | ios/Pods 2/leveldb-library/db/version_set.cc:1344-1363 | the file with the smallest key that continues the user key, none exactly when there is none |
| `CompactionInputs.AddBoundaryInputs` | ios/Pods 2/leveldb-library/db/version_set.cc:1378-1401 | ends; adds no file twice and none but files that go on with a largest key so far; afterwards no file of the level continues the largest key; a slice of a sorted level stays a slice; no gap arises |
| `CompactionInputs.GrowInputs` | ios/Pods 2/leveldb-library/db/version_set.cc:1413-1450 | the upper inputs become what a search for the range of all inputs finds, closed again, exactly if that is more files, all inputs together stay below 25 times the target file size and the next level takes part with no other file than before; otherwise they stay |
| `CompactionInputs.SetupOtherInputs` | ios/Pods 2/leveldb-library/db/version_set.cc:1403-1462 | the inputs are closed above, the next level takes part with exactly the files meeting the range, the upper inputs grow exactly when the code's three conditions hold and that set stays as it is; the grandparents are exactly the files two levels down that meet the range; gapless seeds give gapless inputs |
| `CompactionInputs.PickCompaction` | ios/Pods 2/leveldb-library/db/version_set.cc:1270-1322 | for whichever file the heuristics choose, the inputs are those found from it, grown exactly when they may, closed as above, and leave no gap |
| `CompactionInputs.FirstBytes` | ios/Pods 2/leveldb-library/db/version_set.cc:1475-1488 | the shortest non-empty prefix reaching the size limit, or everything |
| `CompactionInputs.CompactRange` | ios/Pods 2/leveldb-library/db/version_set.cc:1464-1495 | nothing exactly when no file overlaps the range, otherwise inputs closed as above that contain, at level 0, every overlapping file and, above, the shortest prefix of the overlapping files that reaches the size limit, or all of them |
| `CompactionInputs.GaplessWithOverlaps` | ios/Pods 2/leveldb-library/db/version_set.cc:1410-1411 | adding the next level's files that meet a gapless range leaves no gap |
| `CompactionInputs.FoundIsGapless` | ios/Pods 2/leveldb-library/db/version_set.cc:519-559 | what a range search finds around a covered range is gapless with that cover, in level 0 because the range is the least closed one |
| `CompactionLoop.BaseLevelCursor.IsBaseLevelForKey` | ios/Pods 2/leveldb-library/db/version_set.cc:1533-1552 | on non-decreasing keys the advancing cursors agree with a full scan of the deeper levels |
| `CompactionLoop.DoCompactionWork` | ios/Pods 2/leveldb-library/db/db_impl.cc:901-1036 | the output files, however cut, hold together exactly the rows that are not dropped, in order |
| `CompactionMeaning.WhyDropped` | ios/Pods 2/leveldb-library/db/db_impl.cc:946-961 | a dropped row is hidden by a newer row at or below the smallest snapshot, or is a tombstone with no data below |
| `CompactionMeaning.DroppedExactly` | ios/Pods 2/leveldb-library/db/db_impl.cc:946-961 | a row is dropped if and only if an input row of its key at or below the smallest snapshot is newer, or it is a tombstone at or below it and no file from two levels down on has its key in range |
| `CompactionMeaning.TopSnapshotDropsAll` | ios/Pods 2/leveldb-library/db/db_impl.cc:905-946 | with the largest sequence number as smallest snapshot the loop would drop every row |
| `CompactionMeaning.SelectedIsClosed` | ios/Pods 2/leveldb-library/db/version_set.cc:1403-1462 | inputs as the code selects them leave only newer rows of their keys behind at their level |
| `CompactionMeaning.CompactionPreservesViewsIff` | ios/Pods 2/leveldb-library/db/db_impl.cc:901-999 | every key reads the same before and after, at every sequence number from any floor at or above the compaction's snapshot on, if and only if no dropped tombstone that a reader at the floor relies on has an older value next in a next-level file left out |
| `Resurrection.SelectionIsForced` | ios/Pods 2/leveldb-library/db/version_set.cc:1403-1462 | in the state reached, the inputs are the only ones the code can select |
| `Resurrection.DeletedKeyComesBack` | ios/Pods 2/leveldb-library/db/db_impl.cc:949-961 | a run from a fresh database to an install step that brings a key back: it reads as deleted before the step and has a value after it |
| `VersionBuilder.ListsUnique` | ios/Pods 2/leveldb-library/db/version_set.cc:590-606 | files ordered by smallest key and number are determined by their set |
| `VersionBuilder.UpperBound` | ios/Pods 2/leveldb-library/db/version_set.cc:709-716 | the first base file after the added one |
| `VersionBuilder.MergeLevel` | ios/Pods 2/leveldb-library/db/version_set.cc:695-739 | merging the base files with the added files gives the ordered list of the undeleted ones |
| `VersionBuilder.Builder.constructor` | ios/Pods 2/leveldb-library/db/version_set.cc:619-626 | a new builder stands for the base version |
| `VersionBuilder.Builder.Apply` | ios/Pods 2/leveldb-library/db/version_set.cc:650-692 | applying an edit changes the files the builder stands for as applying the edit alone does |
| `VersionBuilder.Builder.SaveTo` | ios/Pods 2/leveldb-library/db/version_set.cc:695-739 | the saved version lists, in order, exactly the files the builder stands for |
| `Manifest.ApplyNext` | ios/Pods 2/leveldb-library/db/version_set.cc:941-943 | a builder fed one more edit of a log that adds nothing twice stands for the log's edits applied one by one |
| `Manifest.LastGivenIsLast` | ios/Pods 2/leveldb-library/db/version_set.cc:946-964 | the counter kept while reading a log is the one given last, none exactly if none was given |
| `Manifest.NextEditUnused` | ios/Pods 2/leveldb-library/db/version_set.cc:650-692 | in a log that adds no (level, number) pair twice, no edit re-adds a file a builder already knows |
| `EditCodec.VarintRoundTrip` | ios/Pods 2/leveldb-library/db/version_edit.cc:41-84 | a varint is read back, whatever follows it |
| `EditCodec.FieldsRoundTrip` | ios/Pods 2/leveldb-library/db/version_edit.cc:41-205 | decoding any list of valid fields sets exactly those fields in order, without error |
| `EditCodec.TruncationDetected` | ios/Pods 2/leveldb-library/db/version_edit.cc:106-205 | a record cut anywhere but between two fields is reported as corrupt, after exactly the whole fields before the cut |
| `EditCodec.EditRoundTrip` | ios/Pods 2/leveldb-library/db/version_edit.cc:41-205 | decoding inverts encoding for every edit; compaction pointers already there stay in front, since Clear keeps them |
| `EditCodec.DecodedInRange` | ios/Pods 2/leveldb-library/db/version_edit.cc:106-205 | whatever the bytes, every level, number and string decoded is in the range of its type |
| `EditLayout.VarintIsBase128` | ios/Pods 2/leveldb-library/db/version_edit.cc:41-84 | a number is written as its base-128 digits, lowest first, high bit set on all but the last, no more of them than it has |
| `EditLayout.VarintRead` | ios/Pods 2/leveldb-library/db/version_edit.cc:106-205 | such digits are read back as their value, unless there are too many |
| `EditLayout.OnlyVarintsRead` | ios/Pods 2/leveldb-library/db/version_edit.cc:106-205 | nothing else is read as a number |
| `EditLayout.NumberLayout` | ios/Pods 2/leveldb-library/db/version_edit.cc:46-61 | a counter is its tag and the number |
| `EditLayout.ComparatorLayout` | ios/Pods 2/leveldb-library/db/version_edit.cc:42-45 | the comparator is tag 1, the length of its name and the name |
| `EditLayout.PointerLayout` | ios/Pods 2/leveldb-library/db/version_edit.cc:63-67 | a compaction pointer is tag 5, the level, the length of the key and the key |
| `EditLayout.DeletionLayout` | ios/Pods 2/leveldb-library/db/version_edit.cc:69-74 | a deleted file is tag 6, level and number |
| `EditLayout.AdditionLayout` | ios/Pods 2/leveldb-library/db/version_edit.cc:76-83 | a new file is tag 7, level, number, size, then smallest and largest key, each after its length |
| `EditLayout.RecordLayout` | ios/Pods 2/leveldb-library/db/version_edit.cc:41-84 | the fields of an edit are written in the order comparator 1, log number 2, previous log number 9, next file 3, last sequence 4, pointers 5, deleted files 6, new files 7 |
| `EditLayout.RecordRead` | ios/Pods 2/leveldb-library/db/version_edit.cc:106-205 | reading those bytes gives back the edit, after the compaction pointers already there |
| `EditLayout.NumberRead` | ios/Pods 2/leveldb-library/db/version_edit.cc:128-158 | tags 2, 9, 3 and 4 set the log number, previous log number, next file number and last sequence, whatever follows |
| `EditLayout.AdditionRead` | ios/Pods 2/leveldb-library/db/version_edit.cc:179-189 | the bytes of a new file add it at its level with number, size and keys where they belong, whatever follows |
| `EditLayout.DeletionRead` | ios/Pods 2/leveldb-library/db/version_edit.cc:171-177 | the bytes of a deleted file add its level and number, whatever follows |
| `EditLayout.LevelTooLarge` | ios/Pods 2/leveldb-library/db/version_edit.cc:97-105 | a level of 7 or more is reported as an error of its field |
| `EditLayout.ComparatorRead` | ios/Pods 2/leveldb-library/db/version_edit.cc:122-129 | tag 1 sets the comparator name, whatever follows |
| `EditLayout.PointerRead` | ios/Pods 2/leveldb-library/db/version_edit.cc:163-169 | the bytes of a compaction pointer add its level and key after those there, whatever follows |
| `EditLayout.UnknownTag` | ios/Pods 2/leveldb-library/db/version_edit.cc:190-193 | any other tag is reported as unknown |
| `EditLayout.VersionEditObject.EncodeTo` | ios/Pods 2/leveldb-library/db/version_edit.cc:41-84 | appends the record: comparator, log number, previous log number, next file number, last sequence, compaction pointers, deleted files ascending, new files, each with its tag and fields as the layout rows say |
| `EditLayout.VersionEditObject.DecodeFrom` | ios/Pods 2/leveldb-library/db/version_edit.cc:106-205 | the loop decodes into the cleared edit and reports the same error as the specification |
| `ManifestBytes.RecordUnderstood` | ios/Pods 2/leveldb-library/db/version_set.cc:930-932 | a record decoded into a fresh edit gives back the whole edit it encodes, comparator name included |
| `ManifestBytes.Recover` | ios/Pods 2/leveldb-library/db/version_set.cc:913-1004 | records are read up to the first bad one, whose complaint is reported; a missing counter is reported in the order of the tests; otherwise the files are those of the decoded edits applied one by one and every counter is the one given last |
| `ManifestBytes.OtherComparatorFails` | ios/Pods 2/leveldb-library/db/version_set.cc:933-940 | a record that names another comparator, after records that do not, makes recovery fail for that reason |
| `ManifestBytes.UnknownTagFails` | ios/Pods 2/leveldb-library/db/version_set.cc:930-932 | a record with an unknown tag, whatever valid fields come before it, makes recovery fail for that reason |
| `ManifestBytes.WhatIsMissing` | ios/Pods 2/leveldb-library/db/version_set.cc:975-984 | a missing next file number is reported first, then a missing log number, then a missing last sequence, each exactly if no record gives it |
| `ManifestBytes.RecoveredCounters` | ios/Pods 2/leveldb-library/db/version_set.cc:946-1004 | next file number, log number and last sequence are those of the last record that gives them; the next file number becomes the manifest's and is then counted up |
| `ManifestBytes.RecoveredPrevious` | ios/Pods 2/leveldb-library/db/version_set.cc:951-990 | the previous log number is the one given last, or 0 if none is |
| `ManifestBytes.RecoverRun` | ios/Pods 2/leveldb-library/db/version_set.cc:886-1011 | at every point of every run, recovery from the bytes of the manifest succeeds and returns exactly the current file lists, a next file number above every live file, and a last sequence number no row of the files exceeds |
| `VersionSteps.EditMembers` | ios/Pods 2/leveldb-library/db/version_set.cc:650-692 | after an edit a level holds exactly its files not deleted there and those added there, an addition winning over a deletion |
| `VersionSteps.FlushKeepsValid` | ios/Pods 2/leveldb-library/db/db_impl.cc:535-566 | installing a flushed memtable at a level it may go to keeps the version valid |
| `VersionSteps.MoveKeepsValid` | ios/Pods 2/leveldb-library/db/db_impl.cc:713-730 | moving a single input file one level down keeps the version valid |
| `VersionSteps.CompactionKeepsValid` | ios/Pods 2/leveldb-library/db/db_impl.cc:860-876 | replacing the inputs by the outputs, however cut, keeps the version valid, if no output overlaps a file flushed meanwhile |
| `VersionSteps.CompactionKeepsValidIff` | ios/Pods 2/leveldb-library/db/db_impl.cc:860-876 | the version after a compaction is valid if and only if no output overlaps a file flushed into its level meanwhile |
| `VersionSteps.CompactedEntries` | ios/Pods 2/leveldb-library/db/db_impl.cc:860-876 | the rows of the new version are the kept rows and those of the files left alone |
| `StoreInvariant.WriteKeepsInv` | ios/Pods 2/leveldb-library/db/db_impl.cc:1185-1255 | a write keeps the invariant |
| `StoreInvariant.SwitchKeepsInv` | ios/Pods 2/leveldb-library/db/db_impl.cc:1350-1367 | switching memtables keeps the invariant |
| `StoreInvariant.FlushKeepsInv` | ios/Pods 2/leveldb-library/db/db_impl.cc:535-566 | a flush keeps the invariant and every row, also during a compaction, wherever it lands |
| `StoreInvariant.FlushKeepsJob` | ios/Pods 2/leveldb-library/db/db_impl.cc:908-918 | any flush during a compaction leaves it what it was: its inputs still closed but for newcomers apart from them, its merge and the rows it keeps the same |
| `StoreInvariant.MoveKeepsInv` | ios/Pods 2/leveldb-library/db/db_impl.cc:713-730 | a trivial move keeps the invariant and every row |
| `StoreInvariant.StartKeepsInv` | ios/Pods 2/leveldb-library/db/db_impl.cc:878-900 | starting a compaction with inputs as selected keeps the invariant |
| `StoreInvariant.InstallKeepsInvIff` | ios/Pods 2/leveldb-library/db/db_impl.cc:860-876 | installing a compaction keeps the invariant if and only if no output overlaps a file flushed meanwhile |
| `StoreInvariant.InstalledEntries` | ios/Pods 2/leveldb-library/db/db_impl.cc:860-876 | after installing a compaction, however it is cut and whatever was flushed meanwhile, the rows of the store are those left out and those kept |
| `StoreInvariant.FailedWriteKeepsInv` | ios/Pods 2/leveldb-library/db/db_impl.cc:1219-1240 | a write whose log record failed uses up its sequence numbers, keeping the invariant and every row |
| `StoreInvariant.RewriteKeepsInv` | ios/Pods 2/leveldb-library/db/version_set.cc:1088-1116 | starting a new manifest with a snapshot record and the counters keeps the invariant |
| `StoreInvariant.ManifestStep` | ios/Pods 2/leveldb-library/db/version_set.cc:801-884 | LogAndApply keeps the manifest's replay equal to the current files |
| `StoreInvariant.StampedCounters` | ios/Pods 2/leveldb-library/db/version_set.cc:812-813 | the counters logged with an edit suffice for every live file and every row |
| `StoreRuns.StepKeepsInv` | ios/Pods 2/leveldb-library/db/db_impl.cc:535-1036 | every step keeps the invariant, an install step included when no output overlaps a file flushed meanwhile |
| `StoreRuns.InstallKeepsViewsIff` | ios/Pods 2/leveldb-library/db/db_impl.cc:860-876 | installing a compaction keeps what every key reads at every readable sequence number if and only if it brings no key back for the oldest reader |
| `StoreRuns.InstallRevives` | ios/Pods 2/leveldb-library/db/db_impl.cc:860-876 | if it does bring one back, the oldest reader sees a value where it saw none |
| `StoreRuns.StepKeepsViews` | ios/Pods 2/leveldb-library/db/db_impl.cc:535-1036 | every step but a write keeps what every key reads at every readable sequence number |
| `StoreRuns.WriteIsRead` | ios/Pods 2/leveldb-library/db/db_impl.cc:1214-1240 | right after a write its last update of each key is what a reader sees |
| `StoreRuns.RunKeepsInv` | ios/Pods 2/leveldb-library/db/db_impl.cc:535-1036 | the invariant holds at every point of every run |
| `StoreRuns.StoreRefinesHistory` | ios/Pods 2/leveldb-library/db/db_impl.cc:1100-1146 | at every point of every run every readable sequence number reads what the plain history of writes says |
| `StoreRuns.SnapshotReadsRepeat` | ios/Pods 2/leveldb-library/db/db_impl.cc:1166-1174 | a snapshot readable at two points of a run shows the same at both |
| `StoreRuns.SmallestIsLeast` | ios/Pods 2/leveldb-library/db/db_impl.cc:890-894 | what a compaction takes as its smallest snapshot is the least of the last sequence number and all snapshots held |
| `StoreRuns.CompactionSparesReaders` | ios/Pods 2/leveldb-library/db/db_impl.cc:890-894 | a compaction starts with the least of all sequence numbers that somebody may read at |
| `StoreRuns.RunningSparesReaders` | ios/Pods 2/leveldb-library/db/db_impl.cc:890-894 | while it runs, whatever is snapshotted or released, every sequence number that may be read lies at or above the one it started with |
| `StoreRuns.SnapshotsReadHistory` | ios/Pods 2/leveldb-library/db/db_impl.cc:1100-1146 | every snapshot held, and the last sequence number, reads what the plain history of writes says |
| `StoreRuns.SnapshotShowsItsMoment` | ios/Pods 2/leveldb-library/db/db_impl.cc:1166-1174 | as long as a snapshot is held it shows what the newest reader saw when it was taken |
| `StoreRuns.RecoveryGivesCurrentVersion` | ios/Pods 2/leveldb-library/db/version_set.cc:886-1011 | at every point of every run recovery from the manifest gives exactly the current file lists |
| `FlushDuringCompaction.GaplessIsClear` | ios/Pods 2/leveldb-library/db/db_impl.cc:908-918 | a compaction without a gap can be installed however it is cut, whatever was flushed while it ran |
| `FlushDuringCompaction.EveryCutClearIff` | ios/Pods 2/leveldb-library/db/db_impl.cc:908-918 | a compaction can be installed however it is cut if and only if the rows it keeps do not lie on both sides of a file flushed meanwhile |
| `FlushDuringCompaction.FlushIsSafeIff` | ios/Pods 2/leveldb-library/db/db_impl.cc:908-918 | a flush into the level a compaction writes to leaves that so if and only if the rows kept do not lie on both sides of the flushed file |
| `GapScenario.WholeRangeIsSelected` | ios/Pods 2/leveldb-library/db/version_set.cc:1464-1495 | a manual compaction of the whole key range takes the files of the example |
| `GapScenario.ManualCompactionBreaksLevel` | ios/Pods 2/leveldb-library/db/db_impl.cc:568-583 | a run from a fresh database: a manual compaction, a flush between its files, and the install step after which the level holds two overlapping files |
| `DbIterator.SkipForward` | ios/Pods 2/leveldb-library/db/db_iter.cc:168-198 | the first entry that is neither invisible nor hidden is live, and no live key was passed |
| `DbIterator.DBIter.FindNextUserEntry` | ios/Pods 2/leveldb-library/db/db_iter.cc:168-198 | ends on the first live key in range, or invalid exactly when there is none |
| `DbIterator.DBIter.FindPrevUserEntry` | ios/Pods 2/leveldb-library/db/db_iter.cc:227-267 | ends on the last live key below, with its newest visible value saved |
| `DbIterator.DBIter.Next` | ios/Pods 2/leveldb-library/db/db_iter.cc:141-166 | moves to the first live key after the current one, from either direction |
| `DbIterator.DBIter.Prev` | ios/Pods 2/leveldb-library/db/db_iter.cc:200-225 | moves to the last live key before the current one, from either direction |
| `DbIterator.DBIter.Seek` | ios/Pods 2/leveldb-library/db/db_iter.cc:269-281 | moves to the first live key at or after the target |
| `DbIterator.DBIter.SeekToFirst` | ios/Pods 2/leveldb-library/db/db_iter.cc:283-292 | moves to the first live key |
| `DbIterator.DBIter.SeekToLast` | ios/Pods 2/leveldb-library/db/db_iter.cc:294-299 | moves to the last live key |
| `DbIterator.RunOps` | ios/Pods 2/leveldb-library/db/db_iter.cc:141-299 | any sequence of operations in any directions moves as a cursor over the sorted map of live keys |
| `DbIterator.CursorDependsOnMap` | ios/Pods 2/leveldb-library/db/db_iter.cc:141-299 | the cursor depends only on the map, not on how rows are spread |
| `DbIterator.PrevUndoesNext` | ios/Pods 2/leveldb-library/db/db_iter.cc:141-225 | Prev undoes Next |
| `WriteQueue.BuildBatchGroup` | ios/Pods 2/leveldb-library/db/db_impl.cc:1260-1306 | the group is the longest prefix of the queue that the sync and size rules allow; its updates are the batches of its writers, one after the other in queue order |
| `WriteQueue.GroupIsFair` | ios/Pods 2/leveldb-library/db/db_impl.cc:1260-1306 | no sync write rides under a non-sync leader; beyond the leader's own batch the size stays within 1 MiB, or within the leader's size plus 128 KiB if that size is at most 128 KiB; the group ends only where one of these would be broken or the queue ends |
| `WriteQueue.UpdatesInQueueOrder` | ios/Pods 2/leveldb-library/db/db_impl.cc:1260-1306 | the updates of a group are those of its writers in queue order, each batch whole and at its place |
| `WriteQueue.StepKeepsInv` | ios/Pods 2/leveldb-library/db/db_impl.cc:1185-1255 | every step of the writer queue keeps its invariant |
| `WriteQueue.FinishInArrivalOrder` | ios/Pods 2/leveldb-library/db/db_impl.cc:1185-1255 | writers finish in arrival order, each exactly once; the others are still queued |
| `WriteQueue.GroupsAreContiguous` | ios/Pods 2/leveldb-library/db/db_impl.cc:1214-1240 | committed groups take contiguous, disjoint sequence ranges in order |
| `WriteQueue.ReadersSeeWholeGroups` | ios/Pods 2/leveldb-library/db/db_impl.cc:1214-1240 | whoever reads at the last sequence number sees whole groups, a prefix of those committed |
| `GroupCommit.CommitRefines` | ios/Pods 2/leveldb-library/db/db_impl.cc:1214-1240 | committing a group is one write of its updates to the store, or, if the log failed, only the loss of their sequence numbers |
| `GroupCommit.MidInsertionReads` | ios/Pods 2/leveldb-library/db/db_impl.cc:1223-1240 | who reads while a group is being inserted sees the store before it |
| `GroupCommit.RunIsBacked` | ios/Pods 2/leveldb-library/db/db_impl.cc:1185-1255 | in every run of queue and store together, with flushes, compactions and snapshots at any point, memory is backed by a run of the store whose writes are exactly the groups committed so far, each whole and in one step |
| `GroupCommit.ReadersSeeGroupsWhole` | ios/Pods 2/leveldb-library/db/db_impl.cc:1214-1240 | at every point of every such run, in the middle of an insertion too, every readable published sequence number reads exactly what the groups committed so far say |
| `GroupCommit.SnapshotsSeeGroupsWhole` | ios/Pods 2/leveldb-library/db/db_impl.cc:1214-1240 | so does every snapshot held, read at any point |
| `GroupCommit.CommittedGroupIsRead` | ios/Pods 2/leveldb-library/db/db_impl.cc:1214-1240 | right after a group was committed, the update that comes last for its key in queue order is what a reader sees |
| `WriteQueue.FrontCanLead` | ios/Pods 2/leveldb-library/db/db_impl.cc:1196-1206 | whenever writers wait and none leads, the front one is awake and can lead |
| `Crc32c.LookupIsEightBits` | ios/Pods 2/leveldb-library/util/crc32c.cc:294-298 | one table lookup advances the register over eight bits of division |
| `Crc32c.Step1` | ios/Pods 2/leveldb-library/util/crc32c.cc:294-298 | a byte step takes in one byte |
| `Crc32c.StridesAreSixteenBytes` | ios/Pods 2/leveldb-library/util/crc32c.cc:301-307 | the four stride lookups advance a register over sixteen bytes |
| `Crc32c.Step4` | ios/Pods 2/leveldb-library/util/crc32c.cc:301-307 | a stride step advances over a swath and adds the next word |
| `Crc32c.Step4W` | ios/Pods 2/leveldb-library/util/crc32c.cc:320-327 | advances over four bytes already in a word |
| `Crc32c.WordIsFourBytes` | ios/Pods 2/leveldb-library/util/crc32c.cc:320-327 | four bytes taken in one at a time are one little-endian word taken in |
| `Crc32c.Extend` | ios/Pods 2/leveldb-library/util/crc32c.cc:283-377 | for every buffer, length, starting value and alignment the striped loop equals bit-by-bit division by the polynomial 0x82f63b78, before and after inverting all 32 bits |
| `Crc32c.CrcAppend` | ios/Pods 2/leveldb-library/util/crc32c.cc:283-377 | extending the checksum of a string by another gives the checksum of both together |
| `Crc32c.BurstDetected` | ios/Pods 2/leveldb-library/util/crc32c.cc:283-377 | an error within four bytes in a row always changes the checksum |
| `CrcNumbers.TableIsLinear` | ios/Pods 2/leveldb-library/util/crc32c.cc:20-63 | the byte table is linear: the entry of a sum of bytes is the sum of their entries |
| `CrcNumbers.TableOfBits` | ios/Pods 2/leveldb-library/util/crc32c.cc:20-63 | the entries of the eight single bits are the numbers in the table, written out, which with linearity fixes all 256 |
| `CrcNumbers.ChecksumOfZero` | ios/Pods 2/leveldb-library/util/crc32c.cc:283-377 | the checksum of one zero byte is 0x527d5351 |
| `LinearStrides.RotateStep` | ios/Pods 2/leveldb-library/util/crc32c.cc:351-366 | giving the next word to the oldest of four strides and rotating takes the word into the combined sum |
| `DbEngine.MergeSorted` | ios/Pods 2/leveldb-library/db/version_set.cc:1237-1268 | merging sorted runs without common rows gives a sorted run |
| `DbEngine.MergeFiles` | ios/Pods 2/leveldb-library/db/version_set.cc:1237-1268 | the merged inputs are sorted and hold exactly the rows of the files |
| `DbEngine.InsertBatch` | ios/Pods 2/leveldb-library/db/db_impl.cc:1223-1226 | a batch's rows get consecutive sequence numbers and the memtable stays sorted |
| `DbEngine.LayeredRead` | ios/Pods 2/leveldb-library/db/db_impl.cc:1117-1133 | the first hit among memtable, immutable memtable and version answers for the whole store |
| `DbEngine.NewVersion` | ios/Pods 2/leveldb-library/db/version_set.cc:801-828 | a builder on the current version, fed the edit and saved, gives the version the edit describes |
| `DbEngine.DbImpl.Get` | ios/Pods 2/leveldb-library/db/db_impl.cc:1100-1146 | a read equals the multi-version map over everything in the store |
| `DbEngine.DbImpl.NewIterator` | ios/Pods 2/leveldb-library/db/db_impl.cc:1148-1158 | the iterator runs over exactly the rows of the store |
| `DbEngine.DbImpl.Write` | ios/Pods 2/leveldb-library/db/db_impl.cc:1214-1240 | a write is a write step of the store |
| `DbEngine.DbImpl.GetSnapshot` | ios/Pods 2/leveldb-library/db/db_impl.cc:1166-1169 | a snapshot of the last sequence number, which is then among those held |
| `DbEngine.DbImpl.ReleaseSnapshot` | ios/Pods 2/leveldb-library/db/db_impl.cc:1171-1174 | exactly that snapshot is given up, as a step of the store |
| `DbEngine.DbImpl.CompactMemTable` | ios/Pods 2/leveldb-library/db/db_impl.cc:535-566 | flushing is a flush step, at the level the overlap tests choose, also during a compaction |
| `DbEngine.DbImpl.StartCompaction` | ios/Pods 2/leveldb-library/db/db_impl.cc:688-735 | picking a compaction ends in a move step exactly if one upper file and no lower one was picked and its grandparents hold at most 10 times the target file size, otherwise in a running compaction with the kept rows and no gap, whose smallest snapshot is the least of all readable sequence numbers |
| `DbEngine.DbImpl.StartManualCompaction` | ios/Pods 2/leveldb-library/db/db_impl.cc:696-712 | a manual compaction starts exactly if some file overlaps the range |
| `DbEngine.DbImpl.InstallCompaction` | ios/Pods 2/leveldb-library/db/db_impl.cc:860-876 | the outputs replace the inputs; the object stays sound if and only if none overlaps a file flushed meanwhile, as is always so without a gap |
| `LevelZeroLimit.FilesOfStep` | ios/Pods 2/leveldb-library/db/db_impl.cc:535-566 | only a flush adds a file to level 0, and at most one |
| `LevelZeroLimit.LevelZeroStaysBounded` | ios/Pods 2/leveldb-library/db/db_impl.cc:1310-1370 | after opening, level 0 never holds more than 12 files unless it held more then, and at most 11 while an immutable memtable waits |
| `LevelZeroLimit.SwitchesBelowTwelve` | ios/Pods 2/leveldb-library/db/db_impl.cc:1310-1370 | a memtable can be switched if and only if none waits and level 0 holds at most 11 files |
| `SkipLists.PublishKeepsValid` | ios/Pods 2/leveldb-library/db/skiplist.h:362-367 | publishing a node in one level keeps every level a sorted list inside the level below |
| `SkipLists.ReaderSurvivesPublish` | ios/Pods 2/leveldb-library/db/skiplist.h:345-367 | a reader's place in a search stays good across every publication |
| `SkipLists.NextOf` | ios/Pods 2/leveldb-library/db/skiplist.h:260-281 | what a reader learns from one link: it may advance, go down, or is just before the target |
| `SkipLists.SkipList.FindGreaterOrEqual` | ios/Pods 2/leveldb-library/db/skiplist.h:260-281 | in every state between publications and for every height a reader may have seen, the first linked node at or after the target, with the last nodes before it |
| `SkipLists.SkipList.Insert` | ios/Pods 2/leveldb-library/db/skiplist.h:336-368 | every level up to the height grows by exactly the new node and no other level changes; all stay sorted lists |
| `SkipLists.SkipList.Link` | ios/Pods 2/leveldb-library/db/skiplist.h:362-367 | one level grows by exactly the node, at its place, and the list is sound for readers again |
| `SkipListReaders.SearchAmongInsertions` | ios/Pods 2/leveldb-library/db/skiplist.h:260-281 | with nodes allocated and published between any two reads of a search, its last read gives the first node linked at that moment at or after the target |
| `SkipListReaders.NothingMissed` | ios/Pods 2/leveldb-library/db/skiplist.h:260-281 | no node linked when the search began is missed |
| `SkipLists.SkipList.Contains` | ios/Pods 2/leveldb-library/db/skiplist.h:370-378 | true exactly when a linked node has the key |
| `SkipLists.SkipList.Next` | ios/Pods 2/leveldb-library/db/skiplist.h:206-210 | moves to the next node |
| `SkipLists.SkipList.Prev` | ios/Pods 2/leveldb-library/db/skiplist.h:212-221 | moves to the node before, none before the first: undoes Next |
| `LruCaches.FindPointer` | ios/Pods 2/leveldb-library/util/cache.cc:114-120 | the entry of the key, or the end of its bucket when no entry has the key |
| `LruCaches.Resize` | ios/Pods 2/leveldb-library/util/cache.cc:122-146 | rehashing keeps exactly the entries of the table and makes it long enough |
| `LruCaches.InsertHandle` | ios/Pods 2/leveldb-library/util/cache.cc:78-97 | the entry takes the place of the one with its key, which is handed back, or is added if there is none; every entry stays in its bucket and entries never outnumber buckets |
| `LruCaches.FinishEraseOk` | ios/Pods 2/leveldb-library/util/cache.cc:305-314 | an erased entry leaves its list and the charges; its deleter runs exactly if no caller holds it |
| `LruCaches.ReleaseOk` | ios/Pods 2/leveldb-library/util/cache.cc:224-236 | giving back the last reference runs the deleter once; an entry only the cache holds goes to the end of the LRU list, everything before it staying in order |
| `LruCaches.LRUCache.Lookup` | ios/Pods 2/leveldb-library/util/cache.cc:252-259 | finds the cached entry of the key, counts a reference and takes it off the LRU list, the rest staying in order; none exactly when none is cached |
| `LruCaches.LRUCache.ReleaseHandle` | ios/Pods 2/leveldb-library/util/cache.cc:261-264 | a caller's reference goes; the deleter runs exactly when it was the last and the entry is not cached; an entry that only the cache then holds is the latest in release order |
| `LruCaches.LRUCache.Insert` | ios/Pods 2/leveldb-library/util/cache.cc:266-301 | the new entry replaces an equal key; then a shortest sufficient prefix of the LRU list goes; nothing else leaves |
| `LruCaches.LRUCache.Evict` | ios/Pods 2/leveldb-library/util/cache.cc:291-298 | exactly a prefix of the LRU list leaves, each entry deleted once, none released later than one that stays, and no more than the charges require |
| `LruCaches.EvictedAreOldest` | ios/Pods 2/leveldb-library/util/cache.cc:291-298 | whatever leaves in front of a list in release order was released before all that stays |
| `LruCaches.LRUCache.Erase` | ios/Pods 2/leveldb-library/util/cache.cc:316-319 | exactly the entry of the key leaves the cache; without one nothing changes |
| `LruCaches.LRUCache.Prune` | ios/Pods 2/leveldb-library/util/cache.cc:321-331 | exactly what nobody uses leaves the cache |
| `BinaryHeap.PathTo` | ios/Pods 2/Libuv-gRPC/src/heap-inl.h:122-124 | the bits of a slot's number in the order the walk uses them |
| `BinaryHeap.Heap.FindSlot` | ios/Pods 2/Libuv-gRPC/src/heap-inl.h:126-136 | the path reaches exactly the slot with that number in level order |
| `BinaryHeap.Heap.NodeSwap` | ios/Pods 2/Libuv-gRPC/src/heap-inl.h:72-104 | the pointer assignments swap the two nodes in the level order, links and all |
| `BinaryHeap.Heap.Insert` | ios/Pods 2/Libuv-gRPC/src/heap-inl.h:106-148 | the nodes grow by exactly the new one; the tree stays complete, linked and in order |
| `BinaryHeap.Heap.Remove` | ios/Pods 2/Libuv-gRPC/src/heap-inl.h:150-237 | exactly that node goes, wherever it is; the tree stays complete, linked and in order |
| `BinaryHeap.RootIsLeast` | ios/Pods 2/Libuv-gRPC/src/heap-inl.h:33-35 | the root is a least element |
| `ThreadPool.StepKeepsInv` | ios/Pods 2/Libuv-gRPC/src/threadpool.c:57-160 | every step of workers, submitters, cancellers and loops keeps the invariant |
| `ThreadPool.CompletedExactlyOnce` | ios/Pods 2/Libuv-gRPC/src/threadpool.c:269-315 | a completed request stays completed, once, either run once with success or cancelled and never run |
| `ThreadPool.SlowWorkLimited` | ios/Pods 2/Libuv-gRPC/src/threadpool.c:45-47 | at most half the threads, rounded up, run slow work, and pending slow work has its message queued |
| `ThreadPool.AllWaitingMeansNothingQueued` | ios/Pods 2/Libuv-gRPC/src/threadpool.c:57-104 | when all workers wait, no request is queued or executing: no wake-up is lost |
| `ThreadPool.WorkersCanMove` | ios/Pods 2/Libuv-gRPC/src/threadpool.c:57-140 | while a request is queued or executing and threads have not been told to exit, some worker step is possible |
| `ThreadPool.WorkersComeToRest` | ios/Pods 2/Libuv-gRPC/src/threadpool.c:57-140 | worker steps alone end after a bounded number of steps |
| `ThreadPool.UnfinishedCanMove` | ios/Pods 2/Libuv-gRPC/src/threadpool.c:57-315 | while a request is not done and no exit was posted, some step carries on |
| `ThreadPool.EverythingCompletes` | ios/Pods 2/Libuv-gRPC/src/threadpool.c:57-315 | the steps that carry on end after a bounded number, however chosen, and then, unless an exit was posted, every request is done |
| `ThreadPoolOrder.StartedInOrder` | ios/Pods 2/Libuv-gRPC/src/threadpool.c:57-160 | in every run, of two requests of one kind the one submitted later is started only when the earlier one has been started or cancelled |
| `RedBlackTree.RbTree.Rotate` | ios/Pods 2/Libuv-gRPC/include/uv/tree.h:342-380 | the pointer assignments of a rotation turn the cells of one tree into those of the rotated tree |
| `RedBlackTree.RbTree.InsertColor` | ios/Pods 2/Libuv-gRPC/include/uv/tree.h:407-449 | removes the red node under a red one; order kept |
| `RedBlackTree.RbTree.Insert` | ios/Pods 2/Libuv-gRPC/include/uv/tree.h:598-626 | puts the node at its place, or returns the equal one and changes nothing; order, links and colours kept |
| `RedBlackTree.RbTree.RemoveColor` | ios/Pods 2/Libuv-gRPC/include/uv/tree.h:451-528 | makes up for the missing black node; order kept |
| `RedBlackTree.RbTree.Remove` | ios/Pods 2/Libuv-gRPC/include/uv/tree.h:530-595 | takes out exactly that node; order, links and colours kept |
| `RedBlackTree.RbTree.FindKey` | ios/Pods 2/Libuv-gRPC/include/uv/tree.h:629-644 | finds the node with the key, NULL exactly when there is none |
| `RedBlackTree.RbTree.NFind` | ios/Pods 2/Libuv-gRPC/include/uv/tree.h:647-666 | finds the least node whose key is at least the one given, NULL exactly when there is none |
| `RedBlackTree.RbTree.Next` | ios/Pods 2/Libuv-gRPC/include/uv/tree.h:668-688 | the next node in order, NULL after the last |
| `RedBlackShapes.RotationKeepsOrder` | ios/Pods 2/Libuv-gRPC/include/uv/tree.h:342-380 | rotation does not change the order of the nodes |
| `RedBlackShapes.PlugIsRedBlack` | ios/Pods 2/Libuv-gRPC/include/uv/tree.h:407-528 | a tree is red-black exactly when the subtree in focus and its surroundings are coloured right for each other |
| `RedBlackShapes.HeightBound` | ios/Pods 2/Libuv-gRPC/include/uv/tree.h:407-528 | a red-black tree of n nodes is at most 2 lg(n + 1) high |
| `RedBlackCases.PendingMovesUp` | ios/Pods 2/Libuv-gRPC/include/uv/tree.h:414-421 | red uncle: the red pair moves up two levels, black heights and order kept |
| `RedBlackCases.PendingSettled` | ios/Pods 2/Libuv-gRPC/include/uv/tree.h:427-430 | black uncle: rotating the grandparent ends the repair |
| `RedBlackCases.ShortMovesUp` | ios/Pods 2/Libuv-gRPC/include/uv/tree.h:465-472 | black sibling without red children: the shortage moves to the parent |
| `RedBlackCases.ShortSettled` | ios/Pods 2/Libuv-gRPC/include/uv/tree.h:483-489 | red far nephew: rotating the parent makes up for the missing black node |

## Left out

- StoreRuns.StepKeepsInv: leaves out the install steps whose output overlaps a file flushed meanwhile, and so does StoreRuns.RunKeepsInv; StoreInvariant.InstallKeepsInvIff says that exactly those break the invariant.
- StoreRuns.StepKeepsViews: leaves out the install steps that bring a deleted key back; StoreRuns.InstallKeepsViewsIff says exactly which those are.
- StoreRuns.SnapshotReadsRepeat: assumes a run without such install steps.
- StoreRuns.StoreRefinesHistory: assumes that no installed compaction meets the condition of `CompactionPreservesViewsIff`, because the code does not exclude it.
- ManifestBytes.Recover: for records that add a file number twice to one level nothing is said; reading the records themselves (CURRENT, the log format) and reusing the manifest are not modelled.
- ManifestBytes.RecoverRun: key bytes are only assumed to determine the keys that occur; which log number is logged is left open in the runs.
- GroupCommit.ReadersSeeGroupsWhole: assumes that no install step of the run brings a deleted key back, as StoreRuns.StoreRefinesHistory does.
- Files are their rows: blocks, restart points, the index block, filters, compression and the block cache are not modelled. The merging iterator is the sorted union of its inputs.
- Where a compaction output is cut, how large files are, and which level or file is compacted next are parameters; scores, seek counts and compaction pointers only influence choices that the theorems leave open.
- I/O errors, corrupted keys, checksum failures, paranoid checks and background-error states.
- Replaying the write-ahead log into a memtable.
- VersionBuilder.Builder: `allowed_seeks`, reference counts and compaction pointers.
- The block and table readers and the IP address printer and parser.
- SkipLists: SeekToLast (FindLast), which walks the same links without comparing keys; the height of a node is an argument.
- LruCaches: bucket chains and circular lists are sequences, sharding and the destructor are not modelled, and the bucket of a hash is its remainder, which for the power-of-two lengths is what the mask computes.
- BinaryHeap: the 32-bit width of the path and of the node count.
- DbEngine.DbImpl: the loop of DBImpl::CompactRange over the levels, and the part of a range left when a manual compaction was cut short; flushing an empty memtable writes no manifest record.
- WriteQueue: the log write and the memtable insertion of a group succeed or fail as a whole; `MakeRoomForWrite` is one step.
- GroupCommit: the memtable is not switched while a group is being inserted, which only its leader could do.
- ThreadPool: thread creation, fork handling and the order in which one loop's callbacks are called.
- CrcNumbers: of the tables' constants the eight byte-table entries of single bits are written out; the others follow from the division steps that define them. The accelerated path is external.
- RedBlackTree: RB_PREV and RB_MINMAX, which mirror what is modelled, and the augmentation hook, which is empty.
- Memory order: each acquire or release access is one atomic step; the store's memtable is a sorted sequence, not the skip list.

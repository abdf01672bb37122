# A verified model of LevelDB, the libuv thread pool and nanopb

The application is a Flutter shell; the code with something to prove is the C and C++
it ships under `ios/Pods`. This project models three of those libraries in Dafny and
proves what they promise.

**LevelDB** (`ios/Pods/leveldb-library`) is a log-structured merge tree. Its
specification (`Format`) is flat: a set of entries (user key, sequence number, put or
delete, value), where a read at a snapshot returns the newest entry at or below it.
Every layer is proved to be a fast form of that specification.

- `Version`: point lookup through the levels. `CompactionInputs`: which files a
  compaction takes. `DropRules`, `CompactionWork`, `CompactionReads`, `Install`: what it
  drops, why no read changes, and when one does (`Resurrection` is such a case and
  `ResurrectionRun` a run that goes through it). `Flush`: where a memtable goes;
  `MidFlush`: what a flush in the middle of a compaction may do (`MidFlushRun` is a run).
- `Histories`, `Engine` and the `Engine*` modules: the whole database as a state machine
  of sixteen steps (write in two halves, memtable switch, flush, trivial move, compaction,
  manifest append, installation, file deletion, snapshots, crash, recovery) with one
  invariant, and the theorems over every run. A compaction is any that the code can pick;
  the keys it brings back are noted in the state. The theorems about reads say that no put
  is ever lost, and that nothing else is found but keys brought back.
  `EngineManifest`: the manifest that a run writes, record by record.
  `RecoverLogs`: the program that replays the logs, and that recovery always completes.
  `EngineIterator`: iterators over the whole database.
- `VersionEdit`, `VersionBuilder`, `Manifest`: edits as bytes, edits applied, and the
  manifest file written and recovered.
- `LogFormat`, `LogWriter`, `LogReader`, `LogRoundTrip`: the fragmented log, with any cut;
  `LogSoundness`: the reader on any file.
- `WriteBatch`, `GroupCommit`, `GroupCommitRuns`, `GroupCommitProofs`: batches and the
  writer queue in every interleaving.
- `SkipList`, `SkipListRuns`: the memtable's list, one load and one store at a time.
- `DbIterator`, `MergingIterator`, `TwoLevelIterator` (`Concatenation`): cursors with
  direction changes, the merging one over two-level ones.
- `Coding`, `BlockFormat`, `BlockBuilder`, `BlockIterator`: prefix-compressed blocks.
  `Numerals` says what varints and fixed-width numbers mean digit by digit, and
  `ByteLayout` what a record is, part by part (`Arithmetic` has the lemmas they share);
  the `...Layout` theorems of the writers are stated with them, in numbers.
  `RecordGrammar`: what the decoders of edits and batches accept, for any bytes.
- `Comparator`, `Bloom`, `FilterBlock`, `TableBuilder`, `Table`, `BloomTable`: shortened
  index keys and filters, and a table built and searched with the bloom policy.
- `HandleTable`, `LruCache` (counting lemmas in `Counting`): the cache, with the time of
  each entry's last release.

**libuv** (`ios/Pods/Libuv-gRPC/src/threadpool.c`): `ThreadPool`, `ThreadPoolRuns`,
`ThreadPoolProofs`. Each mutex-held region is one step of a state machine.
`ThreadPoolProgress`: no thread sleeps while there is work that it could take.

**nanopb** (`ios/Pods/nanopb`): `PbTypes`, `PbVarint`, `PbEncode` and `PbDecode` define the
wire format of the Protocol Buffers Encoding specification ("Base 128 Varints",
"Length-Delimited Records"), the two passes of the encoder and the decoder.
`PbWireLayout` states the records in numbers, `PbEvolution` what a reader with another
description of the message gets, `PbRoundTrip` the round trip as the case of the same
description, `PbMerge` that a submessage may come in two records, and `PbStorage` that
whatever is decoded fits in the message struct.
`PbOutput` and `PbInput` are the programs with their streams, substreams, field iterator
and bitmap, proved against those definitions.

Four things the code decides are worth knowing.

- A compaction does not always preserve reads. `SetupOtherInputs` adds files that continue a
  selected user key at its own level only. If the next level splits a user key between a
  selected and an unselected file, a deletion in the one may be dropped and the value in
  the other comes back. `CompactionReads.CompactionPreservesReadsIff` says exactly when,
  `Resurrection` gives a version where the compaction that is picked does it,
  `ResurrectionRun` goes from an empty database through that version and that compaction
  to a state that reads a deleted key, `EngineRuns.EveryReadSeesHistory` and
  `RisenHasCause` say that reads go wrong in no other way, and `NoSharedKeyIsSafe` is the
  simple condition under which it cannot happen. The comment at `db/db_impl.cc:952-958` claims more.
- A flush in the middle of a compaction picks its level on the version alone and does not
  see the outputs being written. If it lands at the output level in a gap between the
  inputs that an output covers, two files of that level overlap.
  `MidFlush.MidFlushKeepsLevelsIff` is the exact condition, and `MidFlushRun` a run in which
  the code does it.
- `VersionEdit::Clear()` does not forget compaction pointers, so decoding into a used edit
  is not exact: `VersionEdit.FreshDecodeIsExact` is an if-and-only-if.
- `VersionSet::Builder` relies on no file number entering a level twice; the manifest
  theorems carry that as their hypothesis (`NeverTwice`), and `EngineManifest.DiskIsReplayed`
  shows that what a run of the engine writes to its manifest meets it.

A user key in the engine modules is its place in the comparator's order, a real number,
since the engine touches keys only through that order; the modules that look at bytes
use bytes. Hash functions, checksums, file sizes, the random height of a skip-list node
and the policy for cutting outputs are parameters or left open. In `source` below, paths
are relative to the repository.

## Model

| member | source | states |
|---|---|---|
| Format.NewestDecides | ios/Pods/leveldb-library/db/dbformat.cc:51-67 | with one sequence number per operation, a read at a snapshot returns what the newest entry at or below it says: its value, or nothing for a deletion |
| Version.GetInRun | ios/Pods/leveldb-library/db/memtable.cc:100-134 | seeking (key, snapshot) in a sorted run hits exactly the newest version at or below the snapshot; a miss means the run has none |
| Version.FindFile | ios/Pods/leveldb-library/db/version_set.cc:88-106 | the binary search returns the first file whose largest key is at or after the target |
| Version.FilesNewestFirst | ios/Pods/leveldb-library/db/version_set.cc:347-362 | the level-0 candidates are exactly the files whose range holds the key, by descending file number |
| Version.Level0HitIsNewest | ios/Pods/leveldb-library/db/version_set.cc:347-362 | the first hit in that order is at least as new as every version in every level-0 file |
| Version.GetLevel0 | ios/Pods/leveldb-library/db/version_set.cc:347-412 | level 0: a hit is the newest visible version in all its files, a miss means none has one |
| Version.GetDeepLevel | ios/Pods/leveldb-library/db/version_set.cc:363-412 | deeper levels: the one file the binary search picks decides for the whole level, even when a user key is split between neighbours |
| Version.FirstHitIsNewest | ios/Pods/leveldb-library/db/version_set.cc:326-421 | under the level invariant a hit at a level is newer than anything in the levels below |
| Version.Get | ios/Pods/leveldb-library/db/version_set.cc:326-421 | the search level by level refines the flat specification: a hit is the newest entry at or below the snapshot in the whole version, a miss means there is none |
| EngineRuns.Get | ios/Pods/leveldb-library/db/db_impl.cc:1100-1133 | in every reachable state, memtable, immutable memtable and version searched in that order return what all the searched entries say, and what the flat history of logged batches says whenever that is a value or the key was not brought back by a compaction |
| CompactionInputs.GetOverlappingInputs | ios/Pods/leveldb-library/db/version_set.cc:519-559 | terminates; at level 0 the files are those that meet the least range around the request that no file straddles, deeper those that meet the request |
| CompactionInputs.GetRange | ios/Pods/leveldb-library/db/version_set.cc:1205-1227 | the hull of the files: both ends are taken, nothing lies outside |
| CompactionInputs.FindSmallestBoundaryFile | ios/Pods/leveldb-library/db/version_set.cc:1344-1361 | a file that continues the user key of the given largest key, the earliest such one, or none exists |
| CompactionInputs.AddBoundaryInputs | ios/Pods/leveldb-library/db/version_set.cc:1378-1401 | terminates; only files of the level are added, a gapless set stays gapless, and afterwards no file continues the last user key |
| CompactionInputs.SelectWider | ios/Pods/leveldb-library/db/version_set.cc:1431-1434 | a wider range that selects equally many files selects the same files |
| CompactionInputs.GrowInputs | ios/Pods/leveldb-library/db/version_set.cc:1416-1451 | the expansion is the files that meet the range of all inputs (at level 0 the least range around it that no file straddles) and only their boundary files besides; it is taken if and only if it is more files, within the size limit, and meets no more files of the next level; the selection stays closed and the next level's set the same |
| CompactionInputs.SetupOtherInputs | ios/Pods/leveldb-library/db/version_set.cc:1403-1462 | the finished selection is closed: no unselected file of its level holds an older version of a selected user key, it takes exactly the next-level files that meet its user keys, and the grandparents are those that meet the hull of all inputs |
| CompactionInputs.PickFile | ios/Pods/leveldb-library/db/version_set.cc:1298-1322 | a file chosen by size or by seeks leads to a closed selection that contains it |
| CompactionInputs.PickBySize | ios/Pods/leveldb-library/db/version_set.cc:1278-1297 | the file chosen is the first that ends after the compaction pointer, or the first of the level if there is none |
| CompactionInputs.CompactRange | ios/Pods/leveldb-library/db/version_set.cc:1464-1495 | nothing is returned only if no file meets the range; otherwise the selection is closed and holds all the files that do (level 0) or the shortest prefix of them that reaches the size limit (deeper) |
| CompactionInputs.EnoughFiles | ios/Pods/leveldb-library/db/version_set.cc:1473-1488 | the shortest prefix of the files that reaches the size limit, or all of them |
| DropRules.KeptAreSurvivors | ios/Pods/leveldb-library/db/db_impl.cc:929-963 | comparing each entry with the one before it drops exactly the entries hidden by a newer one that every snapshot sees, and the obsolete deletions |
| DropRules.DropPreservesReadsIff | ios/Pods/leveldb-library/db/db_impl.cc:929-963 | dropping changes no read at or above the smallest snapshot if and only if no key has its newest version dropped as an obsolete deletion over a value left behind at the output level |
| DropRules.PutsAreKept | ios/Pods/leveldb-library/db/db_impl.cc:929-963 | whatever else changes, a lookup from the smallest snapshot up that finds a value finds the same value after dropping |
| DropRules.NothingSuperfluous | ios/Pods/leveldb-library/db/db_impl.cc:929-963 | of the entries that every snapshot sees, one version of a user key survives, and no deletion at the base level of its key |
| CompactionWork.BaseLevelScan.IsBaseLevelForKey | ios/Pods/leveldb-library/db/version_set.cc:1533-1552 | for any ascending run of keys the moving cursors answer as a search of all deeper levels would |
| CompactionWork.DropEntry | ios/Pods/leveldb-library/db/db_impl.cc:929-963 | the drop decision with the state carried from the previous entry is the decision the rules define on the whole sorted input |
| CompactionWork.DoCompactionWork | ios/Pods/leveldb-library/db/db_impl.cc:890-999 | however the outputs are cut into files, together they are exactly the entries kept, in order, in valid files with consecutive numbers |
| CompactionReads.ContentsSplit | ios/Pods/leveldb-library/db/version_set.cc:1403-1462 | a version is the entries of the inputs and those of the rest, and what the next level keeps back is part of the rest |
| CompactionReads.LevelsPlaced | ios/Pods/leveldb-library/db/version_set.cc:1403-1462 | the level invariant and a closed selection place every other version of an input's key above the inputs, left behind at the output level, or deeper where the base-level test sees it |
| CompactionReads.CompactionPreservesReadsIff | ios/Pods/leveldb-library/db/db_impl.cc:878-1048 | replacing the inputs by what the loop keeps changes no lookup of any key at any sequence from the smallest snapshot up, if and only if no key is resurrected |
| CompactionReads.OtherReadsUnchanged | ios/Pods/leveldb-library/db/db_impl.cc:878-1048 | key by key, for every compaction: a lookup from the smallest snapshot up is unchanged that finds a value, or whose key the compaction does not bring back |
| CompactionReads.RisenReadsChange | ios/Pods/leveldb-library/db/db_impl.cc:929-963 | and the lookup at the smallest snapshot of every key that it does bring back does change |
| CompactionReads.NoSharedKeyIsSafe | ios/Pods/leveldb-library/db/version_set.cc:1403-1433 | if no unselected file of the next level shares a user key with a selected file, every such lookup is unchanged |
| Resurrection.SelectionIsForced | ios/Pods/leveldb-library/db/version_set.cc:1403-1462 | a version for which the selection at its level is unique: one file there, and of two files below that share a user key only the first |
| Resurrection.CompactionBringsBackADeletedKey | ios/Pods/leveldb-library/db/version_set.cc:1407-1411 | every compaction of that level of that valid version turns a deleted key back into a value, because boundary files are added at one level only |
| Resurrection.PickedCompaction | ios/Pods/leveldb-library/db/version_set.cc:1270-1322 | PickCompaction picks such a compaction, whatever its pointer and limits |
| ResurrectionRun.VersionIsReached | ios/Pods/leveldb-library/db/db_impl.cc:878-1048 | a run of writes, a snapshot, flushes and a manual compaction that reaches that version, with no snapshot left |
| ResurrectionRun.ADeletedKeyIsReadAgain | ios/Pods/leveldb-library/db/db_impl.cc:878-1048 | the run goes on with that compaction and ends in a state in which a read at the last sequence number finds a key whose newest logged write is its deletion |
| Install.InstalledKeepsLevels | ios/Pods/leveldb-library/db/db_impl.cc:860-876 | installing the outputs of any closed selection keeps every level sorted and disjoint, shallower versions newer, and level-0 numbers in order of age |
| Install.InstalledContents | ios/Pods/leveldb-library/db/version_set.cc:1525-1531 | after the installation the version holds the rest and the outputs, and nothing else |
| Flush.SomeFileOverlapsRange | ios/Pods/leveldb-library/db/version_set.cc:122-152 | the scan and the binary search both answer whether any file meets the range |
| Flush.PickLevelForMemTableOutput | ios/Pods/leveldb-library/db/version_set.cc:491-516 | the level picked is as deep as the table can sink from level 0 without meeting a file or too many bytes two levels on, and no deeper than level 2 |
| Flush.FlushKeepsLevels | ios/Pods/leveldb-library/db/db_impl.cc:491-533 | a table flushed to such a level keeps the level invariant and adds exactly its entries |
| MidFlush.MidFlushKeepsLevelsIff | ios/Pods/leveldb-library/db/db_impl.cc:908-918 | a flush in the middle of a compaction, whose level was picked on the version before it, leaves the level invariant true after the compaction is installed if and only if it does not land at the output level on a file that the compaction writes |
| MidFlushRun.MemtableWaits | ios/Pods/leveldb-library/db/db_impl.cc:908-918 | a run of puts, flushes and a manual compaction that reaches a state in which two files are compacted into one and a memtable with a key between them waits |
| MidFlushRun.ManualCompaction | ios/Pods/leveldb-library/db/version_set.cc:1464-1495 | CompactRange picks that compaction if the size limit allows two files |
| MidFlushRun.PickedLevel | ios/Pods/leveldb-library/db/version_set.cc:491-516 | PickLevelForMemTableOutput then picks the compaction's output level for that memtable, whatever its limits |
| MidFlushRun.GapIsCovered | ios/Pods/leveldb-library/db/db_impl.cc:908-918 | and however flush and compaction are installed, two files of that level overlap afterwards |
| EngineSteps.BeginWriteKeeps | ios/Pods/leveldb-library/db/db_impl.cc:1205-1216 | appending a batch to the log keeps the engine invariant |
| EngineSteps.FinishWriteKeeps | ios/Pods/leveldb-library/db/db_impl.cc:1223-1237 | inserting the batch and publishing its last sequence number keeps it |
| EngineSteps.SwitchMemtableKeeps | ios/Pods/leveldb-library/db/db_impl.cc:1345-1367 | starting a new log and memtable keeps it |
| EngineBackground.LogFlushKeeps | ios/Pods/leveldb-library/db/db_impl.cc:535-566 | recording a flush, which makes older logs unnecessary, keeps it, also in the middle of a compaction |
| EngineBackground.FlushKeepsReplaceable | ios/Pods/leveldb-library/db/db_impl.cc:908-918 | a flush in the middle of a compaction that lands clear of its key range at the output level leaves its inputs a closed selection, and replacing them by the outputs already written still changes no read but those given up |
| EngineBackground.BuildCompactionKeeps | ios/Pods/leveldb-library/db/db_impl.cc:878-999 | writing the outputs of any compaction while writers, readers and flushes go on keeps it; the keys that the compaction brings back are noted |
| EngineBackground.BuildMoveKeeps | ios/Pods/leveldb-library/db/db_impl.cc:712-733 | a trivial move keeps it |
| EngineBackground.LogCompactionKeeps | ios/Pods/leveldb-library/db/db_impl.cc:860-876 | recording a compaction or a move keeps it, and gives up only reads below its smallest snapshot and reads of nothing of the keys it brings back |
| EngineBackground.DeleteObsoleteKeeps | ios/Pods/leveldb-library/db/db_impl.cc:223-278 | deleting files outside the version and logs below its log number keeps it |
| EngineCrash.CrashLosesOnlyTheTail | ios/Pods/leveldb-library/db/db_impl.cc:1205-1222 | a crash that cuts the newest log takes exactly the cut records off the end of the history, and manifest and logs still add up to the rest |
| EngineCrash.InstallRecoveryKeeps | ios/Pods/leveldb-library/db/db_impl.cc:1474-1504 | tables that hold the records of the logs, added to level 0 by one edit with a new log number, bring the engine invariant back |
| RecoverLogs.RecoverLogFile | ios/Pods/leveldb-library/db/db_impl.cc:371-489 | the loop over the records of a log, with a memtable that is written out wherever it is full and at the end, adds level-0 tables that hold exactly those records in order of age and finds the largest sequence number |
| RecoverLogs.Recover | ios/Pods/leveldb-library/db/db_impl.cc:280-369 | over all logs that the manifest does not cover: the tables, numbers and last sequence number are those that the engine's recovery step takes, wherever memtables are cut |
| RecoverLogs.RecoveryCompletes | ios/Pods/leveldb-library/db/db_impl.cc:280-369 | wherever a run leaves the database down, it can go on and come up in at most two steps with all of the history that the crash left, and then reads at every usable snapshot answer like that history, unless that has nothing and the key was brought back |
| RecoverLogs.RecoverAll | ios/Pods/leveldb-library/db/db_impl.cc:280-369 | from the bytes of the manifest and the records of the logs, in any state of any run: the program that opens the database finds the version on disk and takes the engine's recovery step |
| EngineRuns.StepKeeps | ios/Pods/leveldb-library/db/db_impl.cc:688-767 | each of the sixteen kinds of step keeps the engine invariant |
| EngineRuns.RunKeeps | ios/Pods/leveldb-library/db/db_impl.cc:688-767 | the engine invariant holds in every state of every run, through any number of crashes |
| EngineRuns.EveryVersionIsValid | ios/Pods/leveldb-library/db/version_set.cc:801-884 | in every reachable state, whatever compactions dropped, the manifest's and the current version have levels 1..6 sorted and disjoint, shallower versions newer, and level-0 numbers in order of age |
| EngineRuns.ReadsSeeHistory | ios/Pods/leveldb-library/db/db_impl.cc:1100-1133 | what a reader searches answers, for every usable snapshot, like the history of all logged batches whenever that has a value, and for every key that no compaction has brought back |
| EngineRuns.EveryReadSeesHistory | ios/Pods/leveldb-library/db/db_impl.cc:1100-1133 | the same in every state of every run of writes, flushes, moves, compactions, crashes and recoveries: no put is lost, and nothing else is found but keys brought back |
| EngineRuns.RisenHasCause | ios/Pods/leveldb-library/db/db_impl.cc:860-876 | in every run, every key excepted there is one that an earlier compaction of the run brings back, by its own selection and smallest snapshot |
| EngineRuns.EveryCrashIsSafe | ios/Pods/leveldb-library/db/db_impl.cc:280-369 | a crash between any two steps leaves a prefix of the history holding every record that was not cut; every table of the version is there, and tables and logs together hold nothing else and read like that prefix, but for keys brought back |
| EngineRuns.HistoryOnlyLosesToCrashes | ios/Pods/leveldb-library/db/db_impl.cc:1185-1258 | between crashes the history only grows: a batch once logged stays |
| EngineManifest.AddedIsEdit | ios/Pods/leveldb-library/db/db_impl.cc:535-566 | the version after a flush is exactly what installing the edit of that flush gives |
| EngineManifest.InstalledIsEdit | ios/Pods/leveldb-library/db/db_impl.cc:860-876 | the version after a compaction or a trivial move is exactly what installing its edit, input deletions and added outputs, gives |
| EngineManifest.ManifestStep | ios/Pods/leveldb-library/db/version_set.cc:801-884 | every step appends its own edit to the manifest (a flush its table, a compaction its deletions and outputs), an open starts a new one with a snapshot and its edit, and no other step writes; the manifest replays to the version on disk, no file number entering a level twice |
| EngineManifest.DiskIsReplayed | ios/Pods/leveldb-library/db/version_set.cc:886-1011 | in every state of every run the records that the run has written to its manifest are valid edits, no number entering a level twice, whose replay gives the version on disk and no other |
| EngineManifest.RecoverDisk | ios/Pods/leveldb-library/db/version_set.cc:886-1011 | replaying the edits that a run has written in one builder finds the version on disk |
| EngineManifest.NumbersAreOnDisk | ios/Pods/leveldb-library/db/version_set.cc:801-884 | and each of the three numbers on disk is the one that some record of the run sets and no later record does |
| EngineManifest.RecoverFile | ios/Pods/leveldb-library/db/version_set.cc:886-1011 | from the bytes of a manifest file that holds those edits, unless they name another comparator: exactly the version, next file number, log number and last sequence number that the run has on disk |
| EngineRuns.RecoveryReadsAPrefix | ios/Pods/leveldb-library/db/db_impl.cc:280-369 | however often it crashes on the way up, a database that is up again reads like a prefix of the history it went down with, unless that has nothing and the key was brought back |
| VersionBuilder.Builder.Apply | ios/Pods/leveldb-library/db/version_set.cc:650-692 | one edit: deletions and then additions change the pending sets as one update of each level |
| VersionBuilder.SaveLevel | ios/Pods/leveldb-library/db/version_set.cc:695-739 | merging base files and added files in order and skipping deleted ones gives the sorted list of the live files |
| VersionBuilder.Builder.SaveTo | ios/Pods/leveldb-library/db/version_set.cc:695-739 | every level is saved as the sorted list of its live files |
| VersionBuilder.SortedUnique | ios/Pods/leveldb-library/db/version_set.cc:600-612 | a set of files has one ordered list |
| VersionBuilder.ReplayIsOneAtATime | ios/Pods/leveldb-library/db/version_set.cc:590-755 | if no file number enters a level twice, any run of edits folded in one builder leaves the same files as installing them one at a time |
| VersionBuilder.SnapshotStarts | ios/Pods/leveldb-library/db/version_set.cc:1088-1116 | a manifest that starts with a snapshot edit continues as if its edits were installed on that version |
| VersionBuilder.InstallEdit | ios/Pods/leveldb-library/db/version_set.cc:801-829 | LogAndApply's builder gives the sorted lists of the current version after the edit |
| VersionBuilder.InstallAll | ios/Pods/leveldb-library/db/version_set.cc:801-884 | installing edit after edit, each in its own builder over the version before, leaves the sorted lists that the edits one at a time define |
| VersionBuilder.Recover | ios/Pods/leveldb-library/db/version_set.cc:886-1011 | one builder over the empty version, fed with all edits, gives the lists that installing them one at a time gives |
| VersionBuilder.RecoveredIsInstalled | ios/Pods/leveldb-library/db/version_set.cc:886-1011 | the version recovered from snapshot and edits is, list by list, the version the edits were installed into |
| VersionEdit.EditRoundTrip | ios/Pods/leveldb-library/db/version_edit.cc:41-205 | decoding what was encoded gives the edit back, for every edit and whatever edit it is decoded into, except that compaction pointers left over in the latter stay in front |
| VersionEdit.FreshDecodeIsExact | ios/Pods/leveldb-library/db/version_edit.cc:26-39 | decoding gives back exactly what was encoded if and only if the edit decoded into had no compaction pointers, which Clear() does not forget |
| VersionEdit.RecordLayout | ios/Pods/leveldb-library/db/version_edit.cc:41-89 | the bytes of an edit are, and nothing else is, the tags 1, 2, 9, 3, 4, 5, 6, 7 as varints with their numbers and strings, in this order |
| VersionEdit.ManifestRecordRoundTrip | ios/Pods/leveldb-library/db/version_edit.cc:41-205 | the same with the real varints and length-prefixed strings |
| VersionEdit.VarintsAreLawful | ios/Pods/leveldb-library/util/coding.cc:112-189 | the number and string codecs of the records return what was put, whatever follows it, and use up input |
| VersionEdit.DecodeRecord | ios/Pods/leveldb-library/db/version_edit.cc:107-205 | the tag loop of DecodeFrom decodes what the record grammar says, and fails where it does |
| RecordGrammar.DecodesExactlyRecords | ios/Pods/leveldb-library/db/version_edit.cc:86-205 | for any bytes: DecodeFrom succeeds if and only if they are a record of the grammar (tags 1 to 7 and 9 with their varints and strings, levels below 7), and the edit is its items applied in order |
| Manifest.Recover | ios/Pods/leveldb-library/db/version_set.cc:886-1011 | from any cut of a manifest file: the edits whose records are whole, decoded each into a fresh edit, give the version, and each of the three numbers is one that some edit sets and no later one does; it fails if and only if an edit names another comparator or one of the three is never set |
| Manifest.WriteAndRecover | ios/Pods/leveldb-library/db/version_set.cc:801-1116 | bytes to version: the edits are installed one at a time, and the manifest of snapshot and edits, written and recovered, gives per level the same list of files |
| DbIterator.DBIter.Seek | ios/Pods/leveldb-library/db/db_iter.cc:269-281 | stands at the first live key at or after the target, or nowhere if there is none |
| DbIterator.DBIter.SeekToFirst | ios/Pods/leveldb-library/db/db_iter.cc:283-292 | stands at the first live key |
| DbIterator.DBIter.SeekToLast | ios/Pods/leveldb-library/db/db_iter.cc:294-299 | stands at the last live key |
| DbIterator.DBIter.Next | ios/Pods/leveldb-library/db/db_iter.cc:141-166 | from either direction: moves to the next live key, skipping deletions, hidden versions and too-new entries |
| DbIterator.DBIter.Prev | ios/Pods/leveldb-library/db/db_iter.cc:200-225 | from either direction: moves to the live key before |
| DbIterator.DBIter.FindNextUserEntry | ios/Pods/leveldb-library/db/db_iter.cc:168-198 | the scan stops at the first live entry past the skipped key and passes no other |
| DbIterator.DBIter.FindPrevUserEntry | ios/Pods/leveldb-library/db/db_iter.cc:227-267 | the backward scan ends with the last live entry at or before its start saved, and the internal iterator before its key |
| DbIterator.LiveIsVisible | ios/Pods/leveldb-library/db/db_iter.cc:141-299 | the live places are exactly what reads at the snapshot return, one for each key that is there |
| MergingIterator.Merger.Seek | ios/Pods/leveldb-library/table/merger.cc:47-53 | over children that are two-level iterators with or without empty blocks: stands at the least key of the union at or after the target |
| MergingIterator.Merger.SeekToFirst | ios/Pods/leveldb-library/table/merger.cc:31-37 | stands at the least key of the union |
| MergingIterator.Merger.SeekToLast | ios/Pods/leveldb-library/table/merger.cc:39-45 | stands at the greatest key of the union |
| MergingIterator.Merger.Next | ios/Pods/leveldb-library/table/merger.cc:55-79 | after any mix of moves and direction switches: moves to the least key of the union after the current one |
| MergingIterator.Merger.Prev | ios/Pods/leveldb-library/table/merger.cc:81-108 | after any mix of moves and direction switches: moves to the greatest key of the union before the current one |
| MergingIterator.NextInUnion | ios/Pods/leveldb-library/table/merger.cc:55-79 | in the sorted union as one sequence, Next is one place on, and becomes invalid after the last |
| MergingIterator.PrevInUnion | ios/Pods/leveldb-library/table/merger.cc:81-108 | and Prev one place back, and becomes invalid at the first |
| MergingIterator.SeekInUnion | ios/Pods/leveldb-library/table/merger.cc:47-53 | and Seek the place of the target |
| EngineIterator.SourcesAreReadable | ios/Pods/leveldb-library/db/db_impl.cc:1062-1087 | the children of the whole database's iterator (memtables, level-0 tables, one concatenation for each deeper level) are sorted, share no key, and together hold exactly what reads search |
| EngineIterator.Walk | ios/Pods/leveldb-library/table/merger.cc:31-79 | from the first key on, the merging iterator shows the sorted union of its children |
| EngineIterator.Scan | ios/Pods/leveldb-library/db/db_iter.cc:141-299 | a full scan at a usable snapshot of any reachable state lists, in order of keys and each once, exactly the pairs that reads find: every pair that the history shows, and no other but of keys brought back |
| TwoLevelIterator.FlatIsSorted | ios/Pods/leveldb-library/table/two_level_iterator.cc:115-139 | blocks kept apart by their separators make one sorted sequence, empty blocks included |
| TwoLevelIterator.SeekLands | ios/Pods/leveldb-library/table/two_level_iterator.cc:82-87 | the block the index picks and the seek inside it give the place of the target in the concatenation of all blocks |
| TwoLevelIterator.TwoLevel.Seek | ios/Pods/leveldb-library/table/two_level_iterator.cc:82-87 | stands at the first entry of the concatenation at or after the target, across empty blocks |
| TwoLevelIterator.TwoLevel.SeekToFirst | ios/Pods/leveldb-library/table/two_level_iterator.cc:89-94 | stands at the first entry of the concatenation |
| TwoLevelIterator.TwoLevel.SeekToLast | ios/Pods/leveldb-library/table/two_level_iterator.cc:96-101 | stands at its last entry |
| TwoLevelIterator.TwoLevel.Next | ios/Pods/leveldb-library/table/two_level_iterator.cc:103-107 | moves one place on in the concatenation, or becomes invalid at its end |
| TwoLevelIterator.TwoLevel.Prev | ios/Pods/leveldb-library/table/two_level_iterator.cc:109-113 | moves one place back, or becomes invalid at its start |
| TwoLevelIterator.TwoLevel.Current | ios/Pods/leveldb-library/table/two_level_iterator.cc:32-39 | shows the entry of the concatenation at the place |
| LogFormat.SplitsJoin | ios/Pods/leveldb-library/db/log_writer.cc:34-80 | the fragments of a record hold all its bytes in order |
| LogFormat.LogFileGrows | ios/Pods/leveldb-library/db/log_writer.cc:34-80 | appending records only extends the file |
| LogFormat.RecordForm | ios/Pods/leveldb-library/db/log_writer.cc:34-80 | no fragment crosses a 32768-byte boundary, all but the last end at one, none starts in the last six bytes of a block, and the types are 1, or 2, 3 and 4 |
| LogFormat.PhysicalLayout | ios/Pods/leveldb-library/db/log_writer.cc:82-108 | a fragment is, and nothing else is, the masked checksum of type and payload in four bytes, the length in two, the type in one, and the payload |
| LogWriter.Writer.AddRecord | ios/Pods/leveldb-library/db/log_writer.cc:34-80 | the file of a log of whole records becomes the file of that log with the record at its end, wherever the block stands |
| LogWriter.Writer.EmitPhysicalRecord | ios/Pods/leveldb-library/db/log_writer.cc:82-108 | one header with masked checksum, length and type, and the payload, inside one block |
| LogReader.PhysicalIsFramed | ios/Pods/leveldb-library/db/log_reader.cc:189-271 | what the writer emits parses back to type and payload and its checksum is accepted, for any checksum that extends over concatenation |
| LogReader.Reader.ReadPhysicalRecord | ios/Pods/leveldb-library/db/log_reader.cc:189-271 | block reads, trailers, truncated headers and bad records: the physical record, the position afterwards and whether bytes were reported dropped |
| LogReader.Reader.ReadRecord | ios/Pods/leveldb-library/db/log_reader.cc:56-172 | of any file: the first run of fragments of types 1, or 2, 3 and 4, that is complete, put together, with its offset, or nothing if there is none; where the file is a cut of a written log, that is the record written, and no drop is reported |
| LogSoundness.ParsedIsPhysical | ios/Pods/leveldb-library/db/log_reader.cc:214-271 | with checksums on, a fragment is taken from a buffer if and only if it lies in front: masked checksum of type and payload, length, type and payload |
| LogSoundness.DeliveredLiesThere | ios/Pods/leveldb-library/db/log_reader.cc:189-271 | for any file, however corrupted: each fragment delivered lies there with its checksum, behind the one before |
| LogRoundTrip.StreamDelivers | ios/Pods/leveldb-library/db/log_reader.cc:189-271 | the physical reads of any cut of a log deliver exactly the fragments whose end survived, and then the end of file |
| LogRoundTrip.ReadLog | ios/Pods/leveldb-library/db/log_reader.cc:56-271 | for any records and any cut of their file the reader returns exactly the records whose last fragment survived, in order, and reports no corruption |
| LogRoundTrip.WriteLog | ios/Pods/leveldb-library/db/log_writer.cc:27-31 | a second writer opened at the length of a file goes on with the same log |
| LogRoundTrip.WriteCutRead | ios/Pods/leveldb-library/db/log_reader.cc:56-271 | two writers one after the other, any cut, and a reader: the records that are whole in what is left |
| Coding.UnmaskMask | ios/Pods/leveldb-library/util/crc32c.h:29-38 | Unmask undoes Mask on every 32-bit word |
| Coding.MaskIsRotated | ios/Pods/leveldb-library/util/crc32c.h:19-27 | Mask is a rotation to the right by 15 bits and the addition of its constant |
| GroupCommit.BuildBatchGroup | ios/Pods/leveldb-library/db/db_impl.cc:1260-1306 | the group is the longest prefix of the queue that may ride on the first writer (no sync writer on a non-sync one; a first batch of up to 128 KB grows by 128 KB at most, a larger one to 1 MB), and the batch is their operations in order |
| GroupCommitProofs.StepKeeps | ios/Pods/leveldb-library/db/db_impl.cc:1185-1258 | every step of every writer, with the mutex released while logging and inserting, keeps the invariant |
| GroupCommitProofs.RunKeeps | ios/Pods/leveldb-library/db/db_impl.cc:1185-1258 | the invariant holds in every interleaving |
| GroupCommitProofs.EveryWriterLeavesOnce | ios/Pods/leveldb-library/db/db_impl.cc:1191-1256 | in every interleaving writers leave the queue once each, in order of arrival, with one status, and none that left is still waiting |
| GroupCommitProofs.RangesAreConsecutive | ios/Pods/leveldb-library/db/db_impl.cc:1202-1237 | written batches take consecutive disjoint ranges of sequence numbers in queue order, all at or below the last sequence |
| GroupCommitProofs.SyncWritesAreSynced | ios/Pods/leveldb-library/db/db_impl.cc:1214-1222 | in every interleaving the batch of a sync write reported as successful is in the log as it was when the log was last synced, also when it rode on another writer |
| GroupCommitProofs.ReadsSeeWholeBatches | ios/Pods/leveldb-library/db/db_impl.cc:1209-1237 | a read at LastSequence, then or later, sees every batch committed by then whole and nothing of any other, although inserts run without the mutex |
| GroupCommitProofs.LeavingCommitted | ios/Pods/leveldb-library/db/db_impl.cc:1239-1248 | the entries of the group are exactly the entries of its writers' batches, each under its own numbers |
| WriteBatch.OpsRoundTrip | ios/Pods/leveldb-library/db/write_batch.cc:42-80 | iterating the encoding of any operations calls the handler with exactly them, in order |
| WriteBatch.RecordLayout | ios/Pods/leveldb-library/db/write_batch.cc:98-109 | a put is the byte 1, the key and the value behind their lengths, a deletion the byte 0 and the key; nothing else is |
| WriteBatch.BatchLayout | ios/Pods/leveldb-library/db/write_batch.cc:5-14 | a batch is the sequence number in eight bytes, the count in four, and the records |
| WriteBatch.RealIsLawful | ios/Pods/leveldb-library/util/coding.cc:98-101 | the length-prefixed strings obey the law that the round trip needs |
| WriteBatch.Batch.Add | ios/Pods/leveldb-library/db/write_batch.cc:98-109 | the operation is appended to what the batch holds; count and buffer agree |
| WriteBatch.Batch.Append | ios/Pods/leveldb-library/db/write_batch.cc:144-148 | the other batch's operations follow; sequence number kept, count the sum |
| WriteBatch.Batch.SetSequence | ios/Pods/leveldb-library/db/write_batch.cc:94-96 | patching the header changes only the sequence number |
| WriteBatch.Batch.Count | ios/Pods/leveldb-library/db/write_batch.cc:82-84 | the stored count is the number of operations |
| WriteBatch.Batch.Iterate | ios/Pods/leveldb-library/db/write_batch.cc:42-80 | on any buffer the handler gets the operations up to the first that is malformed, and the status tells that and a wrong count; a batch that was built yields exactly the operations added, in order |
| RecordGrammar.IteratesExactlyOps | ios/Pods/leveldb-library/db/write_batch.cc:42-80 | for any bytes: the handler gets the records that stand in front, up to the end or to where none does |
| SkipList.Find | ios/Pods/leveldb-library/db/skiplist.h:262-322 | on a quiet list the search ends between the last node before the bound and the next one on level 0, and prev is such a node on every level |
| SkipList.StoreOwnKeeps | ios/Pods/leveldb-library/db/skiplist.h:361-365 | storing into the new node's own pointer changes no level's list |
| SkipList.ChainGrows | ios/Pods/leveldb-library/db/skiplist.h:366-366 | the store into prev puts the node in its place in the level's sorted list and changes nothing else |
| SkipList.StorePrevKeeps | ios/Pods/leveldb-library/db/skiplist.h:366-366 | after that store every level is still sorted and a sublist of the level below |
| SkipListRuns.StepKeeps | ios/Pods/leveldb-library/db/skiplist.h:262-368 | every single load and store, in any order between the inserter and a reader, keeps the invariant |
| SkipListRuns.RunKeeps | ios/Pods/leveldb-library/db/skiplist.h:262-368 | so each level is sorted and a sublist of the level below in every state of every run |
| SkipListRuns.SearchesAreExact | ios/Pods/leveldb-library/db/skiplist.h:262-322 | a search that runs while nodes are being linked returns the first key at or after its bound, and the last before, for the list as it is at its last level-0 load |
| SkipListRuns.KeysChange | ios/Pods/leveldb-library/db/skiplist.h:337-368 | a key enters the list with the level-0 store of its node and with no other step |
| SkipListRuns.SkipListObject.Insert | ios/Pods/leveldb-library/db/skiplist.h:337-368 | the key is added and nothing else changes, for every height |
| SkipListRuns.SkipListObject.Contains | ios/Pods/leveldb-library/db/skiplist.h:371-378 | answers membership |
| HandleTable.InsertRepresents | ios/Pods/leveldb-library/util/cache.cc:78-92 | writing the slot that FindPointer found turns the chains into those of the map with the key set |
| HandleTable.RemoveRepresents | ios/Pods/leveldb-library/util/cache.cc:94-102 | unlinking it turns them into those of the map without the key |
| HandleTable.Rehash | ios/Pods/leveldb-library/util/cache.cc:122-146 | moving every slot to the longer array keeps the map and counts it |
| HandleTable.Table.FindPointer | ios/Pods/leveldb-library/util/cache.cc:111-120 | stops at the slot of the key in its bucket, or at the end of its chain |
| HandleTable.Table.Lookup | ios/Pods/leveldb-library/util/cache.cc:74-76 | what the map says |
| HandleTable.Table.Insert | ios/Pods/leveldb-library/util/cache.cc:78-92 | map update through any resize; what was replaced is returned |
| HandleTable.Table.Remove | ios/Pods/leveldb-library/util/cache.cc:94-102 | map removal; what was removed is returned |
| HandleTable.Table.Resize | ios/Pods/leveldb-library/util/cache.cc:122-146 | the map stays, and there are at least as many buckets as elements |
| LruCache.RefKeeps | ios/Pods/leveldb-library/util/cache.cc:217-223 | one more reference moves the entry to the right list and keeps the invariant |
| LruCache.UnrefKeeps | ios/Pods/leveldb-library/util/cache.cc:225-237 | one reference less, deletion included, keeps the invariant |
| LruCache.FinishEraseKeeps | ios/Pods/leveldb-library/util/cache.cc:305-316 | an entry that left the table gives up its list place, its charge and the cache's reference |
| LruCache.InsertedKeeps | ios/Pods/leveldb-library/util/cache.cc:266-292 | a new entry and the one it replaces keep the invariant |
| LruCache.UsageIsCharged | ios/Pods/leveldb-library/util/cache.cc:266-316 | an insertion adds the charge of its entry, if it is cached, and takes off that of the entry it replaces; an erasure takes off that of its entry |
| LruCache.ReleasedOrder | ios/Pods/leveldb-library/util/cache.cc:225-249 | the unused entries stand in the order of their last release, and a release keeps that |
| LruCache.EvictedIsOldest | ios/Pods/leveldb-library/util/cache.cc:293-300 | eviction deletes the entry at the old end of the unused ones, and nothing else changes |
| LruCache.OneList | ios/Pods/leveldb-library/util/cache.cc:185-192 | each cached entry is in exactly one list: in use if a client holds it, least-recently-used if none does; no other entry is in any |
| LruCache.DeletedOnce | ios/Pods/leveldb-library/util/cache.cc:225-237 | the deleter of an entry runs at most once, and has run exactly when neither the cache nor a client refers to it |
| LruCache.MappedIsCached | ios/Pods/leveldb-library/util/cache.cc:185-194 | cached entries are exactly those the table maps their keys to |
| LruCache.Cache.Insert | ios/Pods/leveldb-library/util/cache.cc:266-303 | replaces what the key was mapped to; afterwards usage is within capacity or nothing unreferenced is left; whatever else goes was last released before all that stays unused |
| LruCache.Cache.EvictToCapacity | ios/Pods/leveldb-library/util/cache.cc:293-300 | of the unused entries those released longest ago go, and no more of them than needed |
| LruCache.Cache.Lookup | ios/Pods/leveldb-library/util/cache.cc:252-259 | the entry mapped, with one more reference held; it leaves the unused ones, which stay in the order of their last release |
| LruCache.Cache.Release | ios/Pods/leveldb-library/util/cache.cc:261-264 | the reference goes back; if it was the last, a cached entry goes to the new end of the unused ones, which keep their order, and the deleter runs for any other |
| LruCache.Cache.Erase | ios/Pods/leveldb-library/util/cache.cc:318-321 | the key is unmapped; its entry is deleted now or with its last reference |
| LruCache.Cache.Prune | ios/Pods/leveldb-library/util/cache.cc:323-333 | everything unused is deleted, oldest first, and nothing else |
| BlockFormat.FastIsSlow | ios/Pods/leveldb-library/table/block.cc:54-76 | the one-byte fast path decodes what the general path would |
| BlockFormat.EntryRoundTrip | ios/Pods/leveldb-library/table/block.cc:54-76 | the three lengths of an entry are read back, whatever follows |
| BlockFormat.EntryLayout | ios/Pods/leveldb-library/table/block_builder.cc:88-98 | an entry is three varints, the rest of the key and the value; nothing else is |
| BlockFormat.SharedIsLongest | ios/Pods/leveldb-library/table/block_builder.cc:76-87 | the prefix left out is the longest that the key shares with the one before, and none at a restart |
| BlockBuilder.Builder.Add | ios/Pods/leveldb-library/table/block_builder.cc:72-106 | the buffer becomes the prefix-compressed form of the entries with the new one at the end, restarts every interval-th entry |
| BlockBuilder.Builder.Finish | ios/Pods/leveldb-library/table/block_builder.cc:62-70 | the block is the entries, the restart array and its length |
| BlockBuilder.BlockLayout | ios/Pods/leveldb-library/table/block_builder.cc:5-27 | a block is the entries, the offsets of every interval-th of them in four bytes each, and their count; nothing else is |
| BlockIterator.OpenBlock | ios/Pods/leveldb-library/table/block.cc:19-39 | the restart array of a built block is found |
| BlockIterator.ParseFindsEntry | ios/Pods/leveldb-library/table/block.cc:224-251 | parsing at the offset of an entry, with the shared prefix of the key before it, gives its whole key, its value and the offset of the next |
| BlockIterator.Iter.ParseNextKey | ios/Pods/leveldb-library/table/block.cc:224-251 | shows the next entry and its restart region, or becomes invalid at the end |
| BlockIterator.Iter.Next | ios/Pods/leveldb-library/table/block.cc:137-140 | moves to the next entry, or becomes invalid after the last |
| BlockIterator.Iter.Prev | ios/Pods/leveldb-library/table/block.cc:142-161 | moves to the entry before, or becomes invalid at the first, through the restart points |
| BlockIterator.Iter.Seek | ios/Pods/leveldb-library/table/block.cc:163-201 | binary search over restarts and a scan land on the first entry not before the target |
| BlockIterator.Iter.SeekToFirst | ios/Pods/leveldb-library/table/block.cc:203-206 | the first entry, or none |
| BlockIterator.Iter.SeekToLast | ios/Pods/leveldb-library/table/block.cc:208-213 | the last entry, or none |
| BlockIterator.Iter.LastRestartBefore | ios/Pods/leveldb-library/table/block.cc:163-192 | the restart found begins before the target, or is the first |
| BlockIterator.Build | ios/Pods/leveldb-library/table/block_builder.cc:41-106 | entries become a block exactly if their offsets fit in 32 bits |
| BlockIterator.ReadBack | ios/Pods/leveldb-library/table/block.cc:19-251 | iterating a built block from the front yields exactly the entries that went in, for any keys and any restart interval |
| Coding.EncodeVarint32 | ios/Pods/leveldb-library/util/coding.cc:47-73 | the five branches write the base-128 form |
| Coding.GetVarint32Ptr | ios/Pods/leveldb-library/util/coding.cc:112-128 | the loop reads the base-128 form, five bytes at most |
| Coding.ReadVarint | ios/Pods/leveldb-library/util/coding.cc:112-157 | the loop of the varint readers adds up what the base-128 form means, for any limit on its length |
| Coding.Varint32RoundTrip | ios/Pods/leveldb-library/util/coding.cc:47-128 | a written word is read back with its length, whatever follows |
| Coding.VarintRoundTrip | ios/Pods/leveldb-library/util/coding.cc:47-157 | the same for numbers of any size within the byte limit |
| Coding.FixedRoundTrip | ios/Pods/leveldb-library/util/coding.cc:9-33 | fixed-width numbers are read back |
| Numerals.VarintMeans | ios/Pods/leveldb-library/util/coding.cc:112-157 | on any bytes a varint is read exactly if one with at most so many bytes stands in front, as the number of its base-128 digits |
| Numerals.VarintIs | ios/Pods/leveldb-library/util/coding.cc:47-96 | what is written has the digits of the number in base 128, least significant first, all but the last byte marked, and no leading zeros |
| Numerals.VarintUnique | ios/Pods/leveldb-library/util/coding.cc:47-96 | and nothing else has |
| Numerals.FixedIs | ios/Pods/leveldb-library/util/coding.cc:9-33 | fixed-width numbers have their digits in base 256, least significant first |
| Comparator.BeforeIsTotal | ios/Pods/leveldb-library/util/comparator.cc:25-27 | byte order compares any two keys |
| Comparator.BeforeIsTransitive | ios/Pods/leveldb-library/util/comparator.cc:25-27 | and is transitive |
| Comparator.FindShortestSeparator | ios/Pods/leveldb-library/util/comparator.cc:29-50 | at or after start, before limit, no longer than start, and shortened exactly where the first different byte can be incremented |
| Comparator.FindShortSuccessor | ios/Pods/leveldb-library/util/comparator.cc:52-63 | at or after the key and no longer; the first byte below 0xff is incremented and the rest cut, and a run of 0xff stays |
| Comparator.LessIsTotal | ios/Pods/leveldb-library/db/dbformat.cc:51-67 | internal keys are totally ordered: user key ascending, tag descending |
| Comparator.FindInternalSeparator | ios/Pods/leveldb-library/db/dbformat.cc:69-86 | the key itself, or one with a strictly shorter user key strictly between the two user keys and the highest tag |
| Comparator.FindInternalSuccessor | ios/Pods/leveldb-library/db/dbformat.cc:88-101 | the key itself, or one with a shorter and greater user key and the highest tag |
| Bloom.SetBitSets | ios/Pods/leveldb-library/util/bloom.cc:44-52 | setting a bit sets that bit and no other |
| Bloom.Policy.CreateFilter | ios/Pods/leveldb-library/util/bloom.cc:28-54 | of the documented size, with the number of probes at its end; a bit is set if and only if some probe of some key hits it |
| Bloom.ProbeIs | ios/Pods/leveldb-library/util/bloom.cc:43-53 | the probes of a key are its hash plus multiples of the hash rotated, modulo 2^32 |
| Bloom.DeltaIsRotated | ios/Pods/leveldb-library/util/bloom.cc:47-47 | the rotation is by 17 bits to the right |
| Bloom.Policy.KeyMayMatch | ios/Pods/leveldb-library/util/bloom.cc:56-80 | exactly the test of all probes; short filters match nothing, unknown probe counts everything |
| Bloom.FilterMatchesItsKeys | ios/Pods/leveldb-library/util/bloom.cc:28-80 | the bytes that CreateFilter makes match each of their keys, whatever the keys, the parameters and the hash |
| Bloom.StoredKeyMatches | ios/Pods/leveldb-library/util/bloom.cc:28-80 | no false negatives from the two programs one after the other |
| FilterBlock.FilterBlockBuilder.StartBlock | ios/Pods/leveldb-library/table/filter_block.cc:21-27 | keys added from here go into the filter of this block offset |
| FilterBlock.FilterBlockBuilder.GenerateFilter | ios/Pods/leveldb-library/table/filter_block.cc:51-75 | one filter for the pending keys; an empty one for none |
| FilterBlock.FilterBlockBuilder.Finish | ios/Pods/leveldb-library/table/filter_block.cc:35-49 | filters, their offsets and the base |
| FilterBlock.FilterLayout | ios/Pods/leveldb-library/table/filter_block.cc:35-49 | a filter block is the filters, their offsets and the offset of those in four bytes each, and the byte 11; nothing else is |
| FilterBlock.KeyMayMatch | ios/Pods/leveldb-library/table/filter_block.cc:90-104 | the filter of the block offset decides; errors count as matches |
| FilterBlock.StoredKeyMayMatch | ios/Pods/leveldb-library/table/filter_block.cc:21-104 | a key that went into the filter of a block offset is not rejected there |
| TableBuilder.Builder.Add | ios/Pods/leveldb-library/table/table_builder.cc:94-123 | the entry joins the block in progress; the finished block before it gets a key that separates the two |
| TableBuilder.Builder.Flush | ios/Pods/leveldb-library/table/table_builder.cc:125-139 | the block is closed; entries, index and filter coverage are kept |
| TableBuilder.Builder.Finish | ios/Pods/leveldb-library/table/table_builder.cc:198-253 | the finished table has an index key for each block that separates it from the next, and every user key is in the filter of its block's offset |
| Table.GapHasOtherUser | ios/Pods/leveldb-library/table/table.cc:216-244 | a lookup that falls between a block and its shortened index key has a user key before that of the next block |
| Table.FoundInIndexedBlock | ios/Pods/leveldb-library/table/table.cc:216-244 | if the first entry at or after the lookup key has its user key, it is in the block the index points to |
| Table.SeekFindsFirst | ios/Pods/leveldb-library/table/table.cc:216-244 | what index and block seek find is the first entry of the table at or after the lookup key |
| BloomTable.BloomIsFaithful | ios/Pods/leveldb-library/db/dbformat.cc:105-119 | the bloom policy keeps the promise that filter blocks and lookups rely on |
| BloomTable.Build | ios/Pods/leveldb-library/table/table_builder.cc:94-253 | wherever blocks are cut, the table built holds the entries in order, and its index and filter can be trusted |
| BloomTable.Lookup | ios/Pods/leveldb-library/table/table.cc:216-244 | lookup in such a table with the bloom policy, and the test of the user key in its callback, is the linear scan |
| BloomTable.BuildAndGet | ios/Pods/leveldb-library/table/table.cc:216-244 | for all entries, cuts, policy parameters and hashes: building a table and looking a key up in it equals scanning the entries |
| Table.InternalGet | ios/Pods/leveldb-library/table/table.cc:216-244 | with or without filters it delivers the first entry at or after the lookup key of a linear scan whenever that has the sought user key, and never anything but that first entry |
| ThreadPool.Queues.PostWork | ios/Pods/Libuv-gRPC/src/threadpool.c:142-160 | work goes to its queue, slow work behind a marker that is linked once; a sleeping thread is signalled |
| ThreadPool.Queues.TakeWork | ios/Pods/Libuv-gRPC/src/threadpool.c:57-121 | the worker waits, or leaves with the work, the markers requeued and the signal sent as the scheduler's transition says |
| ThreadPoolProofs.TakeTakes | ios/Pods/Libuv-gRPC/src/threadpool.c:70-121 | what a worker takes leaves exactly one queue, slow work only below the threshold, and the marker stays while slow work is pending |
| ThreadPoolProgress.TakeIsDue | ios/Pods/Libuv-gRPC/src/threadpool.c:45-112 | the oldest slow work is taken if its marker is in front and fewer than (nthreads + 1) / 2 threads run slow work, otherwise the oldest of the other work; a worker waits only if there is none of that and slow work, if any, has its (nthreads + 1) / 2 threads |
| ThreadPoolProgress.PostQueues | ios/Pods/Libuv-gRPC/src/threadpool.c:142-160 | new work is queued last, slow work has its marker, and a signal is sent unless the marker was there |
| ThreadPoolProofs.StepKeeps | ios/Pods/Libuv-gRPC/src/threadpool.c:57-315 | every mutex-held region of every thread keeps the invariant |
| ThreadPoolProofs.RunKeeps | ios/Pods/Libuv-gRPC/src/threadpool.c:57-315 | the invariant holds in every interleaving of submit, worker steps, spurious wake-ups, cancel and delivery |
| ThreadPoolProofs.SlowWorkIsBounded | ios/Pods/Libuv-gRPC/src/threadpool.c:45-104 | at most (nthreads + 1) / 2 threads run slow work, in every state |
| ThreadPoolProofs.PendingWorkIsServed | ios/Pods/Libuv-gRPC/src/threadpool.c:70-160 | whenever the mutex is free, pending slow work has its marker in the main queue, and pending work has a thread that is awake |
| ThreadPoolProgress.DueIsCovered | ios/Pods/Libuv-gRPC/src/threadpool.c:57-160 | in every state of every run, while a thread sleeps, every piece of work that could be taken up, and a place that is free for slow work, has its own thread on the way to the queues |
| ThreadPoolProgress.NoThreadSleepsInVain | ios/Pods/Libuv-gRPC/src/threadpool.c:45-112 | so when every thread sleeps or runs a callback and some thread sleeps, no other work is queued, and pending slow work means that exactly (nthreads + 1) / 2 threads run slow work |
| ThreadPoolProgress.OtherWorkHoldsEveryThread | ios/Pods/Libuv-gRPC/src/threadpool.c:93-112 | without a sleeping thread slow work may wait although none runs: a run of one thread in which other work came first |
| ThreadPoolProofs.StartedAtMostOnce | ios/Pods/Libuv-gRPC/src/threadpool.c:116-138 | no callback is entered twice, and none of cancelled work ever is |
| ThreadPoolProofs.DeliveredOnce | ios/Pods/Libuv-gRPC/src/threadpool.c:269-315 | each item is delivered at most once, as run or as cancelled and never both, and that is what happened to it |
| ThreadPoolProofs.AllDelivered | ios/Pods/Libuv-gRPC/src/threadpool.c:295-315 | nothing is lost: what is no longer queued, running or on its way has been delivered |
| PbTypes.RawRoundTrip | ios/Pods/nanopb/pb_decode.c:1345-1428 | every number in range survives two's complement or zigzag and the checks for its width |
| PbTypes.UnrawMeans | ios/Pods/nanopb/pb_decode.c:1345-1428 | whatever number comes: the value is the one in range that equals it modulo 2^32 (2^64 in an eight-byte field), or that zigzag makes it, and is refused if there is none |
| PbVarint.EncodeVarint | ios/Pods/nanopb/pb_encode.c:608-628 | the marking loop writes the base-128 form |
| PbVarint.Varint32Law | ios/Pods/nanopb/pb_decode.c:187-252 | the 32-bit reader returns every written 32-bit number, whatever follows |
| PbVarint.Varint64Law | ios/Pods/nanopb/pb_decode.c:255-276 | the 64-bit reader returns every written 64-bit number |
| PbVarint.FixedLaw | ios/Pods/nanopb/pb_decode.c:1299-1331 | fixed-width numbers are read back |
| PbVarint.Take32Means | ios/Pods/nanopb/pb_decode.c:187-252 | whatever bytes the 32-bit reader accepts are a varint, read as its number modulo 2^32, and nothing behind it is touched |
| PbVarint.Take64Means | ios/Pods/nanopb/pb_decode.c:255-276 | on any bytes the 64-bit reader accepts exactly varints of up to ten bytes, read as their number modulo 2^64 |
| PbVarint.SkipMeans | ios/Pods/nanopb/pb_decode.c:278-287 | skipping a varint takes exactly its bytes, of any length |
| PbVarint.RealIsLawful | ios/Pods/nanopb/pb_decode.c:187-276 | the readers and writers of numbers obey the law that the message theorems assume |
| PbEncode.PackedSizeIsSize | ios/Pods/nanopb/pb_encode.c:169-189 | the size of a packed array, computed or measured, is the number of bytes its elements take |
| PbEncode.SubmessageEmits | ios/Pods/nanopb/pb_encode.c:717-765 | a submessage is its length and its bytes, in a sizing stream and in a writing one |
| PbEncode.MessageEmits | ios/Pods/nanopb/pb_encode.c:528-550 | for every nested message a sizing stream counts exactly the bytes of the wire format, and a writing stream gets exactly them or is full |
| PbEncode.SizeNeverChanges | ios/Pods/nanopb/pb_encode.c:717-765 | "submsg size changed" does not happen; encoding fails if and only if there is no room |
| PbEncode.SizingPredictsWriting | ios/Pods/nanopb/pb_encode.c:567-576 | pb_get_encoded_size is, to the byte, the buffer that pb_encode needs |
| PbOutput.OStream.Write | ios/Pods/nanopb/pb_encode.c:103-125 | counts, or appends if there is room |
| PbOutput.OStream.EncodeSubmessage | ios/Pods/nanopb/pb_encode.c:717-765 | sizing substream, size and writing substream do to the stream what the encoder's definition says, and the last check never fails |
| PbOutput.OStream.EncodePacked | ios/Pods/nanopb/pb_encode.c:162-205 | the packed branch with its sizing pass does what the definition says |
| PbOutput.OStream.EncodeArray | ios/Pods/nanopb/pb_encode.c:208-233 | so does the unpacked loop |
| PbOutput.OStream.EncodeField | ios/Pods/nanopb/pb_encode.c:341-426 | required, optional, implicit, oneof and repeated fields |
| PbOutput.OStream.EncodeMessage | ios/Pods/nanopb/pb_encode.c:528-550 | the loop over the fields, on a sizing and on a writing stream |
| PbWireLayout.RecordLayout | ios/Pods/nanopb/pb_encode.c:669-724 | a record is, and nothing else is, a varint of 8 times the tag plus 0, 1, 2 or 5, and a varint (negative numbers plus 2^64 or in zigzag), eight bytes, a string behind its length, or four bytes |
| PbWireLayout.PackedLayout | ios/Pods/nanopb/pb_encode.c:162-205 | the contents of a packed array are its numbers so written, one after the other |
| PbWireLayout.MessageLayout | ios/Pods/nanopb/pb_encode.c:341-550 | a message is the records of its fields, in order: none for an unset field or for a field without presence that is zero, empty or a submessage without records, one for all numbers of an array |
| PbInput.FieldIter.Next | ios/Pods/nanopb/pb_common.c:29-85 | moves on and counts the required fields passed, and wraps to the first |
| PbInput.FieldIter.Find | ios/Pods/nanopb/pb_common.c:87-104 | going round once from anywhere finds the field with the tag if there is one |
| PbInput.FieldIter.CountRequired | ios/Pods/nanopb/pb_decode.c:1045-1055 | seeking to the end from anywhere counts all required fields |
| PbInput.SeenStep | ios/Pods/nanopb/pb_decode.c:1021-1026 | marking the bit of a required field keeps the bitmap a record of the fields seen |
| PbInput.CheckSeen | ios/Pods/nanopb/pb_decode.c:1057-1078 | comparing whole words and the remaining bits tests that all of the first bits are set |
| PbInput.BitsAreSeen | ios/Pods/nanopb/pb_decode.c:1039-1079 | which holds exactly when every tracked required field was seen |
| PbInput.IStream.Varint32 | ios/Pods/nanopb/pb_decode.c:187-252 | the byte loop reads what the 32-bit varint grammar says and fails where it does |
| PbInput.IStream.MakeSubstream | ios/Pods/nanopb/pb_decode.c:372-385 | a substream of exactly the length-delimited bytes, which the stream no longer counts as its own |
| PbInput.IStream.CloseSubstream | ios/Pods/nanopb/pb_decode.c:387-400 | afterwards the stream is right behind the record, whatever the substream left unread |
| PbInput.IStream.DecodePacked | ios/Pods/nanopb/pb_decode.c:434-447 | the elements of a packed array up to its capacity; anything beyond is an error |
| PbInput.IStream.DecodeField | ios/Pods/nanopb/pb_decode.c:406-483 | decodes what the field's definition says into its place |
| PbInput.IStream.DecodeMessage | ios/Pods/nanopb/pb_decode.c:934-1082 | the loop with substreams, wrapping field iterator and bitmap decodes what the decoder's definition says, and fails where it does |
| PbEvolution.MessageReread | ios/Pods/nanopb/pb_decode.c:934-1082 | a message of any nesting, decoded with another description of it: what both know is restored, what only the writer knows is skipped to the byte, the rest is default; it fails if and only if the writer did not know one of the first 64 required fields of the message or of a submessage that was written |
| PbEvolution.UnknownFieldsAreSkipped | ios/Pods/nanopb/pb_decode.c:321-334 | so a reader that leaves fields out, at any nesting, never fails, and gets its own fields unchanged |
| PbEvolution.SkipsValue | ios/Pods/nanopb/pb_decode.c:278-334 | for each of the four wire types exactly the payload that the encoder writes is skipped |
| PbEvolution.ZeroKeyEnds | ios/Pods/nanopb/pb_decode.c:298-319 | a zero key behind a message ends it, whatever follows |
| PbEvolution.BadFieldFails | ios/Pods/nanopb/pb_decode.c:321-334 | an unknown field with wire type 3, 4, 6 or 7, or cut short, fails the message |
| PbStorage.DecodedFits | ios/Pods/nanopb/pb_decode.c:1345-1530 | for any bytes: if pb_decode accepts them, arrays and strings are within their static sizes, numbers within their width, and at most one member of each oneof is set, at any nesting |
| PbMerge.SplitSubmessage | ios/Pods/nanopb/pb_decode.c:1525-1546 | a message and any bytes behind it decode alike as one record of a submessage and as two: a second record goes on where the first stopped |
| PbRoundTrip.DefaultIsDefault | ios/Pods/nanopb/pb_encode.c:240-335 | a value that is left out because it is the default is what decoding starts from |
| PbRoundTrip.MessageRoundTrip | ios/Pods/nanopb/pb_decode.c:934-1082 | decoding the wire format of any nested message with distinct nonzero tags restores every field |
| PbRoundTrip.EncodeThenDecode | ios/Pods/nanopb/pb_encode.c:528-550 | with the real numbers: what pb_encode wrote, pb_decode restores; without room it says so |
| PbRoundTrip.EncodeThenReread | ios/Pods/nanopb/pb_encode.c:528-550 | and with another description pb_decode gets what that one knows, or fails for a required field |
| PbInput.WriteThenRead | ios/Pods/nanopb/pb_decode.c:1084-1096 | the two programs one after the other: the message comes back if and only if it fits in the buffer |
| PbInput.WriteThenReread | ios/Pods/nanopb/pb_decode.c:1084-1096 | the two programs with different descriptions of the message |

## Left out

- EngineRuns.EveryReadSeesHistory: says nothing of a read that should find nothing if a compaction of the run has brought its key back; that is where the code goes wrong (`ResurrectionRun.ADeletedKeyIsReadAgain`).
- EngineBackground.FlushKeepsReplaceable: a flush in the middle of a compaction must land clear of the key range of its inputs at the output level, which the code does not check; a run of the engine stops before one that does not. `MidFlush.MidFlushKeepsLevelsIff` says exactly when the levels survive one.
- Engine: the outputs of a compaction are written in one step, with flushes, writers, readers, memtable switches and snapshots between that step and its manifest record.
- Engine: a crash keeps whole records of the newest log, which `LogRoundTrip.ReadLog` shows a cut file to do; loss of unsynced manifest or table bytes, I/O errors, reuse of logs and repair are not steps.
- Engine: obsolete files are deleted against the current version; older versions held by iterators keep more files alive in the code, which the step allows but does not require.
- Engine: the check that a trivial move does not overlap too many grandparent bytes (`db/version_set.cc:1515-1523`) and the scores and seek statistics that start compactions only choose among the modelled steps.
- CompactionWork.DoCompactionWork: where outputs are cut (file size, grandparent overlap) is left open, so the result holds for every policy; keys that do not parse are not modelled, and sequence numbers stay below the largest one.
- Format: user keys are places in an order; the packing of sequence and type into eight bytes and ParseInternalKey are not modelled at this level.
- LogReader.Reader.ReadRecord: which drops are reported is stated for streams that carry whole or cut records, as every cut of a written log does, and for single physical records; readers start at offset 0, so resynchronising at a nonzero initial offset is not covered.
- LogWriter.Writer.AddRecord: requires that the file holds whole records, so a writer opened behind a torn record is not covered.
- LogReader.PhysicalIsFramed: the checksum is any function that extends over concatenation; the CRC-32C tables are not part of this model.
- Manifest.Recover: covers cuts of files that were written with edits that fit their fields and fresh numbers, not any bytes; the CURRENT file, reuse of the manifest, the previous log number and the compaction pointers it restores are not modelled.
- RecoverLogs.RecoverLogFile: a log is the records that a reader gets back from its bytes (`LogRoundTrip.ReadLog`), each already a batch of entries (`WriteBatch.OpsRoundTrip`); I/O errors, records too small for a header and reuse of the last log are not modelled.
- EngineIterator.Scan: the union is walked first and the user-level iterator then runs over it, which `MergingIterator.NextInUnion` shows to be the same places; files that change while an iterator is open are not modelled, since an iterator keeps its version.
- VersionEdit.EditRoundTrip: internal keys are opaque byte strings.
- GroupCommit: operations are values (their bytes are in `WriteBatch`), the size of a batch is a number, and MakeRoomForWrite's waiting is one nondeterministic outcome.
- SkipListRuns.SearchesAreExact: loads and stores are single and sequentially consistent; C++ memory orders, the arena and one reader seeing several lists are not modelled. Any number of readers are alike, so one is followed.
- SkipListRuns.SkipListObject.Insert: the height is a parameter, for every height that RandomHeight can return.
- DbIterator.DBIter.Seek: the internal iterator is a position in a sorted sequence, which `MergingIterator.NextInUnion`, `PrevInUnion` and `SeekInUnion` show a merging iterator to be; read sampling is not modelled.
- MergingIterator.Merger.Next: children hold pairwise distinct keys and are two-level iterators, of which a block or memtable iterator is the one with a single block; their errors are not modelled.
- TwoLevelIterator.TwoLevel.Seek: blocks that cannot be read are not modelled.
- BlockIterator.Iter.Seek: blocks are those a builder wrote; corrupted entries end iteration in the code and are not modelled.
- BlockBuilder.Builder.Finish: offsets must fit in 32 bits, which the code assumes.
- Bloom.Policy.CreateFilter: the filter is returned instead of appended; the number of probes is computed as 69/100 of the bits per key in whole numbers, not in floating point; no property depends on it.
- TableBuilder.Builder.Finish: block bytes, handles, metaindex, footer, compression and the file are left out; a block is its offset and its entries.
- Table.InternalGet: the block cache and read errors are left out; Seek on blocks is linear here and proved to be what it is in `BlockIterator`.
- LruCache.Cache.Insert: the circular lists are sequences, sharding and the mutex are left out, keys are compared and hashed only.
- HandleTable.Table.Resize: chains are sequences instead of linked nodes; lengths do not wrap at 32 bits.
- ThreadPoolProgress.NoThreadSleepsInVain: speaks of states in which some thread sleeps; if none does, slow work waits for other work to end (`OtherWorkHoldsEveryThread`).
- ThreadPoolProofs.RunKeeps: one event loop; thread creation, shutdown, fork and the async handle are left out. Queues are sequences, so the pointer surgery of `queue.h` is not modelled. Cancelling work whose callback has been delivered is outside the model.
- PbEvolution.MessageReread: fields that both descriptions know have the same rule and kind (submessages may differ in their fields), so widening a number or changing a rule is not covered.
- PbMerge.SplitSubmessage: for submessages without required fields, since the code checks those of each record by itself.
- PbStorage.DecodedFits: zero bytes inside a decoded string are accepted, as the code does.
- PbRoundTrip.MessageRoundTrip: static fields only; callbacks, extensions, pointers, fixed-count arrays and fixed-length bytes are left out, messages stay below 2^32 bytes and implicit defaults are zero.
- PbInput.FieldIter.Find: for a message type without fields a key with field number zero is skipped like any unknown field; the code matches it with the terminator.
- PbInput.IStream.DecodeMessage: message types have distinct nonzero tags, as the descriptors that nanopb generates do; a failed decode says nothing about the stream and the half-filled message, and substreams are not closed on that path.
- PbInput.IStream.Varint32: the shift count does not wrap at 256, which overlong varints of more than 36 bytes would make it do.
- PbVarint.EncodeVarint: sizes are unbounded, so overflow of size_t is not modelled.
- The environment, logging, `table_cache.cc`, `builder.cc`, `repair.cc`, `dumpfile.cc`, `c.cc`, the arena, the histogram, snapshots as a linked list, and the rest of libuv and the application are not part of this model: they add drivers, operating-system calls or easy members.

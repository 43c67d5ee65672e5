# TiDB Binlog, verified

A Dafny model of the core of TiDB Binlog and proofs about it.  TiDB Binlog collects the binlogs of
a TiDB cluster on pumps, merges them in commit order on a drainer, and applies them downstream.
Three parts are modelled.

**The pump** (`PumpProtocol`, `PumpHistory`, `PumpFakes`, `PumpRecovery`, `PumpRestart`, `PumpSorter`,
`WritePipeline`, `RecordLog`, `ValueLog`, `PumpGC`).  Prewrite and commit binlogs go to a value log, are indexed by timestamp and pass through
a sorter that reports how far commits are complete.  The protocol is a state machine over the steps
of all concurrent parties; classes model the imperative code and are proved to take those steps.

**The drainer** (`DrainerMerge`, `DrainerStrategy`, `DrainerSources`, `DrainerCheckpoint`, `DrainerSaves`,
`DrainerSchema`, `DrainerCatalog`, `RowFilter`, `BinlogFile`, `BinlogDamage`, `BinlogStore`).  Streams are merged by timestamp, the schema follows the DDL jobs,
row events are filtered in place, checkpoints are saved, and payloads are kept in rotated files.

**The loader** (`LoaderModel`, `LoaderMerge`, `LoaderExecutor`, `LoaderCausality`, `Interleaving`,
`LoaderSchedule`, `LoaderSafeSchedule`, `LoaderBatch`, `LoaderBackpressure`).  Row changes are merged by primary key, run in
safe mode, or run concurrently by causal classes; transactions are batched and throttled.

`Collections` and `LittleEndian` hold shared helpers.  `dafny verify dfyconfig.toml` checks everything.

## What the proofs assume

- Timestamps come from one oracle: a start or commit timestamp is larger than every earlier one, a
  transaction commits only after its prewrite is logged, and the resolver learns the true status.
- Checksums, hashes and the printed form of values are arbitrary functions.
- The timing of saves, flushes, the chaser and the resolver is any choice the code allows.
- The drainer receives increasing timestamps, and acknowledgements come in the order of handing over,
  except that items without row changes may be overtaken.
- A downstream table is its rows; a statement acts on rows as its WHERE clause and REPLACE say.
- An item given to the merger names the source it came from, and at most one is held per source.
- An integer is unbounded unless its width matters: index keys, record lengths and checksums have
  their width, and a length field of 2^63 or more is a negative length.

## Where the code departs from what it promises

- `persistHandlePointer` reads the pointer of the reported timestamp from the index.  If the commit
  binlog was logged twice, that pointer can be behind a prewrite that is still open, and after a crash
  this prewrite never reaches the sorter again (`PumpRestart.RestartUnsafe`).  The exact condition for
  a safe restart is in `PumpRecovery.RestartExact`.
- `doGCTS` with a bound below -1 removes the whole index, since keys are compared as unsigned
  (`PumpGC.GcWipes`, exact condition in `PumpGC.GcExact`).
- Keys are merged by their text, and different keys can have the same text; a row is then lost
  (`LoaderMerge.FormatCollides`, `LoaderMerge.CollisionLosesRow`, exact condition in `LoaderMerge.MergeExact`).
- A DML transaction without row changes is reported after a later DDL, or not at all when the input
  ends (`LoaderBatch.EmptyOvertaken`, `LoaderBatch.LastFlush`, exact condition in `LoaderBatch.SuccessOrder`).
- `Walk` means to go on after a checksum mismatch, but `Decode` reports a different error, so the walk
  fails and intact records behind it are not returned (`BinlogDamage.IntactRecordLost`, exact condition
  in `BinlogDamage.ChecksumExact`).
- A binlogger that is opened again writes behind a torn record.  A later walk takes the new bytes for the
  rest of the torn record if at least its magic was written (`BinlogDamage.ReopenExact`).
- The collector reads the latest timestamp before it adds a pump to the merger.  Binlogs of the new pump
  below an item the merger emits in between are out of order and lost (`DrainerSources.JoinRace`).  So are
  those below an item that passed the check of the flag before the pump was added and is still being sent,
  since its timestamp is published only afterwards (`DrainerSources.SendRace`).  The exact condition is in
  `DrainerSources.JoinExact`.
- A DDL job that modifies a schema replaces the drainer's list of its tables by the job's own.  With an empty
  list, dropping the schema later leaves the tables behind (`DrainerCatalog.OrphanTable`, exact condition in
  `DrainerCatalog.TiedExact`).
- In safe mode an insert into a table without a primary key can repeat its row when it is run again (exact
  condition in `LoaderSafeSchedule.InsertAgainExact`).

## Model

| member | source | states |
|---|---|---|
| `PumpProtocol.SorterSafety` | pump/storage/sorter.go:140-226 | In every run of transactions, index writer, sorter, resolver, collector and crashes, every transaction prewritten here and committing at or below `maxCommitTS` is committed and indexed; so is every one at or below the timestamp the sorter is about to report, and reports increase strictly. A run may crash whenever the replay takes account of every open prewrite before it |
| `PumpProtocol.ReportComplete` | pump/storage/sorter.go:162-226 | When a commit or rollback is at the head of the sort queue and nothing waits in front of it, every transaction prewritten here up to its timestamp is committed and indexed, and every prewrite logged before it is settled |
| `PumpProtocol.StepKeeps` | pump/storage/storage.go:277-324 | Every step except a crash keeps the whole protocol invariant: store, queues, reports, history and puller |
| `PumpProtocol.MaxCommitMonotone` | pump/storage/storage.go:277-324 | No step except a crash lowers `maxCommitTS` |
| `PumpRecovery.RestartExact` | pump/storage/storage.go:214-233 | After a crash in any state that satisfies the invariant, every report in every continuation is complete if and only if each open transaction with a prewrite before the replay position is settled in time or met again by the replay |
| `PumpProtocol.RestartCore` | pump/storage/storage.go:214-233 | Under that condition a restart keeps the protocol invariant, although queues and reports start again |
| `PumpProtocol.CarefulIsSafe` | pump/storage/storage.go:249-275 | Runs in which no persisted handle pointer overshoots, with any crashes, satisfy the condition at every crash |
| `PumpProtocol.NoCrashIsSafe` | pump/storage/storage.go:277-324 | Runs without a crash satisfy it |
| `PumpProtocol.CarefulKeeps` | pump/storage/storage.go:249-275 | If the index entry read for the reported timestamp is not after the reported record whenever the handle pointer is persisted, then every step, crashes included, keeps the invariant |
| `PumpProtocol.PullerSafety` | pump/storage/storage.go:1114-1246 | A puller emits strictly increasing commit timestamps above its start, and has emitted every commit in its range up to the last one whose transaction was short enough to keep its P binlog, in the same runs |
| `PumpProtocol.ResolveKeeps` | pump/storage/storage.go:401-557 | The resolver indexes the commit before it releases the prewrite, and so keeps the invariant |
| `PumpProtocol.GcDeleteKeeps` | pump/storage/storage.go:696-797 | Deleting an index entry at or below the collection bound keeps the store invariant |
| `PumpRestart.RestartUnsafe` | pump/storage/storage.go:249-275 | A reachable state in which the sorter is about to report a timestamp although a transaction below it is not indexed: the commit binlog was logged twice, by client and resolver, the handle pointer overshot, and the process crashed |
| `PumpHistory.AwaitedExact` | pump/storage/sorter.go:140-160 | After any operations on an empty sorter, a transaction is awaited if and only if the last operation that concerns it pushed its prewrite: its commit, its rollback and the resolver release it |
| `PumpHistory.AllMatchedExact` | pump/storage/sorter.go:133-160 | Without the resolver nothing is awaited if and only if every prewrite pushed is followed by a commit or rollback of its transaction |
| `PumpHistory.PassExact` | pump/storage/sorter.go:184-213 | In every run, crashes included, the sorter can leave a prewrite without the resolver if and only if the last operation since the start that concerns it did not push its prewrite |
| `PumpHistory.CommitUnblocks` | pump/storage/sorter.go:184-213 | A commit or rollback pushed after the prewrite lets the sorter go on |
| `PumpHistory.ReportsRecords` | pump/storage/sorter.go:162-226 | Once nothing is awaited the sorter takes every item and reports exactly the commits and rollbacks above everything before them, in order |
| `PumpHistory.HandledMax` | pump/storage/storage.go:277-324 | Between crashes `maxCommitTS` is at any time the largest of its value at the start and the reports handled since, so every report is published |
| `PumpFakes.FakesStreamed` | pump/storage/storage.go:1146-1245 | In every run an iteration that ends has sent every fake binlog of its snapshot above its start and below its limit |
| `PumpFakes.LateFakeMissed` | pump/storage/storage.go:1146-1245 | A reachable state in which a fake binlog, logged after a later timestamp was sent, is indexed inside the range of the stream and was passed over |
| `PumpSorter.Sorter.AllMatched` | pump/storage/sorter.go:133-138 | True exactly when no start timestamp is awaited |
| `PumpSorter.Sorter.PushTSItem` | pump/storage/sorter.go:140-160 | The new queue and awaited set are those of the protocol step; a commit releases its prewrite at once |
| `PumpSorter.Sorter.RunTurn` | pump/storage/sorter.go:162-226 | One turn takes an item, reports it, or deals with the awaited prewrite, exactly as the protocol steps do, for either answer of the resolver |
| `PumpSorter.AllMatchedMeansSettled` | pump/storage/sorter.go:133-138 | When nothing is awaited, every prewrite pushed to the sorter since the last start is settled |
| `PumpSorter.BatchIsSteps` | pump/storage/storage.go:1416-1436 | Writing a batch leaves the same index and head pointer as writing its records one by one, repeated timestamps included |
| `PumpSorter.BatchLast` | pump/storage/storage.go:1416-1436 | A batch holds, for exactly the timestamps of its records, the position of the last record with that timestamp |
| `PumpSorter.Append.WriteBatchToKV` | pump/storage/storage.go:1416-1436 | The index and head pointer after a batch |
| `PumpSorter.Append.HandleSortItem` | pump/storage/storage.go:277-324 | `maxCommitTS` and the item to persist after a report |
| `PumpSorter.Append.PersistHandlePointer` | pump/storage/storage.go:249-275 | Saves the pointer found in the index; fails exactly when there is none |
| `PumpSorter.Append.PullRound` | pump/storage/storage.go:1146-1245 | One iteration sends, in increasing order, exactly the timestamps above `last` and up to `maxCommitTS` whose record is a fake binlog, or a commit or rollback whose start is indexed |
| `WritePipeline.NoGap` | pump/storage/chaser.go:72-146 | In every run of writer and chaser, the stream to the index without adjacent repeats is a prefix of the log, and is the whole log whenever the chaser is off and no write is in progress |
| `WritePipeline.HeadCovers` | pump/storage/storage.go:938-1046 | Everything up to the last record handed to the index was handed over before it |
| `WritePipeline.StreamCatchesUp` | pump/storage/chaser.go:72-146 | From every state of every run, writer and chaser can go on, without further writes, until the whole log is handed to the index and the chaser is off |
| `WritePipeline.RestartCovers` | pump/storage/storage.go:214-233 | A crash at any moment, before the first store included, keeps everything before the replay point indexed, and a life that has sent and stored everything leaves nothing unindexed |
| `WritePipeline.LivesCover` | pump/storage/storage.go:214-233 | The same after any number of lives, each with its own chaser runs, handle pointer and crash |
| `WritePipeline.SlowChaser.CatchUp` | pump/storage/chaser.go:130-148 | Sends the records from the last unread one to the end and then points at the last one sent; stopped before a record, it points at that record |
| `RecordLog.ReadBack` | pump/storage/log.go:84-124 | Round trip: an encoded record reads back at its offset from any file that contains it |
| `RecordLog.RecordAtExact` | pump/storage/log.go:84-124 | A payload is read at an offset if and only if the bytes there are its encoding, or it is empty and there is a negative length with the checksum of nothing |
| `RecordLog.SeekToNextRecord` | pump/storage/log.go:357-379 | Skips to the first position that starts with the record magic |
| `RecordLog.ScanFile` | pump/storage/log.go:390-433 | On arbitrary bytes the scan ends and delivers what the greedy specification does |
| `RecordLog.GreedySound` | pump/storage/log.go:390-433 | Delivered records are checksum-valid at their offsets, in order, and do not overlap |
| `RecordLog.GreedyComplete` | pump/storage/log.go:390-433 | A valid record past the start is delivered, or an earlier delivered record overlaps it |
| `ValueLog.PointerSurvives` | pump/storage/vlog.go:338-406 | A pointer assigned by a write still holds its record after any later writes, rotations and collections below its timestamp |
| `ValueLog.WriteOrder` | pump/storage/vlog.go:338-406 | A write adds exactly its records, at the assigned pointers, to the end of the log order |
| `ValueLog.PointersRise` | pump/storage/vlog.go:386-389 | The pointers of a write rise strictly by file and offset |
| `ValueLog.FilesPacked` | pump/storage/vlog.go:360-406 | After any writes and collections the current file is not over the limit, and every other file is over it by its last entry only |
| `ValueLog.CollectExact` | pump/storage/vlog.go:480-500 | A file stays, unchanged, if and only if it is the current one, holds an entry above the bound, or the bound is negative |
| `ValueLog.ScanDelivers` | pump/storage/log.go:390-433 | The greedy scan of a well-formed file from a record boundary delivers exactly the records from there on |
| `ValueLog.ScanIsSuffix` | pump/storage/vlog.go:451-477 | A scan from an assigned pointer visits exactly the suffix of the log order that starts there |
| `ValueLog.ValueLog.Write` | pump/storage/vlog.go:338-406 | Buffering, flushing and rotating give the pointers and the log of the specification |
| `ValueLog.ValueLog.ReadValue` | pump/storage/vlog.go:321-336 | Reads the payload a pointer holds; nothing for a file that does not exist |
| `ValueLog.RawAtEntry` | pump/storage/log.go:390-433 | A scan of a file from the offset of an entry delivers that entry and every later one |
| `ValueLog.ValueLog.Scan` | pump/storage/vlog.go:451-477 | From any pointer, inside a record or in a file that is gone too, visits what can be read from there on in its file and then every entry of the later files; from the pointer of an entry, exactly that entry and the later ones |
| `ValueLog.ValueLog.Rotate` | pump/storage/vlog.go:282-294 | Finalizes the current file with a footer and opens the next; only the file with the highest id is unfinalized |
| `ValueLog.Finalize` | pump/storage/log.go:226-249 | Appends the footer with the largest timestamp and the end mark, and changes nothing before it |
| `ValueLog.Recover` | pump/storage/log.go:256-277 | The recovered largest timestamp bounds every record the scan finds and is one of theirs |
| `ValueLog.ValueLog.GcTS` | pump/storage/vlog.go:480-516 | Deletes exactly the finished files whose largest timestamp is at or below the bound |
| `PumpGC.EncodeTSKey` | pump/storage/util.go:33-42 | Fills the key with the prefix and the big-endian timestamp |
| `PumpGC.KeyOrder` | pump/storage/util.go:33-42 | Keys are ordered as the timestamps read as unsigned; as the timestamps themselves if they are not negative |
| `PumpGC.KeyRoundTrip` | pump/storage/util.go:26-42 | Decoding an encoded key gives the timestamp back |
| `PumpGC.Metadata.DoGCTS` | pump/storage/storage.go:696-797 | Deleting in batches with iterator restarts leaves exactly the specified index |
| `PumpGC.GcExact` | pump/storage/storage.go:696-797 | Exactly the entries at or below the bound are removed if and only if the bound is at least -1 or the index is empty |
| `PumpGC.GcWipes` | pump/storage/storage.go:696-797 | A bound below -1 removes an entry above it |
| `PumpGC.GcConsistent` | pump/storage/vlog.go:480-516 | After collecting log and index with one bound, every remaining entry still points at its record, and entries above the bound are untouched |
| `PumpGC.PrewriteKept` | pump/storage/storage.go:663-694 | The P binlog of a commit above the collection timestamp is kept, in index and log, if the transaction lasted under 600 seconds |
| `LoaderMerge.MergeCorrect` | pkg/loader/merge.go:34-129 | Running all deletes, then all insert-replaces, then all update-replaces of the merged changes, in any order within a phase, gives the table of the sequential run, given that its result satisfies the unique keys and no two primary keys are written out alike |
| `LoaderMerge.MergeExact` | pkg/loader/merge.go:34-129 | If every further unique key has a column outside the primary key, and the changes alone, on the empty table, leave no rows that agree on a unique key, then merging is correct on every table and in every order if and only if no two of the primary keys are written out alike |
| `LoaderMerge.FormatCollides` | pkg/loader/model.go:295-305 | Two different two-column keys with the same text |
| `LoaderMerge.SecondInsertWins` | pkg/loader/merge.go:34-129 | Of two inserts whose keys have the same text the first is lost, in every order of the phases, on every table definition and value |
| `LoaderMerge.CollisionLosesRow` | pkg/loader/merge.go:34-129 | Two valid inserts with text keys after which a row of the sequential result is missing |
| `LoaderMerge.SingleColumnCorrect` | pkg/loader/model.go:295-305 | With one primary key column whose values are written out differently, merging is correct on every table, in every order, for all changes |
| `LoaderMerge.UpdateKey` | pkg/loader/model.go:125-140 | True exactly when an update changes the primary key |
| `LoaderMerge.MergeByPrimaryKey` | pkg/loader/merge.go:34-129 | Fails exactly on a nonempty list without a primary key; otherwise merges the changes one after another, key-changing updates split in two |
| `LoaderMerge.GroupByKind` | pkg/loader/merge.go:121-129 | Groups the merged changes by kind, each exactly in its group |
| `LoaderExecutor.SplitDMLs` | pkg/loader/util.go:201-211 | The parts concatenate to the input, and all but the last have exactly the batch size |
| `LoaderExecutor.Executor.Bulk` | pkg/loader/executor.go:167-231 | One transaction deletes, or replaces by, its changes in order |
| `LoaderExecutor.Executor.SplitExec` | pkg/loader/executor.go:274-289 | The parts take effect in any order; the result is that of some order of the same changes |
| `LoaderExecutor.Executor.ExecTableBatch` | pkg/loader/executor.go:240-271 | The merged batch leaves the sequential result, whatever the order of its transactions; without a primary key it fails and changes nothing |
| `LoaderExecutor.Executor.SafeExec` | pkg/loader/executor.go:348-384 | Safe mode runs an insert as a replace and an update as a delete and a replace |
| `LoaderExecutor.SafeModeReentrant` | pkg/loader/executor.go:348-384 | A run whose tables all satisfy the unique keys, replayed in safe mode from any table that differs from the original start only in rows the run names, ends in the original final table |
| `LoaderExecutor.ReplayAgrees` | pkg/loader/executor.go:348-384 | During such a replay the table agrees with the original one except on keys still to come, although replaces may remove other rows for a while |
| `LoaderExecutor.ReplayAfterCrash` | pkg/loader/executor.go:348-384 | A crash behind any part of the run, any number of replays that crash behind any part, and then a full replay end in the original final table |
| `LoaderExecutor.StatementsFollow` | pkg/loader/model.go:280-293 | On a run that fits its tables the plain statements succeed and do what the upstream did |
| `LoaderExecutor.WhereSlice` | pkg/loader/model.go:221-240 | A row is looked up by the first unique key without NULL, else by all columns; with a primary key without NULL, by the primary key |
| `LoaderExecutor.PrimaryFirst` | pkg/loader/util.go:76-84 | The primary key comes first, and no unique key is lost |
| `LoaderCausality.GetKeys` | pkg/loader/model.go:321-360 | The keys of a change are those of its rows; there is always one and none is empty |
| `LoaderCausality.RelatedShareKey` | pkg/loader/model.go:307-360 | Two rows of a table that are equal, or agree on a unique key without NULL, share a key |
| `LoaderCausality.ImageKeysExact` | pkg/loader/model.go:321-360 | The keys of a row are exactly the texts of its unique keys that are not all NULL, with the table name, or the hash of the row if all are |
| `LoaderCausality.TextSeparates` | pkg/loader/model.go:307-319 | Rows with different values of a one-column key have different texts, if values are written out differently |
| `LoaderCausality.AddedOneClass` | pkg/loader/causality.go:47-70 | Adding keys without conflict puts them in one class, changes no other class, and keeps tokens fixed points |
| `LoaderCausality.Causality.DetectConflict` | pkg/loader/causality.go:83-99 | True exactly when two of the keys belong to different classes |
| `LoaderCausality.Causality.Add` | pkg/loader/causality.go:47-70 | Fails exactly on a conflict; otherwise all keys join one class |
| `LoaderSchedule.ParallelRun` | pkg/loader/load.go:454-500 | In plain mode, changes that can be run one after another succeed in parallel with the same outcome, in tables with or without a primary key |
| `LoaderSafeSchedule.ParallelReplay` | pkg/loader/load.go:454-500 | In safe mode the parallel run leaves in every table, with or without a primary key, what its own statements leave in order; a table with a primary key, some of whose changes took effect before, ends in its original final state, whatever the other tables are |
| `LoaderSafeSchedule.SafeLawful` | pkg/loader/executor.go:348-384 | In safe mode changes that share no key commute on all tables |
| `LoaderSafeSchedule.SafeCommute` | pkg/loader/executor.go:348-384 | Safe statements about different rows commute on every table, valid or half replayed |
| `LoaderSafeSchedule.LooseCommute` | pkg/loader/executor.go:348-384 | Safe statements about unrelated rows commute on every table without a primary key, repeated rows included |
| `LoaderSafeSchedule.InsertAgainExact` | pkg/loader/executor.go:348-384 | Without a primary key, an insert run again in safe mode leaves the same table if and only if its row has a unique key without NULL |
| `LoaderSafeSchedule.RunPerTable` | pkg/loader/load.go:454-500 | A serial run over many tables acts on each as its own changes in order |
| `LoaderSchedule.Scheduler.SingleExec` | pkg/loader/load.go:454-500 | With causality on, for any executor under which changes without a shared key commute, and whatever the interleaving of the workers between flushes, the run succeeds with the serial result whenever the serial run is possible; adding keys never fails. In any case the outcome is that of running in some order the changes that took effect, all of them if nothing failed |
| `LoaderSchedule.Scheduler.ExecByHash` | pkg/loader/load.go:433-452 | Any interleaving of queues whose changes commute across queues gives the serial result; a worker that fails stops while the others go on, and what took effect is run in some order |
| `LoaderSchedule.Scheduler.Schedule` | pkg/loader/load.go:464-485 | A conflict flushes all queues and resets the classes; the rest of the run still leads to the serial result |
| `LoaderSchedule.PlacedSeparate` | pkg/loader/load.go:454-500 | Changes that share a key are in one queue, so changes in different queues commute |
| `LoaderSchedule.IndependentCommute` | pkg/loader/load.go:454-500 | Changes with unrelated rows commute: what is possible in one order is possible in the other, with the same result |
| `LoaderSchedule.StepsLawful` | pkg/loader/load.go:454-500 | In plain mode changes that share no key commute |
| `LoaderSchedule.NoSharedKey` | pkg/loader/model.go:321-360 | Changes that share no key have unrelated rows or different tables |
| `LoaderSchedule.WhereHitsRow` | pkg/loader/model.go:221-240 | In a table that satisfies its unique keys, a row that matches the WHERE clause is the row meant |
| `LoaderSchedule.StepKeepsUnique` | pkg/loader/executor.go:348-384 | A change keeps the unique keys, in tables with or without a primary key |
| `LoaderSafeSchedule.LoosePlain` | pkg/loader/executor.go:348-384 | Where a change is possible as the upstream made it, safe mode on a table without a primary key does just that |
| `Interleaving.RunQueues` | pkg/loader/load.go:433-452 | Workers popping their queues in any interleaving reach the serial result if work in different queues commutes |
| `Interleaving.AnyWorkerNext` | pkg/loader/load.go:433-452 | Whichever worker goes next, the rest of the work still leads to the serial result |
| `LoaderBatch.RunKeeps` | pkg/loader/load.go:729-798 | In every run the work executed, followed by what is accumulated, is the work of the input in order, the row changes executed are those of the successful transactions, and each transaction is reported or pending exactly once |
| `LoaderBatch.SuccessOrder` | pkg/loader/load.go:729-798 | Successes followed by pending transactions are the input in order if and only if no DDL is put while the pending transactions have no row changes |
| `LoaderBatch.ReportOrder` | pkg/loader/load.go:729-798 | In every run each report comes after those of all earlier transactions, except some without row changes, and none comes twice |
| `LoaderBatch.NonemptyInOrder` | pkg/loader/load.go:766-798 | Without empty DML transactions the order always holds |
| `LoaderBatch.ExecutedWork` | pkg/loader/load.go:766-798 | While every step succeeds, what is executed is the work of the input but for fewer than the limit of the last row changes, and all of it without dispatch |
| `LoaderBatch.PutWaits` | pkg/loader/load.go:786-796 | With dispatch a put below the limit executes and reports nothing |
| `LoaderBatch.EmptyOvertaken` | pkg/loader/load.go:729-752 | An empty DML transaction followed by a DDL is overtaken by it |
| `LoaderBatch.LastFlush` | pkg/loader/load.go:729-752 | After any run, the flush at the end of the input leaves every transaction reported if and only if row changes were left or nothing was pending |
| `LoaderBatch.BatchManager.ExecAccumulatedDMLs` | pkg/loader/load.go:729-752 | The state after a flush, successful or not |
| `LoaderBatch.BatchManager.ExecDDL` | pkg/loader/load.go:754-764 | A DDL succeeds unless its error is not ignorable |
| `LoaderBatch.BatchManager.Put` | pkg/loader/load.go:766-798 | The state and error of putting a transaction, in all its branches |
| `LoaderBackpressure.CacheBounded` | pkg/loader/load.go:822-875 | Until the manager is closed, outstanding row changes stay within the limit unless one oversized transaction is the only nonempty one; the counter is the outstanding total less what is sent but not added |
| `LoaderBackpressure.NegativeCounter` | pkg/loader/load.go:822-875 | The counter is negative exactly when less is outstanding than the size sent but not added |
| `LoaderBackpressure.CounterGoesNegative` | pkg/loader/load.go:857-875 | A run in which the pop precedes the add |
| `LoaderBackpressure.NeverStuck` | pkg/loader/load.go:845-855 | With nothing outstanding, any transaction may pass |
| `LoaderBackpressure.PassExact` | pkg/loader/load.go:845-855 | Until the manager is closed a transaction may pass if and only if it is small and fits beside what is outstanding, or has at least the limit and only empty ones are outstanding |
| `LoaderBackpressure.TxnManager.WaitOver` | pkg/loader/load.go:845-855 | When the wait ends for a transaction of a given size |
| `LoaderBackpressure.TxnManager.Pop` | pkg/loader/load.go:870-875 | The counter after a pop is that of the protocol step |
| `LoaderBackpressure.TxnManager.Add` | pkg/loader/load.go:857-861 | The counter after an add is that of the protocol step |
| `DrainerCheckpoint.CheckpointSafe` | drainer/syncer.go:197-265 | In every run every item handed downstream up to a saved timestamp is acknowledged, fake binlogs included, although acknowledgements of items without row changes may be overtaken; only such an item can be unacknowledged. Saved timestamps never fall, nor below the checkpoint of the start |
| `DrainerCheckpoint.LoaderAcks` | pkg/loader/load.go:729-798 | Every order in which the loader reports transactions is one these runs allow |
| `DrainerCheckpoint.FakeNotStuck` | drainer/syncer.go:330-339 | Once all items are acknowledged the next waiting fake binlog can be pushed |
| `DrainerSaves.SavesLargest` | drainer/syncer.go:197-265 | In every run, after acknowledging an urgent item, taking any item or fake binlog when the time has come, or the end of the loop, the last saved timestamp is the largest taken so far, or the start checkpoint if none was; no other step saves anything new |
| `DrainerSaves.FakesConserved` | drainer/syncer.go:328-346 | No fake binlog that was kept is lost or overtaken on its way through list, stage and channel |
| `DrainerSaves.QuietRepresented` | drainer/syncer.go:317-326 | Each binlog that is not handed downstream is represented by a fake binlog at most three seconds older, and fake binlogs are more than three seconds apart |
| `DrainerCheckpoint.StepKeeps` | drainer/syncer.go:317-347 | Every step of run loop and acknowledging loop keeps the invariant |
| `DrainerCheckpoint.Syncer.AppendFakeBinlogIfNeeded` | drainer/syncer.go:317-326 | A fake binlog is kept, with the timestamp it waits for, only if the last is more than three seconds older |
| `DrainerCheckpoint.Syncer.StageFakeBinlog` | drainer/syncer.go:330-339 | The first waiting fake binlog is staged only when the item before it is acknowledged |
| `DrainerCheckpoint.Syncer.HandleSuccess` | drainer/syncer.go:216-256 | The timestamps and saves after an acknowledgement |
| `DrainerSources.MergerSafe` | drainer/merge.go:218-335 | In every run of collector and run loop, in which the check of the flag, the send and the publication of the latest timestamp are separate steps, the output is strictly increasing, every item received is emitted, waits, or is dropped at or below the latest timestamp, exactly once, and the published timestamp is never ahead of the output |
| `DrainerSources.EmitsLeast` | drainer/merge.go:299-316 | When an item passes the check of the flag, each source there is at that moment has an item held at or above it, or it is that source's own, since an item popped before a change of the sources is pushed back; a source whose addition has not raised the flag yet is the one exception |
| `DrainerSources.NothingLost` | drainer/merge.go:218-335 | However sources come and go, if none delivers below what it had reached, and each that joins was asked from a timestamp that neither the output nor an item past the check is above, then nothing is dropped as out of order and every timestamp received is the start, was emitted or waits |
| `DrainerSources.JoinExact` | drainer/collector.go:331-338 | When a source joins, every steady continuation is free of loss if and only if neither the output nor an item past the check is above what the source still delivers |
| `DrainerSources.LateJoins` | drainer/merge.go:236-335 | From every reachable late join, and for every item of the new source between what it was asked from and what is decided, a steady continuation that receives the item and drops it as out of order |
| `DrainerSources.StaleIsLost` | drainer/merge.go:318-329 | An item below the one past the check, or at or below the latest timestamp, never leaves the merger from then on, in any continuation |
| `DrainerSources.JoinRace` | drainer/collector.go:331-338 | A late join because an item is emitted between the reading of the timestamp and the addition |
| `DrainerSources.SendRace` | drainer/merge.go:309-334 | A late join although nothing is emitted in between: an item has passed the check and is still being sent when the timestamp is read and the source is added and flagged |
| `DrainerMerge.MergeIsSorted` | drainer/merge.go:236-335 | With fixed sorted sources the output is strictly increasing with exactly the timestamps that occur above the start and up to the least of the sources' last timestamps |
| `DrainerMerge.StrategiesAgree` | drainer/merge.go:83-151 | Any two runs over the same sources, whichever least items they pop, give the same timestamps |
| `DrainerStrategy.NormalStrategy.Pop` | drainer/merge.go:131-145 | Returns and removes an item with least timestamp, in any order of visiting the map |
| `DrainerStrategy.HeapStrategy.Pop` | drainer/merge.go:93-102 | Returns and removes an item with least timestamp from a binary heap, and keeps heap and source set in step |
| `DrainerStrategy.HeapStrategy.Push` | drainer/merge.go:83-90 | Holds the item under its source and keeps the heap order |
| `DrainerStrategy.Merge` | drainer/merge.go:236-335 | The run loop over fixed sources, with either strategy, produces the merge |
| `DrainerStrategy.Fill` | drainer/merge.go:268-289 | Receives from every source without a held item; a drained source stops the round |
| `DrainerSchema.PathIndependent` | drainer/schema.go:270-308 | Catching up to a version and then to a later one is catching up to the later one at once, errors included |
| `DrainerSchema.SeriesIsLast` | drainer/schema.go:270-308 | Any increasing series of versions is as good as its last |
| `DrainerSchema.NeverTwice` | drainer/schema.go:264-308 | In every run, jobs added again included, applied versions rise strictly |
| `DrainerSchema.HistoryExact` | drainer/schema.go:188-211 | In every run two entries per table answer for a version as the full history does if and only if the version is above the third newest entry |
| `DrainerSchema.LookupKept` | drainer/schema.go:188-211 | The same for one rising history |
| `DrainerSchema.TrimPerform` | drainer/schema.go:330-501 | Every kind of DDL job has the same outcome, success, error and partial effect, with two entries as with full histories |
| `DrainerSchema.SchemaKeeper.AddJob` | drainer/schema.go:264-268 | A job is appended only if it is newer than the last |
| `DrainerSchema.SchemaKeeper.AppendTableInfo` | drainer/schema.go:188-195 | The history of a table after a new definition |
| `DrainerSchema.SchemaKeeper.TableBySchemaVersion` | drainer/schema.go:198-211 | The first definition not older than the version |
| `DrainerSchema.SchemaKeeper.HandlePreviousDDLJobIfNeed` | drainer/schema.go:270-308 | Store, jobs left and error of the catching-up loop |
| `DrainerCatalog.CreateSchemaExact` | drainer/schema.go:344-355 | Fails exactly if the id is there; otherwise adds the schema and its name and changes nothing else |
| `DrainerCatalog.ModifySchemaExact` | drainer/schema.go:357-367 | Fails exactly if the id is not there; otherwise puts the job's schema in its place and changes no table |
| `DrainerCatalog.DropSchemaExact` | drainer/schema.go:138-154 | Fails exactly if the schema is not there; otherwise removes it, its name and exactly the tables of its list |
| `DrainerCatalog.CreateTableExact` | drainer/schema.go:406-425 | Fails exactly without definition or schema or if the id is there; otherwise the table has just that definition, under its schema and name, and nothing else has changed |
| `DrainerCatalog.DropTableExact` | drainer/schema.go:427-440 | Fails exactly without the job's schema or if the table or its schema is not there; otherwise the table is gone from histories, names and its schema's list, and nothing else has changed |
| `DrainerCatalog.RenameTableExact` | drainer/schema.go:378-404 | Exactly when it succeeds; then the old id is gone and the new one there with its definition, schema and name; a failure can leave the table dropped |
| `DrainerCatalog.TruncateTableExact` | drainer/schema.go:442-468 | The same for truncating, which also needs the job's schema |
| `DrainerCatalog.OtherExact` | drainer/schema.go:469-498 | Any other job fails exactly without definition, schema or table; otherwise it adds one definition to the table and changes nothing else |
| `DrainerCatalog.TiedExact` | drainer/schema.go:343-498 | From a catalog in which every table has a history, a name, and a place in the list of exactly the schema its name leads to, a job, failing or not, keeps this if and only if it is no schema job with a foreign list or name |
| `DrainerCatalog.CatalogTied` | drainer/schema.go:270-308 | So it holds in every run whose schema jobs are of that kind |
| `DrainerCatalog.OrphanTable` | drainer/schema.go:357-376 | Modifying a schema by a job with an empty list, and dropping it, leaves its table behind without a schema |
| `DrainerCatalog.CatchUpExact` | drainer/schema.go:270-308 | Catching up takes jobs from the front, none above the version, up to the first above it or one that fails |
| `DrainerCatalog.LookupFirst` | drainer/schema.go:198-211 | The answer for a version is the first definition that is not older |
| `RowFilter.Mutation.FilterThenIterate` | drainer/syncer.go:584-636 | Iterating to the end after filtering in place yields exactly the original events without the skipped types, in order; fails exactly on an unknown type |
| `RowFilter.Mutation.FilterRows` | drainer/syncer.go:584-636 | After in-place compaction of the four arrays, their fronts hold a row for every event and mean exactly the original events without the skipped types, in order; fails exactly on an unknown type |
| `RowFilter.Mutation.KeepEvent` | drainer/syncer.go:618-631 | Copies type and row to the fronts of their arrays without touching what is still to be read |
| `RowFilter.Reassembled` | drainer/translator/sequence_iterator.go:36-61 | Taking events apart into types and rows and iterating over the parts gives the events back |
| `RowFilter.KeptAppend` | drainer/syncer.go:584-636 | Filtering keeps the order of events and keeps or skips each by its own type |
| `RowFilter.SequenceIterator.Next` | drainer/translator/sequence_iterator.go:36-61 | Yields the events one by one, then the end, or an error at an unknown type |
| `RowFilter.Iterate` | drainer/translator/sequence_iterator.go:36-61 | Iterating to the end yields the events of the mutation, or fails exactly on an unknown type |
| `BinlogFile.DecodeEncoded` | pkg/binlogfile/decoder.go:85-126 | Round trip: a record anywhere in a file decodes to its payload |
| `BinlogFile.DecodeFrame` | pkg/binlogfile/decoder.go:85-126 | A framed record decodes to its payload if and only if its checksum field matches |
| `BinlogFile.DecodeTorn` | pkg/binlogfile/decoder.go:85-126 | A proper prefix of a record at the end of a file reads as the end |
| `BinlogFile.WalkBack` | pkg/binlogfile/binlogger.go:238-352 | After writing any nonempty payloads with any threshold, a walk from a returned position gives exactly the later payloads with their returned positions, a torn last record being the end |
| `BinlogFile.WalkAll` | pkg/binlogfile/binlogger.go:198-235 | A walk from the start gives back everything |
| `BinlogDamage.WalkSound` | pkg/binlogfile/binlogger.go:284-341 | On arbitrary bytes a walk delivers valid records in order that do not overlap |
| `BinlogDamage.WalkMisses` | pkg/binlogfile/binlogger.go:284-341 | On arbitrary bytes a valid record past the start is delivered, or an earlier delivered one overlaps it, or the walk stopped before it at a wrong checksum, an incomplete record or a negative length |
| `BinlogDamage.ChecksumExact` | pkg/binlogfile/binlogger.go:296-341 | On a file of framed records the walk returns exactly those before the first wrong checksum; all of them if and only if every checksum matches |
| `BinlogDamage.ChecksumFailsWalk` | pkg/binlogfile/binlogger.go:238-352 | A walk over several files fails at such a file after those records |
| `BinlogDamage.IntactRecordLost` | pkg/binlogfile/binlogger.go:318-334 | A file in which an intact record behind a wrong checksum is not returned |
| `BinlogDamage.ReopenExact` | pkg/binlogfile/binlogger.go:92-162 | When writing goes on behind the torn start of a record, a walk finds everything before and behind it if and only if fewer than four bytes of it were written |
| `BinlogFile.SearchFirst` | pkg/binlogfile/binlogger.go:506-550 | The plain search finds the first magic at or after the offset, or there is none |
| `BinlogFile.WrittenEntity` | pkg/binlogfile/binlogger.go:416-447 | A write adds exactly its payload, at the position returned, rotating or not |
| `BinlogFile.FilesPacked` | pkg/binlogfile/binlogger.go:440-446 | After any writes the last file is below the threshold and every earlier one reached it with its last record |
| `BinlogStore.SeekBinlog` | pkg/binlogfile/binlogger.go:506-550 | The chunked search gives the result of a plain search |
| `BinlogStore.Binlogger.WriteTail` | pkg/binlogfile/binlogger.go:416-447 | The files and position after a write; an empty payload is ignored |
| `BinlogStore.Binlogger.Rotate` | pkg/binlogfile/binlogger.go:469-489 | A new empty file follows |
| `BinlogStore.Binlogger.WalkOne` | pkg/binlogfile/binlogger.go:284-341 | Reads one file, going on at the next magic after a wrong one |
| `BinlogStore.Binlogger.Walk` | pkg/binlogfile/binlogger.go:238-352 | Reads the files in order from a position; an incomplete record is an error except in the last file |

## Left out

- Network, cluster membership, configuration, metrics, logging, TLS, encryption and command lines.
- SQL text, retries and SQL error codes: a statement succeeds, or the run stops.
- Row decoding, the SQL parser and the contents of table definitions beyond id, name and columns.
- LevelDB and the file system: an ordered map and byte sequences; a write is whole or torn at the end.
- Waiting, wake-ups and locks: a step is taken when its condition holds.
- Reopening a value-log file whose last bytes look like a footer although it was not finalized.
- Memory exhaustion when a record length is huge but not negative.
- Replaying whole runs on tables without a primary key in safe mode, beyond a single insert; merging such tables fails.
- Implicit columns of the schema (`hasImplicitCol` is false in the drainer) and crashes on a rename job without table info, which the model treats as an error.
- Choosing tables by name before row events are filtered, and garbage collection of binlog files.
- Kafka, the arbiter, reparo, relay files and node status.
- LoaderSchedule.Scheduler.SingleExec: with causality off promises some order only, because changes that share a key may be reordered.
- LoaderSchedule.Scheduler.ExecByHash: takes each change for a transaction of its own; a failed transaction of several changes takes back those before the failing one.
- LoaderExecutor.Executor.SafeExec: covers statements that succeed; a failed one rolls its transaction back.
- LoaderBatch.BatchManager.ExecAccumulatedDMLs: leaves open which row changes of a failed flush took effect downstream, because the run ends there.
- BinlogDamage.ReopenExact: speaks of one torn record, because a crash tears one.
- PumpProtocol.PullerSafety: speaks of commits above the collection timestamp, because older ones may be gone.

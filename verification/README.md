# LevelDB, nanopb and DTLS handshakes: a verified model

This project models the parts of the repository that hold hard invariants, in Dafny, and proves them.

- **LevelDB** (`ios/Pods/leveldb-library`): the log-structured merge store as a state machine (`Lsm*`), with reads, crashes
  and recovery; the imperative code that runs it (`Store`, `StoreRecovery`, `CompactionPick`, `CompactionLoop`,
  `InputSelection`, `VersionBuilder`, `Lookup`), each method proved to take steps of that machine; its cursors (`Merger`,
  `TwoLevel`, `DbIter`); its skip list and its group commit under concurrency (`SkipShared`, `SkipLists`, `GroupCommit`);
  its files (`LogFormat`, `LogStreams`, `Crc`, `BlockFormat`, `BlockStreams`, `BlockIter`, `Bloom`, `FilterBlock`,
  `TableFormat`, `TableBuilders`, `Tables`, `KeyEncoding`); and its cache (`HandleTables`, `Cache`).
- **nanopb** (`ios/Pods/nanopb`): the two-pass encoder, the decoder, and the round trip between them (`Pb*`).
- **BoringSSL** (`ios/Pods/BoringSSL-GRPC/src/ssl/d1_both.cc`): fragmentation and reassembly of DTLS handshake messages,
  section 4.2.3 of RFC 6347 (`Dtls*`).

In `LsmModel` one value of `Db` is what the mutex protects plus the files on disk, and one `Op` is one atomic step. A
background compaction is three kinds of step, so that writes, switches, flushes and snapshots interleave with it. A crash
leaves any prefix of every log. User keys are real numbers there, since only their order matters; `KeyEncoding` shows that
byte strings embed in them and that encoded keys compare alike. What the program measures (file sizes, seeks, output cuts,
node heights) is a parameter, so that the theorems hold for any choice.

Code that changes state is a class or a method with loops; each is proved against a function of the state before, and what
the program promises is proved about those functions.

## Findings

Seven properties one might expect of the code are false. Each has its exact condition, and an input that shows it.

- **A compaction can bring a deleted key back.** `SetupOtherInputs` runs `AddBoundaryInputs` on the inputs of the level
  compacted only (`db/version_set.cc:1384-1399`), not on those of the level below. When output files were cut between two
  entries of one user key, a compaction can take the file with the newer one, drop the deletion marker above it, and leave
  the older value in the file it did not take. `Resurrection.CompactionCanResurrect` is such a run;
  `LsmReads.InstallKeepsReadsIff` is the exact condition on entries; `LsmReads.GuardIsClean` is a sufficient one on file
  metadata, under which `LsmRuns.GuardedRunsReadHistory` holds of all runs; and `CompactionPick.SetupWithBoundaries`
  establishes it by running `AddBoundaryInputs` on the other inputs as well.
- **A crash can lose a write and keep a later one.** A memtable switch closes the old log without syncing it
  (`db/db_impl.cc:1356-1376`), so a crash may cut it and spare the new one. `LsmReplay.CrashCanTearHistory` is such a run;
  `LsmReplay.PrefixIff` says exactly when the recovered history is a prefix. What is recovered is still exactly the complete
  batches (`LsmRecovery.ReopenedEntries`), and reads of it are right (`LsmReads.ReopenReads`).
- **nanopb encodes strings it does not decode.** A string that fills its buffer has no terminating zero; `pb_enc_string`
  writes all of it (`pb_encode.c:873-897`), and `pb_dec_string` wants room for one byte more (`pb_decode.c:1487-1523`).
  `PbRoundTrip.FullStringIsRefused` is such a message, and `PbRoundTrip.DecodesWhatWasEncodedIff` the exact condition.
- **The receive window of a DTLS handshake has an edge that alerts.** Fragments from the past or too far in the future are
  to be ignored, but the test (`d1_both.cc:379-384`) lets the sequence number `handshake_read_seq` + 7 through, and the one
  after it (`d1_both.cc:266-270`) answers that number alone with an internal-error alert.
  `DtlsReceive.Receiver.ProcessFragment` says which fragments are ignored, absorbed and refused.
- **A block entry may end outside its block.** `DecodeEntry` adds the two lengths of an entry in 32 bits before it compares
  them with the room (`table/block.cc:69`). `BlockFormat.OverlongPasses` is an entry that passes with a key of 4 GB, and
  `BlockFormat.InsideIff` the exact condition; entries of finished blocks meet it, and `BlockIteration.BlockIter.Seek`
  reads outside its block only at an entry that does not.
- **A block may be longer than what was read of it.** `ReadBlock` adds the size in a handle and the size of the trailer in 64
  bits (`table/format.cc:71-80`), reads as many bytes as that comes to, and then looks at the byte after the block.
  `TableFormat.LargestHandleOverreads` is such a handle, `TableFormat.OverreadIff` the exact condition, and stored blocks
  are read whole (`TableFormat.StoredReads`).
- **A number of 64 bits may be taken for another one of 32.** Past the fifth byte, `pb_decode_varint32` lets a byte of no
  bits pass as well as one of a sign, and it has not kept bits 32 to 34 (`pb_decode.c:221-245`). `PbWire.Varint32Misreads`
  has such a number and the exact condition; negative 32-bit numbers are read as sent (`PbWire.Varint32ReadsNegative`).

## Model

| member | source | states |
|---|---|---|
| LsmRuns.EveryRunKeepsShape | ios/Pods/leveldb-library/db/db_impl.cc:697-776 | in every run of writes, memtable switches, flushes, picked compactions (start, one output, install), moves, snapshots, pins, collections and crashes, at every step: each user key's entries get strictly older from memtable to immutable memtable to level 0 (newest file first) to level 1 and on, levels above 0 are sorted and disjoint by internal key, a running compaction can still be installed, manifest and logs rebuild the store, and every file that is still needed is on disk |
| LsmRuns.CleanRunsReadHistory | ios/Pods/leveldb-library/db/db_impl.cc:1110-1146 | in every such run in which no compaction drops a marker that uncovers an older level+1 value, every snapshot that may still be read reads exactly what the committed history says, from the oldest snapshot up |
| LsmRuns.GuardedRunsReadHistory | ios/Pods/leveldb-library/db/version_set.cc:1341-1399 | the same for every run whose compactions leave out no level+1 file that continues the largest key of one they take, which is a comparison of file metadata only |
| LsmRuns.CapturedReads | ios/Pods/leveldb-library/db/db_impl.cc:1110-1146 | a reader that captured the memtables and the version under the mutex and looks them up after any later steps without a crash still finds the version's files on disk, and answers from the history at its snapshot |
| LsmReads.InstallKeepsReadsIff | ios/Pods/leveldb-library/db/db_impl.cc:899-1009 | installing a finished compaction leaves every read at or above its smallest snapshot unchanged if and only if no deletion marker it drops uncovers an older value in a level+1 file outside its inputs |
| LsmReads.GuardIsClean | ios/Pods/leveldb-library/db/version_set.cc:1341-1399 | if no level+1 file left out continues the largest key of an input, no dropped marker uncovers anything |
| DropRules.DropKeepsReadsIff | ios/Pods/leveldb-library/db/db_impl.cc:940-983 | the two drop rules (hidden by a newer entry at or below the smallest snapshot; a marker at or below it with no older entry in deeper levels) keep every read at or above that snapshot exactly when no dropped marker uncovers an older entry beside the inputs |
| LsmReads.CommitReads | ios/Pods/leveldb-library/db/db_impl.cc:1214-1246 | after a commit, every readable snapshot reads the committed history, of which the batch is now the end |
| LsmReads.ReopenReads | ios/Pods/leveldb-library/db/db_impl.cc:323-375 | after a crash that leaves any prefix of every log, every readable snapshot of the reopened store reads what the surviving history says |
| LsmReplay.EveryRunIsReplayable | ios/Pods/leveldb-library/db/db_impl.cc:323-375 | at every step of every run, the manifest names each file once, its numbers are spent, and the logs from LogNumber on hold increasing sequence numbers from log to log, which is what replay relies on |
| LsmRecovery.ReopenedEntries | ios/Pods/leveldb-library/db/db_impl.cc:323-375 | a reopened store holds every table in full and exactly the batches whose records are complete in the logs numbered from LogNumber on |
| LsmReplay.PrefixIff | ios/Pods/leveldb-library/db/db_impl.cc:1356-1376 | what recovery returns to is a prefix of the committed history if and only if the crash cut no log before one of which it spared something |
| LsmReplay.CrashCanTearHistory | ios/Pods/leveldb-library/db/db_impl.cc:1356-1376 | a run of two writes around a memtable switch and a crash after which the second write is there and the first is not |
| LsmRecovery.CollectKeeps | ios/Pods/leveldb-library/db/db_impl.cc:222-287 | RemoveObsoleteFiles deletes no table of a live or pinned version or of a running compaction, and no log that recovery replays |
| Resurrection.CompactionCanResurrect | ios/Pods/leveldb-library/db/version_set.cc:1384-1399 | a run of 18 steps in which a deleted key reads as deleted before a compaction is installed and as its old value after it |
| Resurrection.PickedBySetupOtherInputs | ios/Pods/leveldb-library/db/version_set.cc:1384-1399 | the inputs of that compaction are what GetOverlappingInputs and AddBoundaryInputs select |
| InputSelection.FindFile | ios/Pods/leveldb-library/db/version_set.cc:87-105 | on a sorted disjoint list, the binary search returns the first index whose largest key is not before the key |
| InputSelection.SomeFileOverlapsRange | ios/Pods/leveldb-library/db/version_set.cc:121-156 | true exactly when some file of the list meets the user-key range, for overlapping and for disjoint sorted lists, with either bound open |
| InputSelection.GetOverlappingInputs | ios/Pods/leveldb-library/db/version_set.cc:498-538 | exactly the files that meet the range; at level 0, that meet the least range that contains the given one and every file meeting it; the restarts end |
| InputSelection.AddBoundaryInputs | ios/Pods/leveldb-library/db/version_set.cc:1355-1378 | adds a chain of new files, none twice and none of them an input, after which no file of the level continues the largest user key |
| CompactionPick.SetupOtherInputs | ios/Pods/leveldb-library/db/version_set.cc:1380-1439 | the inputs hold what was picked; those of level+1 are exactly the files that meet the others' user-key range; files left at the level hold only newer entries of an input's keys; files left at level+1 are clear of all inputs; and the inputs leave no gap a flush could fill |
| CompactionPick.PickCompaction | ios/Pods/leveldb-library/db/version_set.cc:1247-1299 | a compaction started from any file of any level but the last takes that file and picks good inputs |
| CompactionPick.SetupWithBoundaries | ios/Pods/leveldb-library/db/version_set.cc:1380-1439 | the same selection followed by AddBoundaryInputs on the level+1 inputs, which the repository leaves out: its inputs are as good, and no level+1 file left out continues one taken |
| StoreFacts.PickLevelForMemTableOutput | ios/Pods/leveldb-library/db/version_set.cc:470-495 | level 0, or a level up to 2 such that neither it nor any level before it holds a file that meets the new one |
| CompactionLoop.MergeAndDrop | ios/Pods/leveldb-library/db/db_impl.cc:899-1009 | the loop over the merged inputs, with its remembered user key and last sequence number, writes to its outputs exactly the entries the drop rules keep, in order, wherever outputs are cut |
| CompactionLoop.Compaction.IsBaseLevelForKey | ios/Pods/leveldb-library/db/version_set.cc:1510-1529 | asked about keys in order, the moving per-level pointers answer as a scan of all deeper levels does |
| VersionBuilder.BatchingIff | ios/Pods/leveldb-library/db/version_set.cc:569-731 | applying edits in one builder gives the same files, once each, as saving after each edit if and only if no base file was deleted, added back and left alive |
| VersionBuilder.ReplayInOneBuilder | ios/Pods/leveldb-library/db/version_set.cc:900-976 | replaying a manifest from the empty version in one builder gives what applying its edits one by one gives |
| VersionBuilder.Builder.SaveTo | ios/Pods/leveldb-library/db/version_set.cc:672-731 | every level is saved in order, and holds the base files and added files that are not deleted, each as often as it was there |
| StoreRecovery.ReplayManifest | ios/Pods/leveldb-library/db/version_set.cc:862-976 | the manifest of a run, replayed, gives sorted lists of exactly the live version's files |
| Lookup.VersionGet | ios/Pods/leveldb-library/db/version_set.cc:324-400 | the first hit, level 0 newest file first and then one file a level, is the newest entry of the version visible at the snapshot, or there is none |
| Lookup.Level0Get | ios/Pods/leveldb-library/db/version_set.cc:281-303 | the level-0 files that span the user key, sorted newest first, give the newest visible entry of the level |
| Store.DBImpl.Write | ios/Pods/leveldb-library/db/db_impl.cc:1195-1268 | numbers the group after the last sequence number, logs it, inserts it and makes it visible: one commit of the machine |
| Store.DBImpl.SwitchMemTable | ios/Pods/leveldb-library/db/db_impl.cc:1356-1376 | a new log and memtable; the full one waits to be flushed: one switch of the machine |
| Store.DBImpl.FlushMemTable | ios/Pods/leveldb-library/db/db_impl.cc:544-575 | the waiting memtable becomes a table at a level that keeps the layers in order, and one manifest record moves LogNumber past its log: one flush of the machine |
| Store.DBImpl.RemoveObsoleteFiles | ios/Pods/leveldb-library/db/db_impl.cc:222-287 | keeps the tables of live versions and pending outputs and the logs from LogNumber on, and deletes the rest |
| Store.DBImpl.DoCompactionWork | ios/Pods/leveldb-library/db/db_impl.cc:887-1041 | merging, dropping, cutting and installing is a run of the machine that ends with the install, whatever writers commit and switch before each output and with a waiting memtable flushed first; and reads stay right if they would in that run |
| Store.DBImpl.BackgroundCompaction | ios/Pods/leveldb-library/db/db_impl.cc:697-776 | flushes the memtable that waits, and otherwise moves a file or compacts what PickCompaction picks, and does nothing only if there is nothing to pick: a run of the machine in every case |
| Store.DBImpl.Get | ios/Pods/leveldb-library/db/db_impl.cc:1110-1146 | memtable, immutable memtable, version: the committed history's answer at the snapshot or at the last sequence number |
| Store.DBImpl.NewInternalIterator | ios/Pods/leveldb-library/db/db_impl.cc:1074-1097 | merging the memtables and all tables yields every entry of the store once, in internal-key order |
| Store.DBImpl.NewIterator | ios/Pods/leveldb-library/db/db_impl.cc:1157-1167 | a cursor over exactly the keys and values of the history at its snapshot, in key order |
| StoreRecovery.RecoverLogs | ios/Pods/leveldb-library/db/db_impl.cc:355-371 | the logs from a number on, oldest first, go through memtables into level-0 tables that together hold exactly the entries logged |
| StoreRecovery.Recover | ios/Pods/leveldb-library/db/db_impl.cc:289-377 | on the files a crash left: the live version, the tables of the logs with new numbers, and the last sequence number in either |
| StoreRecovery.Open | ios/Pods/leveldb-library/db/db_impl.cc:1478-1519 | the store opened on the files a crash left is valid, is the machine's reopened state, and reads the surviving history |
| Merger.MergingIterator.Seek | ios/Pods/leveldb-library/table/merger.cc:47-53 | lands where a cursor over the one sorted union of the children would |
| Merger.MergingIterator.Next | ios/Pods/leveldb-library/table/merger.cc:55-79 | moves as a cursor over the union does, also when it was going backwards: the other children are first put after the current key |
| Merger.MergingIterator.Prev | ios/Pods/leveldb-library/table/merger.cc:81-108 | moves back as a cursor over the union does, also when it was going forwards: the other children are first put before the current key |
| TwoLevel.TwoLevelIterator.Seek | ios/Pods/leveldb-library/table/two_level_iterator.cc:82-87 | lands where a cursor over the concatenated blocks would, empty blocks skipped |
| TwoLevel.TwoLevelIterator.Prev | ios/Pods/leveldb-library/table/two_level_iterator.cc:109-113 | moves back as a cursor over the concatenated blocks does |
| DbIter.DBIter.Seek | ios/Pods/leveldb-library/db/db_iter.cc:278-290 | lands on the first shown user key at or after the target, shown being the newest entry at or below the snapshot of each key, unless it is a deletion |
| DbIter.DBIter.Next | ios/Pods/leveldb-library/db/db_iter.cc:141-175 | moves to the next shown key, after any earlier calls, also when the direction turns |
| DbIter.DBIter.Prev | ios/Pods/leveldb-library/db/db_iter.cc:209-234 | moves to the previous shown key, after any earlier calls, also when the direction turns |
| DbIter.DBIter.FindNextUserEntry | ios/Pods/leveldb-library/db/db_iter.cc:177-207 | stops at the first shown entry from where it is, past the skipped key, and at nothing before it |
| DbIter.DBIter.FindPrevUserEntry | ios/Pods/leveldb-library/db/db_iter.cc:236-276 | saves the last shown entry at or before where it is, if there is one |
| CompactionInput.MakeInputIterator | ios/Pods/leveldb-library/db/version_set.cc:1214-1245 | the runs to merge, one a level-0 file and one concatenated by the two-level iterator for any other level, are sorted, share no entry, and hold exactly the inputs' entries |
| LogFormat.PrefixRoundTrip | ios/Pods/leveldb-library/db/log_reader.cc:56-174 | reading the first n bytes of a log gives exactly the records that end within them, and reports no corruption, for every list of records and every n |
| LogFormat.RoundTrip | ios/Pods/leveldb-library/db/log_reader.cc:56-174 | reading a whole log gives back the records, empty ones included |
| LogStreams.Writer.AddRecord | ios/Pods/leveldb-library/db/log_writer.cc:34-108 | the fragmenting loop appends one record to the log, from any block offset |
| LogStreams.Reader.ReadRecord | ios/Pods/leveldb-library/db/log_reader.cc:56-271 | on any bytes, the buffered reader returns the record, position and reports that reading the file from its position gives |
| LogStreams.ReadBack | ios/Pods/leveldb-library/db/log_reader.cc:56-271 | the buffered reader driven over any prefix of a written log returns the records complete in it |
| Coding.UnmaskInvertsMask | ios/Pods/leveldb-library/util/crc32c.h:29-38 | unmasking undoes masking, and masking unmasking |
| Crc.Extend | ios/Pods/leveldb-library/util/crc32c.cc:276-377 | the alignment loop, the four strides, their combination and the byte loop give the byte-at-a-time checksum, for every length and alignment |
| Crc.ExtendJoins | ios/Pods/leveldb-library/util/crc32c.cc:276-377 | extending by a and then by b is extending by both |
| SkipShared.StepInv | ios/Pods/leveldb-library/db/skiplist.h:337-368 | every pointer store of an insertion and every load of a search keeps each level a sorted sublist of the one below, and every search where it may be |
| SkipShared.EveryRunInv | ios/Pods/leveldb-library/db/skiplist.h:337-368 | so in every run, however one writer and any readers interleave |
| SkipShared.AnswerIsExact | ios/Pods/leveldb-library/db/skiplist.h:260-281 | when a search ends it has the first node at or after its key among those then linked at level 0 |
| SkipShared.LinkedKeysAreFound | ios/Pods/leveldb-library/db/skiplist.h:371-378 | a key linked at level 0 while a search for it is under way is found by it, whatever is inserted meanwhile |
| SkipLists.SkipList.FindGreaterOrEqual | ios/Pods/leveldb-library/db/skiplist.h:260-281 | the first node at or after the key, and on each level the last node before it |
| SkipLists.SkipList.FindLessThan | ios/Pods/leveldb-library/db/skiplist.h:284-302 | the last node before the key, or the head |
| SkipLists.SkipList.Insert | ios/Pods/leveldb-library/db/skiplist.h:337-368 | adds exactly the key, by the stores that readers may see one by one |
| SkipLists.SkipList.Contains | ios/Pods/leveldb-library/db/skiplist.h:371-378 | true exactly for the keys inserted |
| GroupCommit.StepInv | ios/Pods/leveldb-library/db/db_impl.cc:1195-1268 | every step of arriving, leading a group, logging, syncing, inserting, finishing and switching logs keeps log, memtable and queue in agreement |
| GroupCommit.AcknowledgedIsLoggedOnce | ios/Pods/leveldb-library/db/db_impl.cc:1195-1268 | an acknowledged batch is in the log once, at the place its turn in the queue gives it, under the consecutive sequence numbers after all earlier batches; the memtable follows the log |
| GroupCommit.SnapshotSeesWholeBatches | ios/Pods/leveldb-library/db/db_impl.cc:1195-1268 | a reader sees exactly the batches acknowledged when it took its snapshot, each whole, whenever it reads |
| GroupCommit.SyncWritesAreDurable | ios/Pods/leveldb-library/db/db_impl.cc:1195-1268 | no sync write is acknowledged before the record that holds it is synced; records of an earlier log need not be |
| GroupCommit.BuildBatchGroup | ios/Pods/leveldb-library/db/db_impl.cc:1270-1316 | the group is the longest front of the queue that the size limits and the leader's sync flag admit, and holds its updates in order |
| KeyEncoding.EncodingAgrees | ios/Pods/leveldb-library/db/dbformat.cc:47-63 | comparing encoded internal keys is comparing the keys they encode |
| KeyEncoding.RankEmbeds | ios/Pods/leveldb-library/util/comparator.cc:27-29 | the bytewise order is embedded in the order of the ranks that stand for user keys |
| KeyEncoding.FindShortestSeparator | ios/Pods/leveldb-library/util/comparator.cc:31-52 | the start itself, or a string no longer than it and strictly between start and limit |
| KeyEncoding.FindShortSuccessor | ios/Pods/leveldb-library/util/comparator.cc:54-66 | a string no longer than the key and after it, or the key itself, exactly when all its bytes are 0xff |
| KeyEncoding.FindShortestInternalSeparator | ios/Pods/leveldb-library/db/dbformat.cc:65-82 | an internal key in [start, limit) whenever start is before limit |
| KeyEncoding.ParseInvertsEncode | ios/Pods/leveldb-library/db/dbformat.cc:21-24 | parsing an encoded internal key gives back its parts |
| BlockStreams.BlockBuilder.Add | ios/Pods/leveldb-library/table/block_builder.cc:71-105 | the entry joins the block, prefix-compressed unless a restart is due |
| BlockStreams.BlockBuilder.Finish | ios/Pods/leveldb-library/table/block_builder.cc:61-69 | the finished block is the entries, the restart points and their number |
| BlockIteration.BlockIter.Seek | ios/Pods/leveldb-library/table/block.cc:164-202 | on a finished block, binary search and scan land on the first entry at or after the target; on any bytes nothing outside the block is read, unless an entry of it has two lengths that add up to 2^32 or more |
| BlockIteration.BlockIter.Next | ios/Pods/leveldb-library/table/block.cc:138-141 | moves to the next of the entries that were added, with its key and value |
| BlockIteration.BlockIter.Prev | ios/Pods/leveldb-library/table/block.cc:143-162 | moves to the entry before, by restarting and scanning |
| BlockFormat.InsideIff | ios/Pods/leveldb-library/table/block.cc:55-75 | an entry whose header passes the test of DecodeEntry ends within the block exactly when its two lengths add up to less than 2^32 |
| BlockFormat.OverlongPasses | ios/Pods/leveldb-library/table/block.cc:55-75 | seven bytes that pass the test with a key of 4 GB |
| Bloom.CreateFilter | ios/Pods/leveldb-library/util/bloom.cc:28-54 | the bits set are exactly those the keys probe |
| Bloom.FilterAdmits | ios/Pods/leveldb-library/util/bloom.cc:56-80 | a filter admits every key it was made of |
| Bloom.FilterRejects | ios/Pods/leveldb-library/util/bloom.cc:56-80 | it rejects exactly the keys one of whose probes no key of the filter made |
| FilterBlock.FilterBlockBuilder.Finish | ios/Pods/leveldb-library/table/filter_block.cc:35-49 | in the finished block, the filter that a data block's offset leads to admits every key added for that block |
| FilterBlock.FilterBlockReader.KeyMayMatch | ios/Pods/leveldb-library/table/filter_block.cc:90-104 | the reader answers as the filter that the offset leads to, on any bytes whose last is below 64 |
| TableFormat.StoredReads | ios/Pods/leveldb-library/table/format.cc:64-138 | a stored block is read back, its checksum verified or not |
| TableFormat.OverreadIff | ios/Pods/leveldb-library/table/format.cc:64-138 | ReadBlock reads past its buffer exactly when the block size and the trailer add up to 2^64 or more and the few bytes that are left of the sum are there to read |
| TableFormat.LargestHandleOverreads | ios/Pods/leveldb-library/table/format.cc:64-138 | so it does on any file, for the handle of size 2^64 - 5 |
| TableFormat.FooterReads | ios/Pods/leveldb-library/table/format.cc:31-62 | a footer is decoded to the two handles encoded in it |
| TableBuilders.TableBuilder.AddIndexEntry | ios/Pods/leveldb-library/table/table_builder.cc:102-109 | the index key of a finished block is not before its last key and before the next block's first |
| TableBuilders.TableBuilder.Add | ios/Pods/leveldb-library/table/table_builder.cc:94-123 | the entries so far are in the blocks, indexed, covered by filters, or in the open block |
| TableBuilders.TableBuilder.Finish | ios/Pods/leveldb-library/table/table_builder.cc:198-253 | the file is a table of exactly the entries added: blocks, index keys between them, filters, metaindex and footer where the reader looks |
| Tables.Table.InternalGet | ios/Pods/leveldb-library/table/table.cc:214-242 | reports the first entry at or after the key whenever the table has an entry at or after it with its user key, with a filter or without; and what it reports is that entry |
| Tables.Open | ios/Pods/leveldb-library/table/table.cc:38-80 | opens every table that was built, and the table then holds its blocks, index and filter as searches need them |
| Tables.BuildAndGet | ios/Pods/leveldb-library/table/table.cc:214-242 | built from increasing keys, opened and searched: nothing is lost |
| Tables.NoneInBlock | ios/Pods/leveldb-library/table/table.cc:214-242 | if no entry of the block the index leads to answers, none of the table does |
| HandleTables.HandleTable.Insert | ios/Pods/leveldb-library/util/cache.cc:79-93 | the item takes the place of the one with its key and hash, which is returned, or is added; the table then holds exactly that |
| HandleTables.HandleTable.Remove | ios/Pods/leveldb-library/util/cache.cc:95-103 | the item with the key and hash is gone, and no other |
| HandleTables.HandleTable.Resize | ios/Pods/leveldb-library/util/cache.cc:123-147 | spreading the chains over more buckets keeps every item, in the bucket of its hash |
| Cache.ReferencedInv | ios/Pods/leveldb-library/util/cache.cc:218-224 | taking a handle keeps the cache's invariant: the LRU list is exactly the cached entries with one reference and the in-use list those with more, references are counted, charges add up to the usage, the hash table holds exactly the cached entries, and every handle made is live or was deleted once |
| Cache.ReleasedInv | ios/Pods/leveldb-library/util/cache.cc:226-238 | so does giving one back; the last reference runs the deleter |
| Cache.ErasedInv | ios/Pods/leveldb-library/util/cache.cc:308-317 | so does taking an entry out of the cache |
| Cache.LRUCache.Lookup | ios/Pods/leveldb-library/util/cache.cc:253-260 | a handle of the cached entry with the key, or none if there is none |
| Cache.LRUCache.Release | ios/Pods/leveldb-library/util/cache.cc:262-265 | the handle is given back: one step of the model above |
| Cache.LRUCache.Insert | ios/Pods/leveldb-library/util/cache.cc:267-305 | the new entry replaces one with its key, is held by its client, and afterwards the usage is within the capacity or no unreferenced entry is left |
| Cache.LRUCache.Evict | ios/Pods/leveldb-library/util/cache.cc:294-303 | evicts from the oldest on, only while over the capacity, and leaves every other handle alone |
| Cache.LRUCache.Erase | ios/Pods/leveldb-library/util/cache.cc:319-322 | no entry with the key is left, every other handle is as it was, and the deleter runs only if no client holds it |
| DtlsBitmap.MarkRange | ios/Pods/BoringSSL-GRPC/src/ssl/d1_both.cc:210-239 | sets exactly the bits of [start, end), whatever bytes they lie in |
| DtlsBitmap.AllMarked | ios/Pods/BoringSSL-GRPC/src/ssl/d1_both.cc:241-249 | the message is complete exactly when every bit below its length is set |
| DtlsWire.RecordRoundTrip | ios/Pods/BoringSSL-GRPC/src/ssl/d1_both.cc:454-468 | a record made of fragments parses into exactly those fragments |
| DtlsReceive.Receiver.ProcessFragment | ios/Pods/BoringSSL-GRPC/src/ssl/d1_both.cc:352-402 | a fragment is absorbed exactly when it is in bounds, in the window and agrees with what is held of its message, and adds exactly its bytes; at read_seq + 7 it is refused, further ahead and behind ignored |
| DtlsReceive.Receiver.OpenHandshake | ios/Pods/BoringSSL-GRPC/src/ssl/d1_both.cc:296-405 | takes the fragments of the record in order up to the first that is malformed or not acceptable, and succeeds exactly when there is none; acceptable means in bounds, and either out of the window or agreeing with the header first seen of its message; what is held grows by exactly the bytes taken |
| DtlsReceive.Receiver.GetMessage | ios/Pods/BoringSSL-GRPC/src/ssl/d1_both.cc:407-423 | there is a message exactly when all its bytes have arrived, and it is the one that was sent |
| DtlsReceive.Receiver.NextMessage | ios/Pods/BoringSSL-GRPC/src/ssl/d1_both.cc:425-437 | frees the slot and moves the window, and keeps what is held of later messages |
| DtlsSend.Sender.SealNextMessage | ios/Pods/BoringSSL-GRPC/src/ssl/d1_both.cc:630-720 | the record returned is the encoding of the next fragment, from where the last ended and as long as fits; it is within the limit; and there is none exactly when the limit is too small for a header, a byte and the sealing |
| DtlsSend.Sender.SealNextPacket | ios/Pods/BoringSSL-GRPC/src/ssl/d1_both.cc:725-766 | the packet returned is within its limit, and the fragments parsed from its records are exactly those the flight has moved on by; it fails only if the next fragment cannot fit an empty one |
| DtlsSend.Sender.SendFlight | ios/Pods/BoringSSL-GRPC/src/ssl/d1_both.cc:768-811 | when the flight is sent, the fragments parsed from all packets the transport took tile every message of it; every packet is within the MTU; an MTU too small for a fragment is the only failure |
| DtlsDelivery.TilesArrive | ios/Pods/BoringSSL-GRPC/src/ssl/d1_both.cc:630-765 | fragments that tile a message, among any others of its peer, in any order and number, make it arrive |
| DtlsDelivery.Deliver | ios/Pods/BoringSSL-GRPC/src/ssl/d1_both.cc:296-437 | over any sequence of records of a peer that are in range and well formed, none is refused, and the messages taken are exactly those, in order, up to the first of which some byte has not arrived |
| DtlsExchange.Exchange | ios/Pods/BoringSSL-GRPC/src/ssl/d1_both.cc:296-811 | what a sender reports as sent, the network having carried every packet in any order and number, a receiver takes in full: the messages of a flight of up to seven, none longer than it allows, in order |
| PbWire.Varint32ReadsIff | ios/Pods/nanopb/pb_decode.c:187-247 | of every number of 64 bits: one of 32 bits is read back, one that seems negative is read as its lowest 32 bits, every other one is refused |
| PbWire.Varint32ReadsNegative | ios/Pods/nanopb/pb_decode.c:187-247 | a negative number of 32 bits sent as one of 64 is read as its 32-bit word |
| PbWire.Varint32Misreads | ios/Pods/nanopb/pb_decode.c:187-247 | a longer number is taken for one that was not sent exactly when it seems negative and is below 2^64 - 2^31, as 2^63 + 2^31 is |
| PbWire.ZigZagInverts | ios/Pods/nanopb/pb_decode.c:1285-1297 | reading a zigzag number undoes writing it, for every 64-bit number |
| PbWire.SignedSurvives | ios/Pods/nanopb/pb_decode.c:1345-1380 | a number sign-extended to 64 bits is taken back into a field of its width |
| PbEncoder.OStream.EncodeSubmessage | ios/Pods/nanopb/pb_encode.c:717-764 | the second pass writes exactly the bytes the first counted, so that "submsg size changed" is never reported; it succeeds exactly if the message is encodable and fits |
| PbEncoder.OStream.EncodeArray | ios/Pods/nanopb/pb_encode.c:147-236 | writes a packed or tagged array, the counted length being that of the bytes written; refuses exactly a count over the maximum, an item that cannot be encoded, or a full stream |
| PbEncoder.OStream.Encode | ios/Pods/nanopb/pb_encode.c:528-550 | a sizing stream counts exactly the bytes that a writing one is given, for every message |
| PbEncoder.DefaultsIff | ios/Pods/nanopb/pb_encode.c:289-308 | a submessage counts as default exactly when it is encoded as no bytes, so exactly when nothing in it, at any depth, is present |
| PbEncoder.DefaultIff | ios/Pods/nanopb/pb_encode.c:240-337 | a proto3 field counts as default exactly when nothing of it would be missed: a submessage that writes nothing, an array of no fixed bytes, or any other value that is read as the initial one |
| PbEncoder.OStream.CheckDefault | ios/Pods/nanopb/pb_encode.c:240-337 | decides that by the field's rule and content, calling itself on the fields of a submessage |
| PbDecoder.FieldIter.Find | ios/Pods/nanopb/pb_common.c:87-104 | the search round the fields from wherever the iterator is finds the field with the tag if there is one, with the number of required fields before it |
| PbDecoder.IStream.DecodeStaticField | ios/Pods/nanopb/pb_decode.c:406-483 | on any bytes, a value, packed array or array item is read into its place, or refused |
| PbDecoder.IStream.DecodeNoinit | ios/Pods/nanopb/pb_decode.c:934-1082 | on any bytes, the loop over the stream, with its field search, substreams, fixed-count state and bitmap of required fields, gives what DecodeMessage says |
| PbDecoder.IStream.RequiredSeen | ios/Pods/nanopb/pb_decode.c:1045-1078 | the test by words and a masked remainder holds exactly when every counted required field was seen |
| PbRoundTrip.DecodesWhatWasEncodedIff | ios/Pods/nanopb/pb_decode.c:934-1082 | decoding what was encoded, into any struct, succeeds if and only if every encoded string ends within its buffer and every length takes 32 bits, and then gives the same message: the same fields present with the same values, through submessages, packed and tagged arrays, fixed-count arrays, proto3 fields and oneofs |
| PbRoundTrip.FullStringIsRefused | ios/Pods/nanopb/pb_decode.c:1487-1523 | a string that fills its buffer without a terminating zero is encoded, and what was encoded is refused |
| PbTransfer.Transfer | ios/Pods/nanopb/pb_encode.c:528-550 | encoder and decoder joined: sent exactly if encodable and within the buffer, and read back under the condition above |

## Left out

- Manual `CompactRange`: its inputs above level 0 may leave a gap that a flush falls into during the compaction.
- Compaction scores, seek statistics, read sampling, file sizes and grandparent overlap: which level, which file and where
  an output is cut are arbitrary parameters.
- Reuse of logs and manifests, `RepairDB`, `DestroyDB`, `GetProperty`, `ApproximateOffsetOf` and the C API.
- I/O errors and the background error: every file operation succeeds, except that a crash cuts logs. A manifest record that
  was written is there after a crash.
- Store.DBImpl.DoCompactionWork: the mutex is given up between output files, not between entries, which reads the same as
  the merge looks at its inputs only; snapshots and readers during a compaction are steps of the machine in `LsmModel`. An
  output's file number is taken when the output is finished.
- Store.DBImpl.Write: the caller stays below the largest sequence number; the program does not check it either.
- The bytes of write batches, version edits and memtable entries: a log record is a batch, a manifest record an edit, and a
  table file carries its entries; `LogFormat` and `TableFormat` give the bytes of logs and tables.
- `std::sort` is an insertion sort, and pointers into arrays are indices.
- SkipShared: pointer stores and loads are sequentially consistent.
- DbIter.DBIter: the inner cursor runs over the merged sequence of entries; `Merger` and `IteratorStack` show that the
  merging iterator is such a cursor.
- LogStreams.Reader: reading starts at the beginning of the file, without an initial offset to skip to.
- Crc.Extend: the path through hardware instructions; the byte and stride tables are any that are linear and satisfy the
  equations of a 16-byte advance.
- BlockIteration.BlockIter: what a read outside the block finds; the iterator notes it and claims nothing from there on.
- FilterBlock.FilterBlockReader.KeyMayMatch: a base byte of 64 or more, for which the program shifts a 64-bit number by more
  bits than it has; here the shift gives 0. The builder writes 11.
- Tables: tables of less than 4 GB, identity compression, one filter policy, and no block cache between `BlockReader` and
  the file.
- HandleTables.HandleTable: the bucket of a hash is its remainder by the number of buckets, which the program takes with a
  mask as that number is a power of two.
- Cache.LRUCache: one shard; the destructor, which wants all handles returned, is not part of this model.
- DTLS: a sealed record is its payload and its length, which is at least the payload's and at most the maximum overhead
  more; encryption, alerts, timers and with them retransmission, and ChangeCipherSpec on receipt are abstract.
- nanopb callbacks, extensions and pointer fields, and the placement of fields in the struct: a struct is a slot for each
  field, and a decoder that fails leaves its destination unspecified. Array items have no value until they are decoded, so
  the zero that `pb_field_set_to_default` writes over the start of a fixed-count array does not appear.
- PbDecoder.IStream.DecodeVarint32: `uint_fast8_t` has eight bits, as it has on the platforms of the repository.
- PbRoundTrip.DecodesWhatWasEncodedIff: the encoded message is smaller than half of the 64-bit address space, as anything
  in memory is.

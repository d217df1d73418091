# A model of LevelDB 1.18 and nanopb 0.3.8

The repository is an iOS app; what it computes with is vendored: LevelDB 1.18, a log-structured
storage engine, and nanopb 0.3.8, a protobuf encoder and decoder driven by descriptors. This
project models both and proves what their callers rely on. `dafny verify dfyconfig.toml` checks
everything.

One module models one source file or one protocol. Code that changes fields or arrays is a class
or a method with loops, proved against functions on values; the theorems are lemmas about those
functions, and say what they mean without them. Reading order:

- **Order and reads.** `ByteStrings`, `InternalKeys`, `Reads`: user keys with sequence numbers and
  types, and what a read at a snapshot is: the newest visible entry of a set, a deletion counting as
  absent. `Rank` embeds byte strings into the reals so that comparing ranks is comparing strings;
  its definition is a base-257 fraction and nothing depends on more than the embedding.
- **Levels.** `Files`, `Lookup`, `Flush`, `Overlap`, `CompactionInputs`, `Compaction`,
  `CompactionEffect`, `SplitKeys`: levels of files, lookups, the flush of a memtable, and
  compactions from the choice of inputs to the installed version.
- **Iterators.** `Cursors`, `DbIter`, `Merging`, `TwoLevel`, `Block`: each iterator refines a cursor,
  a position in a sequence, for any mix of seeks and steps in both directions.
- **Concurrency.** `GroupCommit` (the writer queue), `SkipListReaders` (readers without a lock
  beside one writer) and `SafeFiles` (deletion of table files) are state machines over atomic
  steps; their theorems speak of every run.
- **Formats.** `Coding`, `Crc32c`, `Log`, `LogReader`, `LogFragments`, `WriteBatch`, `Recovery`,
  `RecoveredReads`, `DamagedLogs`, `BlockBuilder`, `Separators`, `Bloom`, `FilterBlock`, `Format`,
  `Table`, `BuildTable`, `TableFile`, `VersionEdit`, `Builder`, `Manifest`, `ManifestNumbers`:
  writers and readers, each pair with its round trip, and for the two logs what a reader makes of
  every byte prefix a crash may leave, and of any bytes.
- **Cache.** `HandleTable`, `LruCache`, `CacheLookups`. Pointers are values and the link fields are
  maps from pointers, so sharing and update in place are visible.
- **nanopb.** `Nanopb`, `NanopbEncode`, `NanopbRequired`, `NanopbDecode`, `NanopbRoundTrip`,
  `NanopbWire`, `NanopbBounds`: a message is a value per descriptor field; the streams count and
  limit bytes as the C code does.

Lemmas carry `{:induction false}`: every proof by induction is written out.

Where a promise does not hold of the code, the model keeps the code:

- A compaction may drop a deletion and let an older value reappear, when a neighbouring file on the
  input level holds another version of the same user key. `CompactionEffect.CompactionKeepsReadsIff`
  (on entries alone `Compaction.PreservesIff`) gives the exact condition, for any inputs;
  `SplitKeys.SplitUserKeyResurrects` is an ordered database and an allowed choice of inputs for which
  it fails, and `Compaction.ClosedInputsPreserve` a sufficient condition on the inputs alone.
- A compaction may leave a level with older data above newer: `CompactionEffect.CompactionKeepsOrderIff`
  and, for a file moved as it is, `CompactionInputs.MoveKeepsOrderIff` have conditions on the inputs.
  In `SplitKeys.MoveHidesNewer` a file is moved down past an older version of its key. The union of
  all entries is the same and so is every read of it, but a lookup goes level by level and answers
  with the stale value.
- A write with `sync` does not make the writes before it safe when the log was switched in between:
  the older log is closed as it is. `GroupCommit.EarlierCommitsSafeIff` is the condition,
  `GroupCommit.SwitchLosesCommit` a run in which it fails.
- Under paranoid checks recovery is to stop at damage (include/leveldb/options.h:51-56), but the
  status of a log is overwritten by that of the next: `Recovery.OnlyLastReportsIff`, and
  `Recovery.DamageIsForgotten` for a commit that is lost without an error.
- Replaying a manifest all at once differs from applying its edits one at a time when an added file
  clashes with one that the builder still holds: `Builder.AgreesThroughoutIff` is the condition, to be
  checked before each addition, `Builder.DeletedFileReturns` an instance. That instance needs a
  manifest this code never writes: file numbers come from a counter and files only move down, so no
  number comes back to a level (`Manifest.NumbersNeverReturn`), and `Builder.ReplayIsFold` applies.
- The decoder's test for missing required fields is wrong for some numbers of them:
  `NanopbRequired.TestIsRightIff`, and `NanopbRequired.ThirtyTwoNeverPass` for 32. Descriptors with
  such a number are not well formed in the model.
- `VersionEdit::Clear` leaves compaction pointers in place (db/version_edit.cc:26-39), so decoding
  into a used edit gives the edit back exactly when it held none: `VersionEdit.UsedRoundTripIff`.

`VersionSet::Recover` calls `MarkFileNumberUsed` (db/version_set.cc:991-992) and then sets the next
file number without regard to it (db/version_set.cc:1002); the model sets it as the code does. In a
manifest this code wrote, log numbers are below the next-file entry (`Manifest.Sound`).

Some branches of the code are shown never to be taken: the forward step after a direction switch at
the end (db/db_iter.cc:159-163), the step over an equal key when the merging iterator turns forward
(table/merger.cc:72-75), and the check for a changed size of a submessage (pb_encode.c:644-645).


## Model

| member | source | states |
|---|---|---|
| `ByteStrings.CompareBytes` | Recover Now/Pods/leveldb-library/include/leveldb/slice.h:96-107 | three-way comparison of byte strings agrees with an order embedding into the reals, so it is a total order in which a prefix comes first |
| `InternalKeys.Compare` | Recover Now/Pods/leveldb-library/db/dbformat.cc:50-66 | user key up, then sequence number and type down; zero exactly for equal keys |
| `DbIter.ViewMatchesReads` | Recover Now/Pods/leveldb-library/db/db_iter.cc:173-203 | the user-visible sequence at a sequence number holds exactly the keys whose newest visible entry is a value, each with the value a lookup finds |
| `DbIter.ViewAscends` | Recover Now/Pods/leveldb-library/db/db_iter.cc:173-203 | in that sequence each user key occurs once, in order |
| `DbIter.DbIter.Next` | Recover Now/Pods/leveldb-library/db/db_iter.cc:146-171 | moves a cursor over the user-visible sequence one on, also right after moving backwards |
| `DbIter.DbIter.Prev` | Recover Now/Pods/leveldb-library/db/db_iter.cc:205-230 | moves that cursor one back, also right after moving forwards |
| `DbIter.DbIter.Seek` | Recover Now/Pods/leveldb-library/db/db_iter.cc:274-286 | puts the cursor on the first user-visible key at or after the target |
| `DbIter.DbIter.SeekToFirst` | Recover Now/Pods/leveldb-library/db/db_iter.cc:288-297 | puts the cursor on the first user-visible key |
| `DbIter.DbIter.SeekToLast` | Recover Now/Pods/leveldb-library/db/db_iter.cc:299-304 | puts the cursor on the last user-visible key |
| `DbIter.DbIter.FindNextUserEntry` | Recover Now/Pods/leveldb-library/db/db_iter.cc:173-203 | skipping hidden, deleted and too new entries stops at the next user-visible key and at none further |
| `DbIter.DbIter.FindPrevUserEntry` | Recover Now/Pods/leveldb-library/db/db_iter.cc:232-272 | sweeping back stops with the user-visible key before the position saved, whatever deletions and overwritten entries lie between |
| `Merging.MergeExists` | Recover Now/Pods/leveldb-library/table/merger.cc:186-195 | sorted children with distinct keys have a sorted union, the sequence the iterator is measured against |
| `Merging.MergingIterator.FindSmallest` | Recover Now/Pods/leveldb-library/table/merger.cc:155-168 | the current child is the one with the least key, if any child is valid |
| `Merging.MergingIterator.FindLargest` | Recover Now/Pods/leveldb-library/table/merger.cc:170-183 | the current child is the one with the greatest key, if any child is valid |
| `Merging.MergingIterator.Next` | Recover Now/Pods/leveldb-library/table/merger.cc:59-83 | moves a cursor over the sorted union one on, in either direction of the iterator |
| `Merging.MergingIterator.Prev` | Recover Now/Pods/leveldb-library/table/merger.cc:85-112 | moves that cursor one back, in either direction of the iterator |
| `Merging.MergingIterator.Seek` | Recover Now/Pods/leveldb-library/table/merger.cc:51-57 | puts the cursor on the first entry of the union at or after the target |
| `Merging.MergingIterator.SeekToFirst` | Recover Now/Pods/leveldb-library/table/merger.cc:35-41 | puts the cursor on the first entry of the union |
| `Merging.MergingIterator.SeekToLast` | Recover Now/Pods/leveldb-library/table/merger.cc:43-49 | puts the cursor on the last entry of the union |
| `Merging.MergingIterator.SeekOthers` | Recover Now/Pods/leveldb-library/table/merger.cc:67-79 | turning forward leaves every other child just after the current key |
| `Merging.MergingIterator.StepOthersBack` | Recover Now/Pods/leveldb-library/table/merger.cc:93-107 | turning back leaves every other child just before the current key |
| `TwoLevel.SeekThroughIndex` | Recover Now/Pods/leveldb-library/table/two_level_iterator.cc:91-96 | seeking the index and then the block it names is seeking the concatenation of the blocks |
| `TwoLevel.TwoLevelIterator.Seek` | Recover Now/Pods/leveldb-library/table/two_level_iterator.cc:91-96 | puts a cursor over the concatenated blocks on the first entry at or after the target |
| `TwoLevel.TwoLevelIterator.SeekToFirst` | Recover Now/Pods/leveldb-library/table/two_level_iterator.cc:98-103 | puts the cursor on the first entry, however many blocks before it are empty |
| `TwoLevel.TwoLevelIterator.SeekToLast` | Recover Now/Pods/leveldb-library/table/two_level_iterator.cc:105-110 | puts the cursor on the last entry, however many blocks after it are empty |
| `TwoLevel.TwoLevelIterator.Next` | Recover Now/Pods/leveldb-library/table/two_level_iterator.cc:112-116 | moves the cursor one on, across empty blocks |
| `TwoLevel.TwoLevelIterator.Prev` | Recover Now/Pods/leveldb-library/table/two_level_iterator.cc:118-122 | moves the cursor one back, across empty blocks |
| `TwoLevel.TwoLevelIterator.SkipEmptyDataBlocksForward` | Recover Now/Pods/leveldb-library/table/two_level_iterator.cc:125-136 | ends on the entry at a given place of the concatenation when the block in hand is used up before it |
| `TwoLevel.TwoLevelIterator.SkipEmptyDataBlocksBackward` | Recover Now/Pods/leveldb-library/table/two_level_iterator.cc:138-149 | ends on the last entry before a given place of the concatenation |
| `Lookup.ProbeAnswers` | Recover Now/Pods/leveldb-library/db/memtable.cc:108-143 | the first entry at or after the seek key, if it is of the user key, is the newest visible one |
| `Lookup.FindFile` | Recover Now/Pods/leveldb-library/db/version_set.cc:77-96 | binary search finds the first file whose largest key is at or after the key |
| `Lookup.OneFileAnswers` | Recover Now/Pods/leveldb-library/db/version_set.cc:368-380 | on a sorted level only the file found by binary search can hold the newest visible entry of the user key |
| `Lookup.GetLevel0` | Recover Now/Pods/leveldb-library/db/version_set.cc:347-363 | newest file first, the first hit on level 0 is the newest visible entry of all its files |
| `Lookup.GetSortedLevel` | Recover Now/Pods/leveldb-library/db/version_set.cc:364-380 | the newest visible entry of a deeper level, or the proof that it has none |
| `Lookup.GetFromVersion` | Recover Now/Pods/leveldb-library/db/version_set.cc:323-420 | in any version the answer is the newest visible entry of the first level that has one, and a miss if none has |
| `Lookup.FirstAnswerStands` | Recover Now/Pods/leveldb-library/db/version_set.cc:323-420 | with levels in order that answer is the one for the whole version |
| `Lookup.Get` | Recover Now/Pods/leveldb-library/db/db_impl.cc:1077-1122 | memtable, immutable memtable, version, first hit wins: the result is the read of the union of all entries, a deletion counting as absent |
| `Flush.SomeFileOverlapsRange` | Recover Now/Pods/leveldb-library/db/version_set.cc:112-147 | true exactly when a file of the level meets the range of user keys, by scan on level 0 and by binary search below |
| `Flush.PickLevelForMemTableOutput` | Recover Now/Pods/leveldb-library/db/version_set.cc:493-519 | the deepest level allowed: level 0 if a file there meets the range, and otherwise down to level 2 as long as no file of the next level meets the range and those of the level after that have at most 20 MB; no level passed has a file that meets the range |
| `Flush.FlushedLevelsShaped` | Recover Now/Pods/leveldb-library/db/version_set.cc:493-519 | with the new file on that level every level below the first is still sorted and disjoint |
| `Flush.FlushedLevelsOrdered` | Recover Now/Pods/leveldb-library/db/version_set.cc:493-519 | shallower data is still newer for each user key |
| `Flush.SwitchMemTable` | Recover Now/Pods/leveldb-library/db/db_impl.cc:1322-1344 | a full memtable becoming the immutable one changes no read and keeps the database in order |
| `Flush.CompactMemTable` | Recover Now/Pods/leveldb-library/db/db_impl.cc:503-534 | writing the immutable memtable as a table keeps the database in order and changes no read at any snapshot |
| `Overlap.GetOverlappingInputs` | Recover Now/Pods/leveldb-library/db/version_set.cc:522-563 | the restarting search ends; on level 0 its result is the least set of files that holds all files meeting the range and is closed under overlap, elsewhere exactly the files meeting the range |
| `Overlap.OverlapsIff` | Recover Now/Pods/leveldb-library/db/version_set.cc:98-110 | a file overlaps a range of user keys exactly if it neither ends before it nor begins after it, a missing end being unbounded |
| `Overlap.GrownCatchesOnlyNeeded` | Recover Now/Pods/leveldb-library/db/version_set.cc:543-560 | a file met by the grown range is in every overlap-closed set of files that covers the original range |
| `CompactionInputs.GetRange` | Recover Now/Pods/leveldb-library/db/version_set.cc:1176-1196 | the least and greatest key of a set of files |
| `CompactionInputs.SetupOtherInputs` | Recover Now/Pods/leveldb-library/db/version_set.cc:1297-1362 | lower inputs are all files of their level meeting the user-key range of the upper ones; the upper inputs grow to all files meeting the range of both if these are more, below 50 MB together with the lower ones, and meet no new lower file, below level 0 always if so; they stay closed on level 0 |
| `CompactionInputs.InstalledShaped` | Recover Now/Pods/leveldb-library/db/version_set.cc:1297-1362 | after inputs are replaced by outputs every level below the first is still sorted and disjoint |
| `CompactionInputs.InstalledMember` | Recover Now/Pods/leveldb-library/db/version_set.cc:1426-1432 | each file of the new version was there before and is no input, or is an output one level down |
| `CompactionInputs.InstalledOrderedIff` | Recover Now/Pods/leveldb-library/db/version_set.cc:1297-1362 | shallower data stays newer exactly when the files left on the upper level hold nothing older, for a user key, than what moved past them |
| `CompactionInputs.InstalledOrderedBorder` | Recover Now/Pods/leveldb-library/db/version_set.cc:1297-1362 | below level 0 it does exactly when no file that stays on the upper level goes on with the last user key of an input that takes an entry of that key down |
| `CompactionInputs.MoveKeepsOrderIff` | Recover Now/Pods/leveldb-library/db/db_impl.cc:686-694 | a single file may be moved down exactly when no other file of its level goes on with its last user key |
| `CompactionInputs.Level0KeepsOrder` | Recover Now/Pods/leveldb-library/db/version_set.cc:1274-1290 | out of level 0, where inputs are closed under overlap, the order is always kept |
| `Compaction.CompactionRun.IsBaseLevelForKey` | Recover Now/Pods/leveldb-library/db/version_set.cc:1434-1453 | for user keys in order the forward-only pointers give the answer of a full scan of the deeper levels |
| `Compaction.CompactionRun.DropRule` | Recover Now/Pods/leveldb-library/db/db_impl.cc:911-947 | an entry is dropped exactly when a newer one for its user key is at or below the oldest snapshot, or when it is an obsolete deletion |
| `Compaction.CompactionRun.DoCompactionWork` | Recover Now/Pods/leveldb-library/db/db_impl.cc:879-983 | the output files, in order and wherever they are cut, hold exactly the entries not dropped |
| `Compaction.KeptExactly` | Recover Now/Pods/leveldb-library/db/db_impl.cc:911-947 | an entry is kept if and only if no newer one of its user key is at or below the oldest snapshot, and it is a value, or newer than that snapshot, or its key is in the range of a file two levels down or deeper |
| `Compaction.PreservesIff` | Recover Now/Pods/leveldb-library/db/db_impl.cc:922-944 | no read at the oldest snapshot or later changes if and only if no deletion dropped as obsolete is newer than the newest other entry of its key outside the inputs and that entry is a value |
| `Compaction.ClosedInputsPreserve` | Recover Now/Pods/leveldb-library/db/db_impl.cc:922-944 | inputs that take in all versions of their user keys on both levels meet that condition |
| `SplitKeys.SplitInputs` | Recover Now/Pods/leveldb-library/db/version_set.cc:1297-1362 | two files of a level that share a user key at their border: the first alone is an allowed choice, it is not moved as it is, and it is not expanded |
| `SplitKeys.SplitUserKeyResurrects` | Recover Now/Pods/leveldb-library/db/db_impl.cc:922-944 | in an ordered database, compacting that choice at any oldest snapshot from the deletion on and with any cuts: the key read as deleted before and has its old value after |
| `SplitKeys.MoveHidesNewer` | Recover Now/Pods/leveldb-library/db/db_impl.cc:686-694 | moving the first of two such files down loses no entry, breaks the order of levels, and makes a lookup answer with the older value |
| `CompactionEffect.OutputsDisjoint` | Recover Now/Pods/leveldb-library/db/db_impl.cc:950-972 | cutting the kept entries anywhere gives files in order and apart |
| `CompactionEffect.CompactionKeepsOrder` | Recover Now/Pods/leveldb-library/db/db_impl.cc:834-853 | the database after installing a compaction with closed inputs is in order |
| `CompactionEffect.CompactionKeepsOrderIff` | Recover Now/Pods/leveldb-library/db/db_impl.cc:834-976 | for any inputs, drop rules, cuts and install together: the database stays in order if and only if they are of level 0 or no file that stays goes on with a user key of which an upper entry is kept |
| `CompactionEffect.CompactionKeepsReadsIff` | Recover Now/Pods/leveldb-library/db/db_impl.cc:834-976 | for any inputs selection may hand over, merge, drop rules, cut and install together: no read at the oldest snapshot or later changes in the whole database if and only if no dropped deletion uncovers a value left in place |
| `CompactionEffect.CompactionKeepsReads` | Recover Now/Pods/leveldb-library/db/db_impl.cc:834-976 | with closed inputs none does, and the database stays in order |
| `GroupCommit.BuildBatchGroup` | Recover Now/Pods/leveldb-library/db/db_impl.cc:1237-1282 | the group is the longest prefix of the queue within the size limit, 1 MB or 128 KB more than a first batch of at most that size, that does not add a sync write to an unsynced group; its updates are those of its writers in order |
| `GroupCommit.StepKeepsInv` | Recover Now/Pods/leveldb-library/db/db_impl.cc:1162-1344 | every step, also a switch of memtable and log and the end of a flush, keeps logs, memtables, tables, sequence numbers and outcomes in agreement |
| `GroupCommit.RunKeepsInv` | Recover Now/Pods/leveldb-library/db/db_impl.cc:1162-1233 | so does every run |
| `GroupCommit.FirstInFirstOut` | Recover Now/Pods/leveldb-library/db/db_impl.cc:1162-1233 | writers return in the order they queued up, each once |
| `GroupCommit.BatchPlaced` | Recover Now/Pods/leveldb-library/db/db_impl.cc:1189-1208 | a successful batch is in the committed sequence once, whole, in order, under consecutive sequence numbers |
| `GroupCommit.CommittedIncreases` | Recover Now/Pods/leveldb-library/db/db_impl.cc:1189-1208 | no sequence number is used twice |
| `GroupCommit.CommittedContiguous` | Recover Now/Pods/leveldb-library/db/db_impl.cc:1189-1208 | without failures sequence numbers have no gap |
| `GroupCommit.SyncedWritesAreLogged` | Recover Now/Pods/leveldb-library/db/db_impl.cc:1190-1212 | in every run a sync writer that was told of success has its batch, and all committed since its log began, in the synced part of that log for as long as the log is needed, and then in tables |
| `GroupCommit.EarlierCommitsSafeIff` | Recover Now/Pods/leveldb-library/db/db_impl.cc:1322-1344 | all committed before such a batch is sure to survive a crash if and only if the log before was synced to its end or its memtable has been written out, or the batch is in an earlier log itself |
| `GroupCommit.SwitchLosesCommit` | Recover Now/Pods/leveldb-library/db/db_impl.cc:1322-1344 | a run: a put without sync, a switch of logs, a put with sync; the second is told of success and the first is not safe |
| `GroupCommit.SnapshotsSplitNothing` | Recover Now/Pods/leveldb-library/db/db_impl.cc:1143-1146 | in every run a snapshot taken so far sees all of a batch or nothing of it, also one taken while a leader is at work |
| `GroupCommit.SnapshotViewFixed` | Recover Now/Pods/leveldb-library/db/db_impl.cc:1143-1146 | no later step changes what a snapshot sees; a switch or a flush only moves it |
| `GroupCommit.LogCoversMemTable` | Recover Now/Pods/leveldb-library/db/db_impl.cc:1194-1208 | each memtable is in its log, version for version, and with the tables before them the memtables hold what was committed |
| `SkipList.SkipList.FindGreaterOrEqual` | Recover Now/Pods/leveldb-library/db/skiplist.h:261-281 | the first node at or after the key, and on every level the last node before it |
| `SkipList.SkipList.FindLessThan` | Recover Now/Pods/leveldb-library/db/skiplist.h:283-302 | the last node before the key |
| `SkipList.SkipList.FindLast` | Recover Now/Pods/leveldb-library/db/skiplist.h:304-322 | the last node |
| `SkipList.SkipList.Insert` | Recover Now/Pods/leveldb-library/db/skiplist.h:336-370 | the key is on as many levels as its height, every level stays sorted and a sublist of the one below, nothing else changes |
| `SkipListReaders.StepKeepsInv` | Recover Now/Pods/leveldb-library/db/skiplist.h:347-369 | with readers between any two stores of an insertion: every level stays a sorted sublist of the one below, and every search stays on a linked node before its target |
| `SkipListReaders.SearchNeverWaits` | Recover Now/Pods/leveldb-library/db/skiplist.h:261-281 | a search that has begun can always make its next load |
| `SkipListReaders.SearchIsExact` | Recover Now/Pods/leveldb-library/db/skiplist.h:261-281 | the load that ends a search finds the least key at or after the target among those linked at that moment |
| `SkipListReaders.SearchTerminates` | Recover Now/Pods/leveldb-library/db/skiplist.h:261-281 | loads of a search are bounded by the levels and keys before it at its start plus one for each key inserted meanwhile |
| `SkipListReaders.SearchSeesEarlierKeys` | Recover Now/Pods/leveldb-library/db/skiplist.h:261-281 | no key present when a search began is missed, and only a key present at its end is returned |
| `SkipListReaders.RunFromEmpty` | Recover Now/Pods/leveldb-library/db/skiplist.h:336-370 | in every run from the empty list the list holds exactly the keys inserted so far, each once, and readers and writer keep their invariant |
| `Coding.FixedRoundTrip` | Recover Now/Pods/leveldb-library/util/coding.cc:9-33 | fixed-width numbers come back |
| `Coding.VarintRoundTrip` | Recover Now/Pods/leveldb-library/util/coding.cc:81-158 | a varint followed by anything is read back, with the rest untouched |
| `Coding.VarintCutShort` | Recover Now/Pods/leveldb-library/util/coding.cc:112-129 | no proper prefix of a varint is read as a number |
| `Coding.EncodeVarint32` | Recover Now/Pods/leveldb-library/util/coding.cc:47-73 | the unrolled 32-bit encoder writes the same bytes as the loop |
| `Coding.EncodeVarint64` | Recover Now/Pods/leveldb-library/util/coding.cc:81-90 | the loop writes the varint of the number |
| `Coding.GetVarintPtr` | Recover Now/Pods/leveldb-library/util/coding.cc:112-158 | the shifting reader, whose word loses high bits, gives the number read modulo the word |
| `Coding.Varint32RoundTrip` | Recover Now/Pods/leveldb-library/util/coding.cc:131-141 | every 32-bit number comes back |
| `Coding.Varint64RoundTrip` | Recover Now/Pods/leveldb-library/util/coding.cc:160-170 | every 64-bit number comes back |
| `Coding.LengthPrefixedRoundTrip` | Recover Now/Pods/leveldb-library/util/coding.cc:98-101 | a string with its length in front comes back, with the rest untouched |
| `Crc32c.Extend` | Recover Now/Pods/leveldb-library/util/crc32c.cc:286-329 | for every buffer, length and start alignment the sliced, table-driven loop gives the bit-by-bit CRC32C of section 12.1 of RFC 3720 |
| `Crc32c.ExtendsInParts` | Recover Now/Pods/leveldb-library/db/log_writer.cc:18-21 | a checksum taken in two parts is the checksum of the whole |
| `Crc32c.WordStep` | Recover Now/Pods/leveldb-library/util/crc32c.cc:293-302 | one step over a word is four steps over its bytes |
| `Crc32c.TableStep` | Recover Now/Pods/leveldb-library/util/crc32c.cc:289-292 | one step over a byte through the table is eight bit steps |
| `Crc32c.TableEntries` | Recover Now/Pods/leveldb-library/util/crc32c.cc:16-281 | at 1, 2, 4 and 8 the four tables in the source hold what the polynomial gives |
| `Crc32c.MoreTableEntries` | Recover Now/Pods/leveldb-library/util/crc32c.cc:16-281 | and at 16, 32, 64 and 128 |
| `Crc32c.UnmaskMask` | Recover Now/Pods/leveldb-library/util/crc32c.h:31-40 | masking is undone by unmasking, and the other way round |
| `Crc32c.OwnStampMatches` | Recover Now/Pods/leveldb-library/db/log_writer.cc:85-88 | the checksum written in front of data is accepted for that data |
| `Crc32c.StampMatchesIff` | Recover Now/Pods/leveldb-library/util/crc32c.h:31-40 | the checksum stored for some data is accepted for other data exactly if the two have the same checksum |
| `Log.Writer.AddRecord` | Recover Now/Pods/leveldb-library/db/log_writer.cc:27-73 | the file grows by exactly the fragments of the record, for any record and any position in the block |
| `Log.Writer.EmitPhysicalRecord` | Recover Now/Pods/leveldb-library/db/log_writer.cc:75-100 | a fragment is checksum, length, type, data, and stays within its block |
| `LogReader.Reader.ReadPhysicalRecord` | Recover Now/Pods/leveldb-library/db/log_reader.cc:181-263 | for any file the buffered reader returns the fragment at its position, and reports the drops, that a reading of the plain file gives |
| `LogReader.Reader.ReadRecord` | Recover Now/Pods/leveldb-library/db/log_reader.cc:59-164 | for any file, the record, position and reports of a reading of the plain file |
| `LogReader.ReadsRecord` | Recover Now/Pods/leveldb-library/db/log_reader.cc:74-163 | the fragments a writer appended join up to the record if they are all there, and otherwise give nothing and no report |
| `LogReader.ReadsPrefix` | Recover Now/Pods/leveldb-library/db/log_reader.cc:59-164 | from the place where records were appended, a reader returns exactly those wholly in the file |
| `LogReader.TruncatedLog` | Recover Now/Pods/leveldb-library/db/log_reader.cc:59-164 | for every list of records and every byte prefix of the file: exactly the records wholly in the prefix, and no report |
| `LogFragments.ReadsWhatStands` | Recover Now/Pods/leveldb-library/db/log_reader.cc:59-164 | whatever the bytes of the file, a record returned is made of one whole fragment, or a first, middle ones and a last, each within one block, each with its checksum accepted, one right behind the other, up to where the reader then stands |
| `LogFragments.AllReadStand` | Recover Now/Pods/leveldb-library/db/log_reader.cc:59-164 | and so for all the records read from a file |
| `LogFragments.ReportsDamage` | Recover Now/Pods/leveldb-library/db/log_reader.cc:198-255 | a length beyond the block or a checksum not accepted is reported, with all that is left of the block, and then what was collected of a record |
| `WriteBatch.WriteBatch.Put` | Recover Now/Pods/leveldb-library/db/write_batch.cc:98-103 | the batch holds the same updates and one more, and its count says so |
| `WriteBatch.WriteBatch.Delete` | Recover Now/Pods/leveldb-library/db/write_batch.cc:105-109 | likewise for a deletion |
| `WriteBatch.WriteBatch.Append` | Recover Now/Pods/leveldb-library/db/write_batch.cc:141-145 | the batch holds its updates followed by those of the other |
| `WriteBatch.OpsRoundTrip` | Recover Now/Pods/leveldb-library/db/write_batch.cc:42-80 | parsing the updates written gives back the updates |
| `WriteBatch.Iterate` | Recover Now/Pods/leveldb-library/db/write_batch.cc:42-80 | for any bytes, the calls made before the first damage, and whether there was any |
| `WriteBatch.IterateFinds` | Recover Now/Pods/leveldb-library/db/write_batch.cc:42-80 | over a batch that was built, exactly its updates in order, and success |
| `WriteBatch.IterateStops` | Recover Now/Pods/leveldb-library/db/write_batch.cc:42-80 | updates in front of an unknown type byte are visited before it ends the iteration with an error; without one it is an error if the count in the header is not theirs |
| `Recovery.RecoverLogFile` | Recover Now/Pods/leveldb-library/db/db_impl.cc:404-449 | for any file, with and without paranoid checks, the entries, largest sequence number and status of a replay of the plain file |
| `Recovery.RecoversPrefix` | Recover Now/Pods/leveldb-library/db/db_impl.cc:404-449 | after any crash replay of a log has the effect of the commits wholly in it, a prefix of the commits of that log |
| `Recovery.RecoverLogs` | Recover Now/Pods/leveldb-library/db/db_impl.cc:341-350 | every log from the recorded one on, in order, the status being that of the last |
| `Recovery.LogsRecover` | Recover Now/Pods/leveldb-library/db/db_impl.cc:341-350 | any number of logs, each cut short anywhere: replay has the effect of the commits wholly in one of them, log after log |
| `Recovery.OnlyLastReportsIff` | Recover Now/Pods/leveldb-library/db/db_impl.cc:341-350 | recovery reports damage if and only if the last log is damaged |
| `Recovery.DamageIsForgotten` | Recover Now/Pods/leveldb-library/db/db_impl.cc:341-350 | under paranoid checks a damaged log before an empty one: recovery of the first alone fails, of both it succeeds without the commit in front of the damage |
| `RecoveredReads.AppliedRebuilds` | Recover Now/Pods/leveldb-library/db/write_batch.cc:117-124 | applying batches adds one entry for every update, in order: with its user key and the batch's sequence number plus its place in the batch, a value for a put and a deletion mark for a delete |
| `RecoveredReads.RebuiltReads` | Recover Now/Pods/leveldb-library/db/write_batch.cc:117-124 | for batches numbered one behind the other, a read of these entries at any sequence number finds the last update of the user key up to it: the value it put, or nothing if it was a deletion or there is none |
| `RecoveredReads.LogBringsBack` | Recover Now/Pods/leveldb-library/db/db_impl.cc:404-449 | of a log cut short anywhere recovery brings back, in this sense, exactly the batches wholly in it, and goes on behind their last sequence number |
| `RecoveredReads.LogsBringBack` | Recover Now/Pods/leveldb-library/db/db_impl.cc:341-350 | of any number of logs, each cut short anywhere, the batches wholly in one of them, log after log |
| `DamagedLogs.ParanoidIff` | Recover Now/Pods/leveldb-library/db/db_impl.cc:404-449 | whatever the bytes of the log, recovery under paranoid checks succeeds exactly if the reader reports nothing and every record is a batch with as many updates as its count says |
| `DamagedLogs.TolerantRebuilds` | Recover Now/Pods/leveldb-library/db/db_impl.cc:404-449 | without them it always succeeds and brings back, update for update, what the records returned hold up to the first damage in each |
| `BlockBuilder.BlockBuilder.Add` | Recover Now/Pods/leveldb-library/table/block_builder.cc:73-107 | the block holds the same entries and one more, in full at every restart point and otherwise without the prefix shared with the key before |
| `BlockBuilder.SharedIsLongest` | Recover Now/Pods/leveldb-library/table/block_builder.cc:79-86 | a key is stored in full at a restart point, and otherwise without the longest beginning it shares with the key before |
| `BlockBuilder.BlockBuilder.Finish` | Recover Now/Pods/leveldb-library/table/block_builder.cc:63-71 | the finished block is the entries, the restart array and its length |
| `BlockBuilder.EntryAt` | Recover Now/Pods/leveldb-library/table/block_builder.cc:93-102 | each entry stands at its offset, followed by the later ones |
| `Block.EntryDecodes` | Recover Now/Pods/leveldb-library/table/block.cc:53-74 | each entry of a finished block decodes at its offset to its lengths, key delta and value |
| `Block.LengthsRoundTrip` | Recover Now/Pods/leveldb-library/table/block.cc:53-74 | the fast path for three one-byte lengths and the slow path agree with what was written |
| `Block.Iter.ParseNextKey` | Recover Now/Pods/leveldb-library/table/block.cc:226-253 | the key rebuilt from the key before is the entry's key, and the end of the entries is noticed |
| `Block.Iter.Next` | Recover Now/Pods/leveldb-library/table/block.cc:139-142 | moves a cursor over the entries that were added one on |
| `Block.Iter.Prev` | Recover Now/Pods/leveldb-library/table/block.cc:144-163 | moves that cursor one back, although keys decode only forwards |
| `Block.Iter.Seek` | Recover Now/Pods/leveldb-library/table/block.cc:165-203 | binary search among restart points and a scan end on the first key at or after the target |
| `Block.Iter.SeekToFirst` | Recover Now/Pods/leveldb-library/table/block.cc:205-208 | puts the cursor on the first entry |
| `Block.Iter.SeekToLast` | Recover Now/Pods/leveldb-library/table/block.cc:210-215 | puts the cursor on the last entry |
| `Block.OpensBuilt` | Recover Now/Pods/leveldb-library/table/block.cc:26-38 | the restart array of a finished block is found again from its end |
| `Block.NewIterator` | Recover Now/Pods/leveldb-library/table/block.cc:256-266 | an iterator over a finished block starts before the entries that were added |
| `Separators.FindShortestSeparator` | Recover Now/Pods/leveldb-library/util/comparator.cc:29-51 | the loop computes the separator |
| `Separators.SeparatorSeparates` | Recover Now/Pods/leveldb-library/util/comparator.cc:29-51 | the separator is start itself or lies strictly between start and limit |
| `Separators.SeparatorShortens` | Recover Now/Pods/leveldb-library/util/comparator.cc:29-51 | behind the common part it is cut to one byte, raised by one, exactly when that is below the byte of the limit |
| `Separators.SeparatorOfPrefix` | Recover Now/Pods/leveldb-library/util/comparator.cc:29-51 | it is the start if one of the two is the beginning of the other |
| `Separators.FindShortSuccessor` | Recover Now/Pods/leveldb-library/util/comparator.cc:53-66 | the loop computes the successor |
| `Separators.SuccessorFollows` | Recover Now/Pods/leveldb-library/util/comparator.cc:53-66 | the successor is the key itself or comes after it |
| `Separators.SuccessorShortens` | Recover Now/Pods/leveldb-library/util/comparator.cc:53-66 | it ends with the first byte that can be raised, and is the key if there is none |
| `Separators.InternalSeparatorSeparates` | Recover Now/Pods/leveldb-library/db/dbformat.cc:68-85 | for start before limit the shortened internal key is at or after start and before limit, and its user key, if changed, lies strictly between theirs |
| `Separators.FindInternalSeparator` | Recover Now/Pods/leveldb-library/db/dbformat.cc:68-85 | the internal key form, with the user key shortened only if it gets shorter |
| `Separators.InternalSeparatorShortens` | Recover Now/Pods/leveldb-library/db/dbformat.cc:68-85 | the shortened user key is taken, with the greatest sequence number, exactly if it is physically shorter and comes after the start |
| `Bloom.CreateFilter` | Recover Now/Pods/leveldb-library/util/bloom.cc:35-61 | the bits set are exactly the probes of the keys, behind the earlier filters |
| `Bloom.KeyMayMatch` | Recover Now/Pods/leveldb-library/util/bloom.cc:63-87 | false exactly when some probe bit is clear, with the reserved encodings counted as matches |
| `Bloom.NoFalseNegatives` | Recover Now/Pods/leveldb-library/util/bloom.cc:35-87 | no key a filter was made from is denied |
| `Bloom.MatchesIff` | Recover Now/Pods/leveldb-library/util/bloom.cc:63-88 | a filter denies a key exactly if one of its probes is none of those of the keys the filter was made from |
| `FilterBlock.FilterBlockBuilder.StartBlock` | Recover Now/Pods/leveldb-library/table/filter_block.cc:22-28 | there is a filter for every range of offsets before the block's |
| `FilterBlock.FilterBlockBuilder.GenerateFilter` | Recover Now/Pods/leveldb-library/table/filter_block.cc:52-76 | the pending keys go into one filter, and earlier filters stay |
| `FilterBlock.FilterBlockBuilder.Finish` | Recover Now/Pods/leveldb-library/table/filter_block.cc:36-50 | filters, their offsets, the place of the offsets and the base |
| `FilterBlock.KeyMayMatch` | Recover Now/Pods/leveldb-library/table/filter_block.cc:95-109 | the filter of the block's range of offsets decides, and anything out of range matches |
| `FilterBlock.NeverDenies` | Recover Now/Pods/leveldb-library/table/filter_block.cc:95-109 | a key added while its block started at an offset is never denied for that offset |
| `FilterBlock.MatchesIff` | Recover Now/Pods/leveldb-library/table/filter_block.cc:95-111 | a built filter block denies every key where none was added, and otherwise those that the filter for the keys added denies; it denies none behind its last filter |
| `Format.EncodedOrder` | Recover Now/Pods/leveldb-library/db/dbformat.cc:50-66 | comparing encoded internal keys is comparing internal keys |
| `Format.BlockOfEntries` | Recover Now/Pods/leveldb-library/db/dbformat.cc:50-66 | a seek by encoded key in a block of entries lands where a seek by internal key does |
| `Format.HandleRoundTrip` | Recover Now/Pods/leveldb-library/table/format.cc:15-30 | block handles come back |
| `Format.FooterRoundTrip` | Recover Now/Pods/leveldb-library/table/format.cc:32-64 | the footer of a table comes back |
| `Format.FooterNeedsMagic` | Recover Now/Pods/leveldb-library/table/format.cc:44-64 | nothing is a footer that does not end with the eight bytes of the magic number |
| `Table.TableBuilder.Add` | Recover Now/Pods/leveldb-library/table/table_builder.cc:92-121 | the table holds the same entries and one more; a block ended before is indexed by a key that separates it from this entry |
| `Table.TableBuilder.Flush` | Recover Now/Pods/leveldb-library/table/table_builder.cc:123-137 | the block in hand is written under its handle and its index entry is pending |
| `Table.TableBuilder.Finish` | Recover Now/Pods/leveldb-library/table/table_builder.cc:199-254 | the finished table lays out exactly the entries added in blocks that the index separates and the filter covers |
| `Table.FinishedTable` | Recover Now/Pods/leveldb-library/table/table_builder.cc:92-137 | in a finished table the index is sorted and separates the blocks |
| `Table.TableIterates` | Recover Now/Pods/leveldb-library/table/table.cc:220-224 | the blocks in index order are the entries added, so the two-level iterator walks exactly them |
| `Table.InternalGet` | Recover Now/Pods/leveldb-library/table/table.cc:226-255 | through shortened index keys and a filter that may veto, the caller is told what the first entry at or after the key would tell it, for any key |
| `Table.DenialIsRight` | Recover Now/Pods/leveldb-library/table/table.cc:237-242 | a veto of the filter is right |
| `Table.Get` | Recover Now/Pods/leveldb-library/table/table.cc:226-255 | a table lookup finds the newest entry of the user key visible at the snapshot, and is the probe the version lookup uses |
| `BuildTable.Build` | Recover Now/Pods/leveldb-library/db/builder.cc:17-88 | the entries of a memtable become a table of exactly these entries, with their key range and a filter over user keys; no entries give no file |
| `BuildTable.GetFromFile` | Recover Now/Pods/leveldb-library/table/table.cc:226-255 | a lookup in such a file is the probe that lookups in a version are made of |
| `TableFile.BlockReturns` | Recover Now/Pods/leveldb-library/table/format.cc:66-145 | a block written with its type and checksum is read back, whatever stands before and after it |
| `TableFile.ReadsIff` | Recover Now/Pods/leveldb-library/table/format.cc:66-145 | contents are read exactly if they and their trailer are in the file, the type is that of uncompressed blocks and, where that is checked, the checksum is accepted |
| `TableFile.Finish` | Recover Now/Pods/leveldb-library/table/table_builder.cc:199-254 | behind the data blocks: the filter block, a metaindex that names it, the index block with the encoded index entries, and a footer that points at both |
| `TableFile.Open` | Recover Now/Pods/leveldb-library/table/table.cc:38-141 | for any bytes: the index block, or an error for a short file, a bad footer or an unreadable index block; the filter block named by the metaindex, problems counting as no filter |
| `TableFile.OpensWritten` | Recover Now/Pods/leveldb-library/table/table.cc:38-141 | a file that was written opens with its index block, and with its filter block for the policy it was written with and no other |
| `TableFile.IndexSought` | Recover Now/Pods/leveldb-library/table/table.cc:226-242 | seeking that index block is seeking the index the table was built with, and data blocks are where they were |
| `HandleTable.HandleTable.FindPointer` | Recover Now/Pods/leveldb-library/util/cache.cc:98-105 | the slot that leads to the entry of the key and hash, or to the end of its bucket |
| `HandleTable.HandleTable.Lookup` | Recover Now/Pods/leveldb-library/util/cache.cc:58-60 | the entry of the key, if there is one |
| `HandleTable.HandleTable.Insert` | Recover Now/Pods/leveldb-library/util/cache.cc:62-76 | the entry is in, the one for the same key is out and returned, all others stay, also over a resize |
| `HandleTable.HandleTable.Remove` | Recover Now/Pods/leveldb-library/util/cache.cc:78-85 | the entry of the key is out and returned, all others stay |
| `HandleTable.HandleTable.Resize` | Recover Now/Pods/leveldb-library/util/cache.cc:107-131 | relinking every entry into more buckets keeps the contents |
| `HandleTable.TablePushed` | Recover Now/Pods/leveldb-library/util/cache.cc:118-127 | pushing one entry onto its new bucket keeps the new table well formed and adds just that entry |
| `LruCache.LRUCache.Insert` | Recover Now/Pods/leveldb-library/util/cache.cc:225-256 | table, list, references and charges go together from one state to the next: the new entry newest and held once, the entry listed for the key taken out, and then the shortest run of oldest entries evicted that brings the charges within the capacity |
| `LruCache.LRUCache.Lookup` | Recover Now/Pods/leveldb-library/util/cache.cc:209-218 | if an entry is listed for the key it gets a handle and becomes the newest, all others staying in their order; otherwise nothing is found and nothing changes |
| `LruCache.LRUCache.Release` | Recover Now/Pods/leveldb-library/util/cache.cc:220-223 | one handle fewer; the entry is deleted exactly if that was its last and it is not listed |
| `LruCache.LRUCache.Erase` | Recover Now/Pods/leveldb-library/util/cache.cc:258-265 | neither list nor table has an entry for the key any more, all others stay in their order, and no handle changes; the entry that was listed is deleted at once if no caller holds it and stays live otherwise; with none listed nothing changes |
| `LruCache.LRUCache.Unref` | Recover Now/Pods/leveldb-library/util/cache.cc:186-194 | with the last reference the charge is taken off and the deleter runs |
| `LruCache.LRUCache.LRU_Remove` | Recover Now/Pods/leveldb-library/util/cache.cc:196-199 | the list without the entry, linked both ways |
| `LruCache.LRUCache.LRU_Append` | Recover Now/Pods/leveldb-library/util/cache.cc:201-207 | the list with the entry at its newest end, linked both ways |
| `LruCache.RunOk` | Recover Now/Pods/leveldb-library/util/cache.cc:186-265 | over all sequences of operations: entries inserted are the live and the deleted ones, a deleter runs at most once, never for an entry listed or held, and always for one that is neither |
| `LruCache.InsertBounds` | Recover Now/Pods/leveldb-library/util/cache.cc:248-253 | after an insertion the charges of all live entries are within the capacity or the list is empty |
| `LruCache.EvictsShortestRun` | Recover Now/Pods/leveldb-library/util/cache.cc:248-253 | eviction takes the shortest run of oldest entries that suffices, and frees those of them not held |
| `LruCache.ListedByLastUse` | Recover Now/Pods/leveldb-library/util/cache.cc:209-256 | over all sequences of operations the list is ordered by the last insertion or hit |
| `CacheLookups.FindsLast` | Recover Now/Pods/leveldb-library/util/cache.cc:209-265 | over all sequences of operations the only entry that can be listed for a key is the one last inserted for it and not erased since, so after an erase a lookup finds nothing |
| `CacheLookups.FindsAllWithRoom` | Recover Now/Pods/leveldb-library/util/cache.cc:209-265 | if the charges of all insertions are within the capacity, it is listed |
| `VersionEdit.VersionEdit.EncodeTo` | Recover Now/Pods/leveldb-library/db/version_edit.cc:41-86 | the record is the fields of the edit, one after another |
| `VersionEdit.VersionEdit.DecodeFrom` | Recover Now/Pods/leveldb-library/db/version_edit.cc:109-210 | for any bytes, the edit read up to the first damage and whether there was any; compaction pointers held before stay |
| `VersionEdit.VersionEdit.Clear` | Recover Now/Pods/leveldb-library/db/version_edit.cc:26-39 | everything but the compaction pointers is reset |
| `VersionEdit.RoundTrip` | Recover Now/Pods/leveldb-library/db/version_edit.cc:41-210 | decoding an encoded edit gives back the edit |
| `VersionEdit.DecodeStops` | Recover Now/Pods/leveldb-library/db/version_edit.cc:109-210 | fields in front of a tag that is none of theirs are read, and then decoding fails |
| `VersionEdit.UsedRoundTripIff` | Recover Now/Pods/leveldb-library/db/version_edit.cc:26-39 | decoding an encoded edit into one used before gives it back if and only if that one held no compaction pointers |
| `VersionEdit.DecodeInRange` | Recover Now/Pods/leveldb-library/db/version_edit.cc:98-107 | no level out of range gets through decoding |
| `Builder.Builder.Apply` | Recover Now/Pods/leveldb-library/db/version_set.cc:656-699 | deleted numbers and added files of every level, deletions of an edit before its additions |
| `Builder.Builder.SaveTo` | Recover Now/Pods/leveldb-library/db/version_set.cc:702-748 | each level is the merge of base and added files without the deleted numbers |
| `Builder.ReplayIsFold` | Recover Now/Pods/leveldb-library/db/version_set.cc:656-748 | if no number comes back to a level, the files saved for a whole run of edits are, in order and each once, what applying the edits one by one leaves |
| `Builder.ReplayIsEach` | Recover Now/Pods/leveldb-library/db/version_set.cc:656-748 | and they are the very list that a new version for every edit ends with |
| `Builder.AgreesThroughoutIff` | Recover Now/Pods/leveldb-library/db/version_set.cc:656-748 | for any base and any run of single deletions and additions: what would be saved is the fold after every prefix if and only if no addition clashes with a file held, by order or by a number deleted before |
| `Builder.StepAgrees` | Recover Now/Pods/leveldb-library/db/version_set.cc:673-698 | one deletion or addition keeps the agreement if and only if it does not clash |
| `Builder.EditsAreEvents` | Recover Now/Pods/leveldb-library/db/version_set.cc:656-699 | a run of edits is the run of its single deletions and additions |
| `Builder.InsertIsAddFile` | Recover Now/Pods/leveldb-library/db/version_set.cc:598-611 | on a level of files with known contents the builder's ordered set takes a new file in at the same place |
| `Builder.DeletedFileReturns` | Recover Now/Pods/leveldb-library/db/version_set.cc:696-697 | a number added, deleted and added again brings back the first file, which a version for every edit does not |
| `Manifest.VersionSet.LogAndApply` | Recover Now/Pods/leveldb-library/db/version_set.cc:811-894 | the edit is completed and logged, after a snapshot if the manifest is new, and carried out if and only if creating and syncing the manifest succeed: then its own log numbers, where it gives them, and its files are in place, and otherwise the old ones; as long as no write to an old manifest has failed, the manifest leads to what is installed |
| `Manifest.EditCarriesOut` | Recover Now/Pods/leveldb-library/db/version_set.cc:811-894 | the completed edit has the log numbers of the edit where it gives them and those of the version set where not, the counters, and everything else of the edit; if it succeeds these log numbers are in place, and on each level, in order, the files there were but those deleted, and those added |
| `Manifest.PointedHas` | Recover Now/Pods/leveldb-library/db/version_set.cc:656-662 | each level has the last compaction pointer the edit gives for it, or the one it had |
| `Manifest.VersionSet.NewFileNumber` | Recover Now/Pods/leveldb-library/db/version_set.h:191 | a number handed out is on no file so far |
| `Manifest.NumbersNeverReturn` | Recover Now/Pods/leveldb-library/db/db_impl.cc:686-693 | with numbers from the counter and files that only move down, no number comes back to a level it has been on |
| `Manifest.StaysTracked` | Recover Now/Pods/leveldb-library/db/db_impl.cc:834-853 | and every such edit keeps it so: a file has been on no level below its own |
| `Manifest.VersionSet.WriteSnapshot` | Recover Now/Pods/leveldb-library/db/version_set.cc:1054-1082 | the record from which the current files and pointers are rebuilt |
| `Manifest.VersionSet.Recover` | Recover Now/Pods/leveldb-library/db/version_set.cc:896-1009 | for any manifest, what a replay of the plain file gives, and failure for a damaged record, a foreign comparator or a missing number; from a sound state a version set to go on with |
| `ManifestNumbers.RecoversIff` | Recover Now/Pods/leveldb-library/db/version_set.cc:896-1009 | a manifest of edits is recovered from if and only if none names another comparator and a log number, a next file number and a last sequence number are given somewhere; what counts is the last of each |
| `Manifest.SnapshotRebuilds` | Recover Now/Pods/leveldb-library/db/version_set.cc:1054-1082 | a snapshot replayed from nothing gives the version and pointers it was taken of |
| `Manifest.NextGives` | Recover Now/Pods/leveldb-library/db/version_set.cc:811-894 | one more edit in the manifest is one more version, in order and with distinct numbers |
| `Manifest.VersionSet.RecoversInstalled` | Recover Now/Pods/leveldb-library/db/version_set.cc:896-1009 | recovery brings back the installed version, pointers and log numbers, and a next file number above every file and log number in use |
| `Manifest.RecoversPrefix` | Recover Now/Pods/leveldb-library/db/version_set.cc:896-1009 | after any crash recovery finds, file for file, the version installed after the last edit wholly in the manifest |
| `Manifest.VersionSet.CrashRecovers` | Recover Now/Pods/leveldb-library/db/version_set.cc:896-1009 | whatever number of bytes of a manifest a crash leaves, from its first edit on, recovery brings back the state installed with the last edit wholly there |
| `Manifest.VersionSet.Reopen` | Recover Now/Pods/leveldb-library/db/version_set.cc:896-1009 | open, log, crash and open again: a version set that keeps the same invariant, its counter beyond every file it names |
| `SafeFiles.StepKeepsInv` | Recover Now/Pods/leveldb-library/db/db_impl.cc:218-272 | every step of readers, flushes, compactions, manifest writes, failures and crashes keeps references counted and needed files in place |
| `SafeFiles.RunSafe` | Recover Now/Pods/leveldb-library/db/version_set.cc:794-809 | in every run the versions in the list are those referenced, and each has all its tables |
| `SafeFiles.NeverDeletesLive` | Recover Now/Pods/leveldb-library/db/db_impl.cc:218-272 | no step deletes a table that is pending, named by a referenced version, or within reach of recovery |
| `SafeFiles.RecoveryFindsFiles` | Recover Now/Pods/leveldb-library/db/db_impl.cc:218-223 | whatever part of the manifest write in progress a crash leaves, recovery finds every table it names |
| `SafeFiles.InstallMatches` | Recover Now/Pods/leveldb-library/db/version_set.cc:794-809 | making a version current moves one reference from the old to the new and takes the old one out of the list with its last |
| `SafeFiles.CollectKeepsFiles` | Recover Now/Pods/leveldb-library/db/version_set.cc:1137-1148 | pending outputs and the tables of the versions in the list are enough to keep |
| `SafeFiles.CollectsObsolete` | Recover Now/Pods/leveldb-library/db/db_impl.cc:218-272 | in every run, after a step that deletes obsolete files the tables left are exactly those before it that are pending or named by a version in the list; with an error set none is deleted |
| `SafeFiles.QuietDiskIsCurrent` | Recover Now/Pods/leveldb-library/db/db_impl.cc:218-272 | if after such a step nobody reads and no work is in progress, just the tables of the current version are left |
| `SafeFiles.FlushInstalls` | Recover Now/Pods/leveldb-library/db/db_impl.cc:519-533 | a flush whose manifest write succeeds adds its table to the files of the current version, and the other versions stay as they are |
| `SafeFiles.CompactionInstalls` | Recover Now/Pods/leveldb-library/db/db_impl.cc:834-853 | a compaction whose manifest write succeeds takes its inputs from the files of the current version and adds its outputs |
| `SafeFiles.MoveKeepsTables` | Recover Now/Pods/leveldb-library/db/db_impl.cc:686-693 | in every run a move leaves the set of tables as it was |
| `SafeFiles.LoggedInv` | Recover Now/Pods/leveldb-library/db/db_impl.cc:519-533 | a table no longer pending survives until its manifest write ends, installed or left open by an error |
| `NanopbEncode.OStream.EncodeVarint` | Recover Now/Pods/nanopb/pb_encode.c:494-514 | a varint on a stream that writes or one that only counts |
| `NanopbEncode.EncodeScalar` | Recover Now/Pods/nanopb/pb_encode.c:652-763 | integers of any size, zigzag, fixed, bytes, strings, or an error when too long |
| `NanopbEncode.EncodePacked` | Recover Now/Pods/nanopb/pb_encode.c:133-170 | packed arrays with the length in front, sized first unless items are of fixed size |
| `NanopbEncode.EncodeBasicField` | Recover Now/Pods/nanopb/pb_encode.c:271-349 | optional, required, repeated and union fields, absent and zero ones left out |
| `NanopbEncode.EncodeSubmessage` | Recover Now/Pods/nanopb/pb_encode.c:600-648 | the sizing pass and the writing pass agree, so the length in front is exact and the check for a changed size cannot fail |
| `NanopbEncode.EncodeMessage` | Recover Now/Pods/nanopb/pb_encode.c:451-473 | for any stream, sizing or writing, with or without room: the bytes of the message or an error, exactly as a function of descriptor and message says |
| `NanopbEncode.GetEncodedSize` | Recover Now/Pods/nanopb/pb_encode.c:480-489 | the size is the number of bytes writing would emit |
| `NanopbEncode.EncodeToBuffer` | Recover Now/Pods/nanopb/pb_encode.c:451-473 | the bytes of the message if the buffer has room for them, and an error if not |
| `NanopbWire.SlotWrites` | Recover Now/Pods/nanopb/pb_encode.c:133-349 | a field is encoded as no record if it is not there, or is zero without a has-flag, as one packed record if it is an array of a packable kind with items, and otherwise as a record for every value |
| `NanopbWire.MessageWrites` | Recover Now/Pods/nanopb/pb_encode.c:451-473 | a message is encoded as the records of its fields, field after field |
| `NanopbDecode.IStream.DecodeVarint` | Recover Now/Pods/nanopb/pb_decode.c:173-229 | varints within the stream's limit, at most ten or five bytes |
| `NanopbDecode.IStream.DecodeTag` | Recover Now/Pods/nanopb/pb_decode.c:251-275 | the field number and wire type, with the end of the stream told apart from an error |
| `NanopbDecode.IStream.SkipFieldData` | Recover Now/Pods/nanopb/pb_decode.c:277-287 | an unknown field is passed over by its wire type |
| `NanopbDecode.MakeSubstream` | Recover Now/Pods/nanopb/pb_decode.c:322-335 | a stream limited to the string that follows |
| `NanopbDecode.CloseSubstream` | Recover Now/Pods/nanopb/pb_decode.c:337-350 | the outer stream goes on right behind the string |
| `NanopbDecode.DecodePackedField` | Recover Now/Pods/nanopb/pb_decode.c:368-397 | packed items up to the end of the string, or an error when the array is full or an item is cut short |
| `NanopbDecode.DecodeField` | Recover Now/Pods/nanopb/pb_decode.c:356-429 | one field into its slot, by kind of field and wire type |
| `NanopbDecode.FindFrom` | Recover Now/Pods/nanopb/pb_common.c:78-95 | the circular search finds the field with the tag wherever it starts, if there is one, and the number of required fields before it |
| `NanopbDecode.CountRequired` | Recover Now/Pods/nanopb/pb_decode.c:920-932 | running the iterator on to the end counts the required fields |
| `NanopbRequired.OneSeen` | Recover Now/Pods/nanopb/pb_decode.c:908-913 | setting a bit keeps the two words in step with the set of fields seen |
| `NanopbRequired.Check` | Recover Now/Pods/nanopb/pb_decode.c:934-949 | the loop over whole words and the last shifted word, as a predicate on words and count |
| `NanopbRequired.PassesIfSeen` | Recover Now/Pods/nanopb/pb_decode.c:934-949 | for counts of zero or below 64 and not 32 the test passes exactly if every required field was seen, on any machine |
| `NanopbRequired.NeverPasses` | Recover Now/Pods/nanopb/pb_decode.c:934-949 | for every other count a machine that masks shift counts refuses whatever was seen |
| `NanopbRequired.TestIsRightIff` | Recover Now/Pods/nanopb/pb_decode.c:934-949 | the test is right for a descriptor, on every machine and for every set of fields seen, if and only if its count is one of the first kind |
| `NanopbRequired.ThirtyTwoNeverPass` | Recover Now/Pods/nanopb/pb_decode.c:945-949 | with 32 required fields no message passes on such a machine |
| `NanopbDecode.DecodeNoInit` | Recover Now/Pods/nanopb/pb_decode.c:852-953 | for any input and any descriptor whose required fields the test can count, the message, or the error, that a function of descriptor, input and message held before says, missing required fields being errors; what is left unread is what follows a zero tag, if there is one |
| `NanopbDecode.DecodeBuffer` | Recover Now/Pods/nanopb/pb_decode.c:955-967 | the same, starting from defaults |
| `NanopbRoundTrip.RoundTrip` | Recover Now/Pods/nanopb/pb_encode.c:451-473 | whatever fits a descriptor, its required fields countable at every depth, is encoded, and decoding the bytes under any part of the descriptor uses up all of them and gives the part of the message that descriptor has, with defaults elsewhere |
| `NanopbRoundTrip.MessageEncodes` | Recover Now/Pods/nanopb/pb_encode.c:451-473 | a message that fits its descriptor always encodes |
| `NanopbRoundTrip.PackedReturns` | Recover Now/Pods/nanopb/pb_decode.c:368-397 | a packed array comes back item by item |
| `NanopbRoundTrip.ValueSkips` | Recover Now/Pods/nanopb/pb_decode.c:277-287 | a reader that does not know a field lands right behind its value |
| `NanopbRoundTrip.ZeroReturns` | Recover Now/Pods/nanopb/pb_encode.c:205-267 | a field left out because it is zero is zero when it comes back |
| `NanopbWire.RecordsDecode` | Recover Now/Pods/nanopb/pb_decode.c:356-429 | records of any fields but submessages, in any order, arrays in any mix of packed and unpacked records: decoding succeeds exactly if the arrays have room; an array then holds its items before and those of the records in order, a single field the value of its last record, a union the value of the last record of any member |
| `NanopbWire.MessageMeans` | Recover Now/Pods/nanopb/pb_decode.c:852-953 | such a message is decoded exactly if the arrays have room and every required field has a record, and then uses up the input and holds what the records mean |
| `NanopbWire.BufferMeans` | Recover Now/Pods/nanopb/pb_decode.c:955-967 | and so on top of the defaults |
| `NanopbWire.ZeroTagEnds` | Recover Now/Pods/nanopb/pb_decode.c:251-275 | a zero tag ends the message and what follows is left unread |
| `NanopbWire.ShortNegativesReturn` | Recover Now/Pods/nanopb/pb_decode.c:1165-1195 | a negative number cut to 32 bits before it was written is read right by a signed field of at most 32 bits |
| `NanopbBounds.StaysInside` | Recover Now/Pods/nanopb/pb_decode.c:852-953 | whatever the input, decoding onto a message within its memory fails or leaves it so at every depth: strings with their terminator or size, arrays, integers of their width |
| `NanopbBounds.DecodesInside` | Recover Now/Pods/nanopb/pb_decode.c:955-967 | and so from defaults that fit |

## Left out

- The app's own code, GTM and Firebase headers and the C binding: user interface, network, or wrappers over code that is not here.
- Operating-system calls (`env*.cc`, `port/`): files are byte sequences, and mutex and condition variable are the atomicity of steps. Torn or reordered writes other than a lost tail are not modelled.
- Weak memory: `AtomicPointer` loads and stores are sequentially consistent.
- Snappy: blocks are stored as they are. Checksums of table blocks, `ReadBlock` and the block cache are one function from handle to block.
- Branches for corrupt internal keys and corrupt blocks; logs and manifests are modelled for every byte sequence.
- Compaction scoring, seek charges, read sampling and the size limits that decide where outputs are cut: the level, the first file and the cuts are arbitrary.
- A flush inside a running compaction: the theorems on reads and levels take flush and compaction one after the other; the interleaving is modelled for file deletion only, in `SafeFiles`.
- `repair.cc`, `dumpfile.cc`, benchmarks and tools.
- `SnapshotList` (db/snapshot.h): the oldest snapshot is a parameter of the compaction.
- The memtable's arena and entry encoding (db/memtable.cc): a memtable is its sorted entries.
- The sharding of the cache and its destructor; `malloc` gives a fresh entry every time.
- `std::sort`, `std::set` and `std::upper_bound` stand for what their documentation says.
- `IteratorWrapper` caching of keys and validity.
- The log reader with an initial offset other than zero, and `LastRecordOffset`, which uses an offset computed before a block trailer is skipped (db/log_reader.cc:75).
- Crc32c.TableEntries, Crc32c.MoreTableEntries: state the entries at the powers of two only, of which every other entry of a linear table is a sum; the other literals in the four tables are not written out.
- HandleTable.HandleTable.FindPointer: masks with the length minus one as a remainder, the length being a power of two.
- Recovery.RecoverLogFile: the level-0 tables written when the memtable fills up (db/db_impl.cc:434-441) are left out; the updates go to one memtable.
- Crc32c.Extend: the tables are functions of the polynomial.
- Table.TableBuilder.Finish: blocks are entries, and the size of a data block is a parameter; the bytes behind the data blocks are written and read in `TableFile`, for a file opened again with the items its metaindex block holds. The layout is stated for tables below 2^64 and filters below 2^32 bytes, the widths of the format.
- FilterBlock.NeverDenies: is stated for filters whose offsets fit 32 bits, as the format has it.
- Compaction.CompactionRun.DoCompactionWork: takes the merged input as a sorted sequence; that the merging iterator yields it is `Merging`. The oldest snapshot is below `kMaxSequenceNumber`, which the code uses for "none seen".
- Manifest.VersionSet.LogAndApply: after a failed write to an old manifest says what is installed, not what that manifest leads to; `SafeFiles` covers the files in that case.
- Manifest.VersionSet.Recover: is for a version set just made, as at `DB::Open`; the CURRENT file and the scores of `Finalize` are not part of this model, nor is `ReuseFileNumber` or marking the numbers of log files found in the directory as used (db/db_impl.cc:343-350).
- SafeFiles.RunSafe: versions are sets of file numbers without levels, and log files are numbers only; which log files are kept is left out.
- GroupCommit.StepKeepsInv: the delays and waits of making room for a write are not steps. A failed append leaves the log as it was; in the code part of a record may stay behind without a background error (db/db_impl.cc:1192-1206), and what a reader makes of the records after such a part is left out.
- NanopbRoundTrip.RoundTrip: decodes encodings of less than 2^32 bytes, and has statically allocated fields only, no callbacks, extensions or pointers, and no proto3-style submessage without a `has_` flag, which is taken for zero when its first field is (pb_encode.c:225-243).
- NanopbDecode.DecodeNoInit: is for descriptors with no required field, or fewer than 64 of them and not 32, at every depth; with any other count the last test shifts by 32 bits or reads past its two words (pb_decode.c:934-949), which C leaves undefined. `NanopbRequired.TestIsRightIff` shows that these are exactly the counts the test is right for.
- NanopbDecode.DecodeBuffer: the same.
- nanopb field sizes and tags are those of a build with `PB_FIELD_32BIT`; an empty descriptor has no field that a zero tag could match.
- NanopbWire.RecordsDecode: records of submessage fields, which are merged into what the field holds, are left out here; `NanopbRoundTrip.RoundTrip` covers them.
- LogFragments.ReportsDamage: the reports for fragments of an unknown type and for parts of a record whose beginning is missing are in `LogReader.Reader.ReadRecord` only.

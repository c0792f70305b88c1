# The ext4 library, modelled and proved in Dafny

The project models the state-changing core of the ext4 library under `libs/lwext4/src` and of the
kernel's helpers beside it: the write-ahead journal (its on-disk form, writer, three-pass recovery
and checkpoint queue), the extent tree (search, insertion with splitting and growth, conversion and
truncation), the indirect block map, the block cache, the block allocator, directory blocks and the
hash index over them; and the kernel's heap and sort.  Code that updates state in place is a class or
a method on an array, proved against specification functions; what the library promises is then
proved about those functions, for all inputs and all runs.

`dafny verify dfyconfig.toml` checks everything.

## How it is laid out

| files | what they hold |
|---|---|
| `journal_format.dfy` | descriptor tags, revoke entries, escaping and transaction ids, as 32-bit words |
| `journal_log.dfy`, `journal_outcome.dfy` | the log as records, `jbd_recover` as a class, and what a recovery does to each home block |
| `journal_commit.dfy`, `journal_writer.dfy` | the writes of a commit in their order, the crash theorem, and the writer that produces them |
| `journal_checkpoint.dfy` | the checkpoint queue and the reclaiming of log space |
| `journal_revoke.dfy` | one block's life among the transactions, and when freeing it revokes its log copies |
| `block_cache.dfy` | the buffer cache over a device |
| `log_queue.dfy`, `write_ahead.dfy`, `write_ahead_runs.dfy` | the transactions in the log, write-ahead ordering from the first change of a block to its checkpoint, and a run that goes wrong |
| `log_refinement.dfy` | the commit as one step of that queue, refined by the writer's block writes |
| `extent_tree.dfy`, `extent_zipper.dfy`, `extent_search.dfy` | the tree, the path array as a zipper, and lookups |
| `extent_insert.dfy`, `extent_split.dfy`, `extent_path.dfy` | merging, splitting, growing, and the path object that does them |
| `extent_nodes.dfy` | the device blocks that a tree owns, for its nodes and for its data |
| `extent_runs.dfy` | a tree and an insertion that loses extents |
| `extent_blocks.dfy`, `extent_truncate.dfy` | `ext4_extent_get_blocks` and `ext4_extent_remove_space` |
| `bitmap.dfy`, `balloc.dfy` | byte-stepping bitmap loops and the block allocator |
| `indirect_map.dfy` | the radix trees of indirect blocks below an inode |
| `dir_records.dfy`, `dir_block.dfy` | a directory block as a list of records, and as the bytes that they tile |
| `dir_hash.dfy`, `dir_index.dfy` | the order of hashed leaves, and the index that keeps it |
| `dir_index_runs.dfy` | directories, filled name by name, in which an insertion goes wrong |
| `buddy.dfy`, `shell_sort.dfy` | the kernel's heap and its sort |
| `block_supply.dfy`, `arithmetic.dfy` | where new blocks come from; lemmas about division |

The device is a sequence or a map of blocks.  Red-black trees and queues are maps, sets and
sequences.  Journal and metadata checksums are off.

## Where the code does not do what it is for

Each of these is stated by a member, with the condition under which the code does work.

- `ExtentBlocks.MapNewBlock`: a new block that is merged at the front of an extent is mapped one
  block too far, and so are the extent's own blocks; in every other case the map is as asked.  A
  block that is appended takes the written or unwritten state of its neighbour.
- `ExtentBlocks.ThreeWayOverlaps`: turning the middle of an unwritten extent into a written one
  leaves two overlapping extents; at either end of the extent the conversion is right.
- `ExtentBlocks.SplitExtentAt`: when the allocator runs dry the conversion reports success and marks
  everything that is left of the extent written.
- `ExtentPathOps.ExtentPath.SplitNode`: when the allocator runs dry in the middle of a split, the
  extents behind the path's in the nodes already cut are lost, just when there are any (`CutsOff`);
  `ExtentRuns.LosesExtents` is an insertion that loses two.
- `ExtentTruncate.RemoveSpace`: truncating at an unmapped block does nothing, even when blocks
  behind it are mapped.
- `JournalCheckpoint.Checkpoint.AllocBlock`: transactions that only revoke move the start of the log
  without writing the journal superblock, so the log can run over the place where a recovery
  would begin.  It does not just when those moves, the queue and the new block fit the log together,
  or the log is full and its oldest transaction has yet to be flushed; `RevokesOverrunDisk` is a run
  of three transactions in which it does.
- `JournalCheckpoint.Checkpoint.EndWrite`: a transaction that becomes the oldest one while its last
  block is being written stays on the queue although it is complete: just when it was not the oldest
  and all up to it are complete now.  `JournalCheckpoint.StaysQueued` is such a run.
- `JournalLog.StaleBlock`: a recovery stores the id of the last complete transaction, and the next session begins with
  the one after it.  Control blocks of a transaction that was cut off behind a complete one carry that very id; those
  of every other transaction that the recovery saw do not.
- `JournalRevoke.BlockLife.Free`: a block that is dirtied and then freed in one transaction is not
  revoked when its older copies have been written home, although their transactions may still be in
  the log; `JournalRevoke.StaleCopy` is a run after which a recovery writes such a copy over the free
  block.
- `WriteAhead.TransFs.FlushTrans`: a block that has become part of the open transaction goes home
  from the log as it lies there.  That is its committed data just when it does not begin with the
  magic number (`JournalFormat.LogCopyIsData`); otherwise, once the transaction has left the log and
  until the next commit, a recovery brings back a zero in place of the magic number.
  `WriteAhead.TransFs.Checkpoint` says exactly what is brought back, and
  `WriteAheadRuns.RestoresEscaped` is such a run.  The rollback of an aborted transaction copies
  blocks in the same way.
- `Bitmap.BitFindClr`: a clear bit before the first byte boundary is reported as the start of the
  search; the allocator's own scan rules that case out.
- `BlockAllocator.Super.LastBlockOfLastGroup`: with 1 KB blocks the last group counts one block too
  many.
- `DirIndex.HTree.AddEntry`: a leaf in which no record has room, although its names take no more than
  half a block, is not split but copied, so that its names are in the directory twice;
  `DirIndexRuns.DoublesNames` fills a directory until that happens.  With blocks of 1 KB a new name
  can be lost after a split while success is reported, just when it is too long for its half
  (`TooBig`); `DirIndexRuns.LosesName` fills a directory for that.  Neither happens when the names
  take more than half a block and blocks are larger.
- `IndirectMap.IndirectInode.Set`: a block number of more than 32 bits is cut off.
- `Buddy.FirstListSize`: an allocation begins its search with blocks larger than needed, unless a unit
  has 8 bytes; the heap's has 32.
- `Buddy.NeverAllBack`: freeing a block never gives back all of it.
- `BlockCache.Cache.InvalidateLba`: nothing is invalidated unless the first block of the range is cached.

## Model

| member | source | states |
|---|---|---|
| JournalFormat.WriteBlockTag | libs/lwext4/src/ext4_journal.c:653-718 | a tag is written exactly when it fits with its volume id, reads back as itself, its words are those of the on-disk form, and nothing before it changes |
| JournalFormat.DescriptorRoundTrip | libs/lwext4/src/ext4_journal.c:727-758 | reading a filled descriptor block gives the tags written, all of them and in order |
| JournalFormat.RevokeRoundTrip | libs/lwext4/src/ext4_journal.c:891-918 | reading a filled revoke block gives the block numbers written, in order |
| JournalFormat.EscapeRoundTrip | libs/lwext4/src/ext4_journal.c:815-820 | an escaped block never looks like a control block, and unescaping gives the data back |
| JournalFormat.LogCopyIsData | libs/lwext4/src/ext4_journal.c:1196-1206 | a log block copied home unchanged is the data just when it needed no escaping |
| JournalFormat.DiffOrders | libs/lwext4/src/ext4_journal.c:105-108 | the signed 32-bit difference orders ids less than 2^31 apart, across the wrap |
| JournalRecovery.JournalFs.ReplayBlockTags | libs/lwext4/src/ext4_journal.c:780-845 | one logged block reaches its home unescaped, unless a revoke of the same or a later transaction hides it |
| JournalRecovery.JournalFs.ReplayDescriptorBlock | libs/lwext4/src/ext4_journal.c:929-936 | a descriptor's blocks go home in order, wherever in the circle they lie |
| JournalRecovery.JournalFs.LogEnds | libs/lwext4/src/ext4_journal.c:979-1035 | the tests that end a pass hold just when no record of the expected transaction follows, or all complete ones are done |
| JournalRecovery.JournalFs.IterateLog | libs/lwext4/src/ext4_journal.c:943-1088 | each of the three passes computes what its specification says about the records of the log, the id that the scan ends with is that of the last complete transaction or else the one it began with, and the walk ends |
| JournalRecovery.JournalFs.Recover | libs/lwext4/src/ext4_journal.c:1093-1128 | the home blocks after recovery are those of the three passes over the log's records, the log is marked empty, the superblock keeps the last complete transaction's id, or its own when there is none, and of the control blocks that were in the log only those of a transaction cut off behind a complete one can pass for the next session's |
| JournalLog.StaleBlock | libs/lwext4/src/ext4_journal.c:1119-1160 | a control block of a transaction in the recovered log carries the id that the next session begins with just when the transaction was cut off behind a complete one |
| JournalOutcome.RevokePassIsTree | libs/lwext4/src/ext4_journal.c:851-871 | the revoke pass leaves, for each block, its last revoke by a complete transaction |
| JournalOutcome.ReplayPassIsHome | libs/lwext4/src/ext4_journal.c:780-845 | the replay pass applies the complete transactions in order and stops before the incomplete one |
| JournalOutcome.SurvivorIsWriteAfter | libs/lwext4/src/ext4_journal.c:780-812 | the last unrevoked write of a block is its last write after its last revoke |
| JournalOutcome.RecoveryOutcome | libs/lwext4/src/ext4_journal.c:943-1128 | after recovery every home block but the superblock's has the data of its last committed writer that no revoke hides, and is untouched if there is none |
| JournalLayout.ChunkApplied | libs/lwext4/src/ext4_journal.c:1581-1741 | a descriptor with its data, once written, stands in the log and nothing else has changed |
| JournalLayout.ParseSplice | libs/lwext4/src/ext4_journal.c:943-1088 | changing the log behind whole transactions does not change how they are read |
| JournalAtomicity.CrashParse | libs/lwext4/src/ext4_journal.c:1889-1975 | after any number of a commit's block writes a scan finds whole chunks only, all of them just when every write is done |
| JournalAtomicity.CrashAtomicity | libs/lwext4/src/ext4_journal.c:1889-1975 | after any number of a commit's block writes a scan finds the old transactions, and the new one just when every write is done |
| JournalAtomicity.CrashThenRecover | libs/lwext4/src/ext4_journal.c:1093-1128 | the same followed by recovery, block by block: old state or new state, nothing between |
| JournalWriter.Journal.PlaceAll | libs/lwext4/src/ext4_journal.c:1605-1735 | the descriptors carry exactly the dirty buffers in queue order, over any number of blocks, and the last tag alone is marked last although clean buffers drop out on the way |
| JournalWriter.Journal.Prepare | libs/lwext4/src/ext4_journal.c:1581-1741 | the log holds well-formed descriptors whose writes are the dirty buffers, the data count follows, and the transaction begins at the first of them |
| JournalWriter.Journal.PrepareRevoke | libs/lwext4/src/ext4_journal.c:1747-1825 | revoke blocks follow that carry exactly the transaction's revoked blocks, over any number of blocks; the transaction begins with them only when nothing was written before |
| JournalWriter.Journal.CommitTrans | libs/lwext4/src/ext4_journal.c:1889-1975 | cut off after any number of its writes, a commit leaves a log that reads as the old transactions, and the new one too just when all writes are done; the transaction notes where its first block lies and how many it has |
| JournalCheckpoint.ChainedAt | libs/lwext4/src/ext4_journal.c:1941-1968 | queued transactions have consecutive ids |
| JournalCheckpoint.ArcAt | libs/lwext4/src/ext4_journal.c:98-103 | each queued transaction begins where those before it end, across the wrap |
| JournalCheckpoint.Outside | libs/lwext4/src/ext4_journal.c:1292-1308 | the block at the end of the log lies outside every live transaction's part of the circle |
| JournalCheckpoint.Checkpoint.OldestNamed | libs/lwext4/src/ext4_journal.c:1226-1253 | the start and the id name the oldest queued transaction, or the end of the log when none is queued |
| JournalCheckpoint.Checkpoint.Purge | libs/lwext4/src/ext4_journal.c:1217-1253 | the queue loses a front part, without flushing only complete transactions and all of those in front, and when one is asked for that one with the complete ones that its flush uncovers; the start that the disk knows stays out of the log's way if it was |
| JournalCheckpoint.Checkpoint.FlushTrans | libs/lwext4/src/ext4_journal.c:1183-1215 | flushing the oldest transaction takes it off the queue with the complete ones right behind it, and tells the disk; what is written home is the matter of WriteAhead.TransFs.FlushTrans |
| JournalCheckpoint.Checkpoint.EndWrite | libs/lwext4/src/ext4_journal.c:1842-1883 | exactly the written blocks are counted, only complete transactions leave, some do just when the oldest was incomplete and is complete now, and a complete one stays the oldest just when it was not the oldest and all up to it are complete |
| JournalCheckpoint.Stuck | libs/lwext4/src/ext4_journal.c:1842-1883 | a transaction that is not the oldest when its last block is counted is left complete at the head just when all up to it are complete |
| JournalCheckpoint.StaysQueued | libs/lwext4/src/ext4_journal.c:1842-1883 | a run of two transactions with one block, after which the second one is complete and stays |
| JournalCheckpoint.Checkpoint.AllocBlock | libs/lwext4/src/ext4_journal.c:1292-1308 | a new log block overwrites no live one, transactions are flushed just when the log is full, the assertion that there is room holds unless one transaction fills the log, and the place where the disk would begin a recovery survives just when stated |
| JournalCheckpoint.Checkpoint.FinishCommit | libs/lwext4/src/ext4_journal.c:1941-1968 | the transaction is queued behind the others, unless it only revokes and the queue is empty; then the start moves away from the one that the disk knows |
| JournalCheckpoint.Checkpoint.AbortCommit | libs/lwext4/src/ext4_journal.c:1969-1973 | a failed commit gives its blocks back, whatever was flushed for it |
| JournalCheckpoint.RevokesOverrunDisk | libs/lwext4/src/ext4_journal.c:1956-1962 | a run of a data transaction, one that revokes its block and a long one, in a log of eight blocks, after which the log has overrun the start that the disk knows |
| JournalRevoke.BlockLife.SetDirty | libs/lwext4/src/ext4_journal.c:1418-1461 | a dirtied block belongs to the open transaction, which does not revoke it any more |
| JournalRevoke.BlockLife.Free | libs/lwext4/src/ext4_journal.c:1488-1505 | a freed block is safe from all its log copies once the transaction is committed, just when the branch that skips the revoke does not meet a copy still in the log |
| JournalRevoke.BlockLife.Commit | libs/lwext4/src/ext4_journal.c:1889-1932 | what the transaction logs of the block is what a recovery restores; a free block's copies stay hidden, whatever of its buffers is dropped on the way |
| JournalRevoke.BlockLife.Purge | libs/lwext4/src/ext4_journal.c:1226-1253 | no hidden copy comes to light when the oldest transaction leaves the log |
| JournalRevoke.FreedUntouched | libs/lwext4/src/ext4_journal.c:780-812 | a recovery leaves a block alone whose copies are all hidden |
| JournalRevoke.StaleCopy | libs/lwext4/src/ext4_journal.c:1488-1505 | a run after which a recovery writes an old copy over a free block |
| BlockCache.Cache.FlushBuf | libs/lwext4/src/ext4_blockdev.c:134-160 | the disk block becomes what readers see, and nothing that they see changes |
| BlockCache.Cache.FindGet | libs/lwext4/src/ext4_bcache.c:199-220 | a held buffer is in neither list, one that nobody held before counts as used later than all others, and nothing that readers see changes |
| BlockCache.Cache.Alloc | libs/lwext4/src/ext4_bcache.c:222-254 | the block has a held buffer, new just when there was none; a new one, or one that nobody held, counts as used later than all others |
| BlockCache.NewestOf | libs/lwext4/src/ext4_bcache.c:199-220 | the counter orders all buffers by their last taking |
| BlockCache.Cache.Shake | libs/lwext4/src/ext4_blockdev.c:174-196 | there is room or everything is held, and no buffer went once there was room; only unheld buffers went, the longest unused first, exactly the dirty ones of them are written, and readers see no change |
| BlockCache.Cache.Get | libs/lwext4/src/ext4_blockdev.c:228-251 | the caller gets what readers are to see, whether from the cache or from the disk |
| BlockCache.Cache.BlockSet | libs/lwext4/src/ext4_bcache.c:256-299 | giving a reference back changes nothing for readers; with the last one a dirty buffer is written, or waits while writing is delayed, and one that is not to stay goes |
| BlockCache.Cache.CacheFlush | libs/lwext4/src/ext4_blockdev.c:422-432 | exactly the buffers on the dirty list are written, and afterwards no unheld buffer differs from the disk |
| BlockCache.Cache.WriteBack | libs/lwext4/src/ext4_blockdev.c:434-446 | delaying nests, and when it ends with nothing held the disk equals what readers see |
| BlockCache.Cache.InvalidateBuf | libs/lwext4/src/ext4_bcache.c:176-185 | readers see the disk's block again, and no other block changes |
| BlockCache.Cache.InvalidateLba | libs/lwext4/src/ext4_bcache.c:187-197 | the cached blocks of the range are invalid afterwards just when the first one was cached or none was valid |
| BlockCache.OkReplace | libs/lwext4/includes/ext4_bcache.h:165-201 | the invariant of buffers and lists survives any consistent change of one buffer |
| LogQueue.LogSettled | libs/lwext4/src/ext4_blockdev.c:174-196 | whatever the cache writes back by itself, no block of the open transaction reaches its home and the log stays authoritative |
| LogQueue.AtHome | libs/lwext4/src/ext4_journal.c:1842-1883 | a block that is neither open nor waiting in the log has its committed contents at home |
| LogQueue.Dropped | libs/lwext4/src/ext4_journal.c:1858-1876 | without its first transaction the log restores the same, but for open blocks of that transaction alone, for which the home counts |
| LogQueue.FlushedHome | libs/lwext4/src/ext4_journal.c:1191-1211 | after a flush every home that counts is right just when no open block of the flushed transaction alone needed escaping |
| BlockCache.Cache.WriteDirect | libs/lwext4/src/ext4_blockdev.c:276-287 | a write past the cache changes what readers see just when they have no dirty copy |
| WriteAhead.TransFs.Get | libs/lwext4/src/ext4_trans.c:72-79 | reading, with all that the cache evicts for it, writes no open block home and changes nothing that a recovery restores; transactions are done with exactly what was written |
| WriteAhead.TransFs.Put | libs/lwext4/src/ext4_bcache.c:256-299 | the same when a reference is given back and the block may go home |
| WriteAhead.TransFs.CacheFlush | libs/lwext4/src/ext4_blockdev.c:422-432 | the same; with nothing held and nothing open afterwards nothing waits in the log and the disk is what readers see |
| WriteAhead.TransFs.Callbacks | libs/lwext4/src/ext4_journal.c:1842-1883 | afterwards exactly the blocks that are open or dirty in the cache wait |
| WriteAhead.TransFs.SetBlockDirty | libs/lwext4/src/ext4_journal.c:1418-1461 | a dirtied block is pinned by the transaction's own reference, taken once |
| WriteAhead.TransFs.Commit | libs/lwext4/src/ext4_journal.c:1889-1975 | the references go only after the transaction is in the log; recovery then yields the new state, also where a flush had spoilt the old one |
| WriteAhead.TransFs.CrashSafe | libs/lwext4/src/ext4_journal.c:1842-1883 | in every reachable state, also between two of the cache's block writes and the callbacks that drop transactions from the log, a recovery brings back the last committed state and nothing that is open |
| WriteAhead.TransFs.WriteHome | libs/lwext4/src/ext4_journal.c:1191-1211 | a buffer that the transaction still owns goes home as readers see it, otherwise the log's copy does, past the cache, and readers see no change |
| WriteAhead.TransFs.FlushTrans | libs/lwext4/src/ext4_journal.c:1183-1215 | the oldest transaction waits for nothing; each of its waiting blocks is home, as readers see it or, once it is part of a later transaction, as the log has it; no other block of the disk changes, no open data is written, and all homes that count are right just when no copy of an open block was changed by escaping |
| WriteAhead.TransFs.DropHead | libs/lwext4/src/ext4_journal.c:1858-1876 | what is restored stays the same when every home that counts is right, and is exactly as stated when not |
| WriteAhead.TransFs.PurgeDone | libs/lwext4/src/ext4_journal.c:1226-1253 | all transactions in front that wait for nothing leave, and recovery brings back the same |
| WriteAhead.TransFs.Checkpoint | libs/lwext4/src/ext4_journal.c:1226-1253 | the log is emptied; recovery brings back the committed state, with those blocks escaped that were open and waiting, so the same just when none of them begins with the magic number |
| WriteAheadRuns.RestoresEscaped | libs/lwext4/src/ext4_journal.c:1196-1206 | a run after which a recovery does not bring back what was committed |
| LogRefinement.SurvivorIsQueued | libs/lwext4/src/ext4_journal.c:943-1128 | the last writer that a recovery finds in the log is the last transaction of the queue that has the block |
| LogRefinement.CommitToLog | libs/lwext4/src/ext4_journal.c:1889-1975 | after any number of a commit's block writes a recovery gives every block what the queue says without the new transaction or, when all are written, with it |
| ExtentTree.MapOfAt | libs/lwext4/src/ext4_extent.c:411-417 | in a sorted tree the extent that covers a block maps it |
| ExtentSearch.BinsearchIdx | libs/lwext4/src/ext4_extent.c:746-762 | the entry found is the last whose key does not exceed the block, or the first |
| ExtentSearch.Binsearch | libs/lwext4/src/ext4_extent.c:769-794 | the same for extents, with none for an empty leaf |
| ExtentSearch.OnePath | libs/lwext4/src/ext4_extent.c:796-878 | two searches for a block in one tree take the same path |
| ExtentPathOps.ExtentPath.FindExtent | libs/lwext4/src/ext4_extent.c:796-878 | the path belongs to the tree, everything left of it ends at or before the block and everything right of it starts behind |
| ExtentPathOps.ExtentPath.CorrectIndexes | libs/lwext4/src/ext4_extent.c:1076-1119 | when a leaf's first block changes, the keys above it are exact again and nothing else changes |
| ExtentInsert.AppendMap | libs/lwext4/src/ext4_extent.c:1188-1198 | appending maps the new blocks where asked, in the state of the extent they join |
| ExtentInsert.PrependBreaks | libs/lwext4/src/ext4_extent.c:1201-1211 | merging at the front maps every block of both extents too far, by the length of the new one |
| ExtentInsert.HowMaps | libs/lwext4/src/ext4_extent.c:1173-1267 | inserting and appending add exactly the new blocks to the map |
| ExtentInsert.HowSorted | libs/lwext4/src/ext4_extent.c:1173-1267 | inserting and appending keep the extents sorted and apart |
| ExtentPathOps.ExtentPath.InsertLeaf | libs/lwext4/src/ext4_extent.c:1173-1267 | a leaf is refused just when it is full and nothing can be merged; otherwise the tree's extents change as reported and the keys stay exact |
| ExtentPathOps.ExtentPath.InsertIndex | libs/lwext4/src/ext4_extent.c:888-941 | the new node's entry stands right behind the path's |
| ExtentSplit.CutMore | libs/lwext4/src/ext4_extent.c:1006-1039 | cutting one more index node keeps both halves sound and loses nothing |
| ExtentSplit.SplitLeft | libs/lwext4/src/ext4_extent.c:943-1069 | with the new nodes hung right of the path the path is sound and the extents are the same |
| ExtentSplit.SplitRight | libs/lwext4/src/ext4_extent.c:943-1069 | the same when the path moves into the new nodes |
| ExtentPathOps.TakenSome | libs/lwext4/src/ext4_extent.c:943-1069 | cutting the first nodes of a path takes something away just when something lies behind the path in one of them |
| ExtentNodes.OwnedIs | libs/lwext4/src/ext4_extent.c:943-1069 | what a tree owns is its nodes' blocks and its extents' data |
| ExtentNodes.CutNodes | libs/lwext4/src/ext4_extent.c:1006-1039 | cutting a node gives the tree one block more, that of the new node |
| ExtentNodes.GrownNodes | libs/lwext4/src/ext4_extent.c:1277-1334 | growing gives the tree one block more, that of the moved root |
| ExtentNodes.HowGains | libs/lwext4/src/ext4_extent.c:1173-1267 | the extents own the new extent's blocks besides their own, except that a merge at the front owns others in their place |
| ExtentNodes.OwnedOnce | libs/lwext4/src/ext4_extent.c:1345-1425 | blocks that were in use once at most are so after an operation that takes blocks only from the supply |
| ExtentPathOps.ExtentPath.SplitNode | libs/lwext4/src/ext4_extent.c:943-1069 | a split succeeds just when the blocks suffice, changes no mapping, puts each new node into the block allocated for it, and leaves room in the leaf where the new extent belongs; otherwise exactly what lay behind the path in the nodes already cut is lost |
| ExtentSplit.GrownOk | libs/lwext4/src/ext4_extent.c:1277-1334 | growing keeps the tree sound, one level deeper, with the same extents |
| ExtentPathOps.ExtentPath.GrowInDepth | libs/lwext4/src/ext4_extent.c:1362-1380 | the tree is the old one below a new root, its old root's contents in the block allocated; the path leads to the same extent and the node below the root has room |
| ExtentPathOps.ExtentPath.MakeSpace | libs/lwext4/src/ext4_extent.c:1354-1406 | room is made with exactly one block for the leaf and one for each full node in a row above it, and those blocks are the tree's new nodes |
| ExtentPathOps.ExtentPath.InsertExtent | libs/lwext4/src/ext4_extent.c:1345-1425 | insertion at any depth ends after at most one retry, succeeds just when the blocks suffice, the tree's extents change as reported, and what it owns afterwards is what it owned, the new extent's blocks and exactly the blocks taken from the supply; a failure loses extents just when stated |
| ExtentRuns.LosesExtents | libs/lwext4/src/ext4_extent.c:1345-1425 | an insertion into a full tree with one block left that loses two extents |
| ExtentBlocks.PiecesMap | libs/lwext4/src/ext4_extent.c:1746-1799 | splitting an unwritten extent in two moves no block and changes the state of one part only |
| ExtentBlocks.ThreeWayOverlaps | libs/lwext4/src/ext4_extent.c:1818-1827 | splitting in three ends with two extents over each other |
| ExtentBlocks.SplitExtentAt | libs/lwext4/src/ext4_extent.c:1746-1799 | the extent is replaced by its two pieces even when a node must be split, and the tree owns the same blocks besides those taken for nodes; without blocks for that it is marked written and success is reported |
| ExtentBlocks.ConvertToInitialized | libs/lwext4/src/ext4_extent.c:1801-1830 | exactly the requested range becomes written, no block moves, and no block is gained or lost but those taken for nodes |
| ExtentBlocks.MapNewBlock | libs/lwext4/src/ext4_extent.c:1976-2010 | the new block is mapped to the block returned and no other mapping changes, just when it was not merged at the front of an extent, and that just when the guard of that branch holds; in the other cases the tree gains exactly the blocks taken from the supply; it fails just when there is no block for it, or the leaf is full, nothing can be merged and the blocks do not suffice |
| ExtentBlocks.GetBlocks | libs/lwext4/src/ext4_extent.c:1900-2025 | mapped blocks are reported as they are mapped, unmapped ones are mapped or left alone as asked, the tree stays sound and gains exactly the blocks taken from the supply, but for a merge at the front and a dry allocator |
| ExtentTruncate.KeepUpOk | libs/lwext4/src/ext4_extent.c:1610-1744 | what remains of a sound tree left of a path is sound |
| ExtentTruncate.RemoveLeaf | libs/lwext4/src/ext4_extent.c:1487-1592 | a leaf keeps its extents before the block, the one around it shortened, and what it loses is freed |
| ExtentTruncate.RemoveIdx | libs/lwext4/src/ext4_extent.c:1441-1485 | an emptied node's entry goes and its block is freed; the keys that change are of nodes that will go too |
| ExtentTruncate.RemoveRight | libs/lwext4/src/ext4_extent.c:1669-1730 | the walk with no stack but the path ends, removes everything right of the path, and frees each block of it once |
| ExtentTruncate.KeepTrimmed | libs/lwext4/src/ext4_extent.c:1669-1730 | what is left of a tree beside a path is the tree with entries taken off the ends of its nodes |
| ExtentTruncate.RemoveSpace | libs/lwext4/src/ext4_extent.c:1610-1744 | the map is cut off at the block just when the block is mapped or nothing behind it is; every node that remains is where it was with the entries it had first; what the tree held is what it holds and what was freed, each block once |
| Bitmap.SetAt | libs/lwext4/includes/ext4_bitmap.h:52-63 | setting or clearing a bit changes that bit and no other |
| Bitmap.BitsFree | libs/lwext4/src/ext4_bitmap.c:45-87 | the loops over bits, bytes and bits again clear exactly the range |
| Bitmap.BitFindClr | libs/lwext4/src/ext4_bitmap.c:89-156 | a clear bit is found just when there is one; the bit reported is the first clear one just when none lies before the first byte boundary or the search begins at it |
| BlockAllocator.Super.AddrRoundTrip | libs/lwext4/includes/ext4_fs.h:93-113 | group and index name one block, and the block names them |
| BlockAllocator.Super.LastBlockOfLastGroup | libs/lwext4/src/ext4_super.c:63-73 | with 1 KB blocks the last group's last index lies behind the device |
| BlockAllocator.CountCleared | libs/lwext4/src/ext4_balloc.c:289-313 | clearing set bits adds exactly their number to the count of clear ones |
| BlockAllocator.Allocator.SearchGroup | libs/lwext4/src/ext4_balloc.c:391-449 | the search in the goal's group finds the first clear bit at the goal or behind it, just when there is one |
| BlockAllocator.Allocator.AllocBlock | libs/lwext4/src/ext4_balloc.c:338-565 | the block returned was free and lies in its group, exactly its bit is set, the counters agree with the bitmaps, it is the first free one from the goal on or else the first one of the next group in turn that has any, and there is no space just when no group has a free block |
| BlockAllocator.Allocator.FreeBlock | libs/lwext4/src/ext4_balloc.c:140-218 | exactly the block's bit is cleared and the counters follow |
| BlockAllocator.Allocator.FreeBlocks | libs/lwext4/src/ext4_balloc.c:220-336 | exactly the bits of the range are cleared, in any number of groups, the counters rise by its length, and nothing is left over |
| IndirectMap.IndirectInode.constructor | libs/lwext4/src/ext4_fs.c:92-102 | the limits computed level by level are those of the specification, and an empty inode maps nothing |
| IndirectMap.Digits | libs/lwext4/src/ext4_fs.c:1353-1357 | the offsets that the walk keeps by remainder and quotient are the digits of the block's place |
| IndirectMap.AtWord | libs/lwext4/src/ext4_fs.c:1523-1567 | a word written in an indirect block changes one place of the trees and no other |
| IndirectMap.LookupReads | libs/lwext4/src/ext4_fs.c:1297-1408 | the places of the trees are the words that are read one by one from the roots: word i, words i / n and i % n, or words i / n^2, i / n % n and i % n |
| IndirectMap.PathMore | libs/lwext4/src/ext4_fs.c:1516-1560 | the next missing block of a path is the next one of the supply, and no other place gets another block |
| IndirectMap.IndirectInode.Get | libs/lwext4/src/ext4_fs.c:1297-1408 | the block found is the word that the inode's own words and one, two or three levels of indirect blocks lead to, 0 for holes and empty inodes, and an error just when the block lies beyond three levels |
| IndirectMap.IndirectInode.EnsureChild | libs/lwext4/src/ext4_fs.c:1516-1560 | a missing indirect block is made, empty, at its place and nowhere else |
| IndirectMap.IndirectInode.Set | libs/lwext4/src/ext4_fs.c:1423-1587 | the block is found under its number afterwards and every other lookup is unchanged, just when there are blocks for what the path lacks; the missing indirect blocks are the supply's, from the top down, and otherwise no lookup changes |
| IndirectMap.IndirectInode.Release | libs/lwext4/src/ext4_fs.c:1035-1132 | the block becomes a hole, what was mapped is given back, no other lookup changes, and all indirect blocks stay |
| IndirectMap.IndirectInode.Truncate | libs/lwext4/src/ext4_fs.c:1134-1214 | exactly the blocks behind the new end become holes, each data block of them is given back once and in order, what was held is what is held and what was given back, all indirect blocks stay, and the errors are as stated |
| DirRecords.InsertedLookup | libs/lwext4/src/ext4_dir.c:559-628 | an absent name is found after its insertion and every other name as before |
| DirRecords.RemovedLookup | libs/lwext4/src/ext4_dir.c:508-557 | a removed name is gone and every other name is found as before |
| DirRecords.RemoveUndoesInsert | libs/lwext4/src/ext4_dir.c:508-628 | removing what was inserted leaves every lookup as before both |
| DirBlock.Spliced | libs/lwext4/src/ext4_dir.c:559-628 | bytes written between two record boundaries leave the records on either side as they were |
| DirBlock.RecsFill | libs/lwext4/src/ext4_dir.c:559-628 | the records of a tiled block fill it and each holds its name |
| DirBlock.WriteEntry | libs/lwext4/src/ext4_dir.c:286-327 | the record read back is the one written, its bytes are those of the on-disk form, and no other byte changes |
| DirBlock.FindInBlock | libs/lwext4/src/ext4_dir.c:630-670 | the first live record with the name is found, just when there is one, although the search stops early |
| DirBlock.TryInsert | libs/lwext4/src/ext4_dir.c:559-628 | the block stays tiled, the first record with room takes the name, and there is no space just when no record has room |
| DirBlock.Predecessor | libs/lwext4/src/ext4_dir.c:532-546 | the walk ends at the record right before the position, so the assertion holds |
| DirBlock.RemoveEntry | libs/lwext4/src/ext4_dir.c:508-557 | the block stays tiled, and exactly the name's record dies or joins the one before it |
| HashOrder.OnlyHere | libs/lwext4/src/ext4_dir_idx.c:645-653 | a name can only be in the last leaf that may begin with its hash or in leaves that go on with it |
| HashOrder.SplitKeeps | libs/lwext4/src/ext4_dir_idx.c:952-1027 | a split with two halves keeps the order of keys, the ranges of the leaves, and the names |
| HashOrder.SplitDoubles | libs/lwext4/src/ext4_dir_idx.c:952-1027 | a split without a first half puts every name of the block into the directory once more |
| HashOrder.MidInside | libs/lwext4/src/ext4_dir_idx.c:957-968 | there is a first half just when the names take more than half a block |
| HashOrder.OneOrder | libs/lwext4/src/ext4_dir_idx.c:930-931 | names with different hashes have one order, whatever sort is used |
| HashOrder.NamePut | libs/lwext4/src/ext4_dir_idx.c:1289-1297 | a name put into the leaf of its hash keeps the order |
| HashOrder.NameTaken | libs/lwext4/src/ext4_dir.c:508-557 | a name taken out keeps the order, and the directory has all other names |
| DirIndex.LastInTree | libs/lwext4/src/ext4_dir_idx.c:537-617 | two binary searches, one in each level, find the last leaf of the whole index that may begin with a hash |
| DirIndex.HTree.BinSearch | libs/lwext4/src/ext4_dir_idx.c:543-556 | the entry found is the last whose key does not exceed the hash, the first one's key being that of the level above |
| DirIndex.HTree.GetLeaf | libs/lwext4/src/ext4_dir_idx.c:516-616 | the path leads to the last leaf of the whole list whose key does not exceed the hash |
| DirIndex.HTree.NextBlock | libs/lwext4/src/ext4_dir_idx.c:624-689 | the next leaf of the whole index is reached, across index blocks, just when it goes on with the hash |
| DirIndex.HTree.FindEntry | libs/lwext4/src/ext4_dir_idx.c:691-805 | a name is found just when some leaf has it, and then its first record there |
| DirIndex.NodeSplit | libs/lwext4/src/ext4_dir_idx.c:1100-1154 | an index block cut in two lists the same leaves under the same keys |
| DirIndex.HTree.SplitIndex | libs/lwext4/src/ext4_dir_idx.c:1043-1190 | the list of leaves and keys is unchanged, the path leads to the same leaf, and there is room for an entry, unless the index is full or the directory cannot grow; the new block takes the whole root or the second half of the full block |
| DirIndex.HTree.InsertLeaf | libs/lwext4/src/ext4_dir_idx.c:836-857 | the new leaf comes right behind the path's in the whole list |
| DirIndex.HTree.SplitData | libs/lwext4/src/ext4_dir_idx.c:864-1034 | names and order are kept just as a first half exists; without one the block's names are doubled |
| DirIndex.HTree.AddEntry | libs/lwext4/src/ext4_dir_idx.c:1192-1322 | the directory has the name, inode and type in one more record besides all others, or is refused and unchanged, exactly when stated; the record goes first fit to the leaf of its hash or to the half of it that its hash belongs to after a split; a name is lost just when it is too long for its half, and names are doubled just when there is no first half |
| DirIndex.HTree.RemoveEntry | libs/lwext4/src/ext4_dir.c:508-557 | exactly the name goes from the directory and the index stays in order |
| DirIndexRuns.LosesName | libs/lwext4/src/ext4_dir_idx.c:1289-1300 | a directory of 1 KB blocks, filled from the start, in which the fifth name is lost |
| DirIndexRuns.DoublesNames | libs/lwext4/src/ext4_dir_idx.c:957-973 | a directory in which names were added and removed until a leaf has no room for a long name and nothing to split, and the next insertion doubles its names |
| Buddy.BuddySystem.AddNode | libs/buddy_alloc/buddy_alloc.c:74-85 | the list stays in order and gains the block, no other list changes, and exactly the block's bytes become free |
| Buddy.BuddySystem.AddEnds | libs/buddy_alloc/buddy_alloc.c:99-109 | one turn frees exactly what both ends give up, the blocks without their other half in the range, and what is left is aligned to the next size |
| Buddy.EndsLargest | libs/buddy_alloc/buddy_alloc.c:99-109 | the block that an end gives up is half of one that does not lie in the range |
| Buddy.BuddySystem.AddRange | libs/buddy_alloc/buddy_alloc.c:92-110 | exactly the whole units of the range become free, each byte once, in blocks each as large as the range allows, and the loop ends |
| Buddy.BuddySystem.AllocNode | libs/buddy_alloc/buddy_alloc.c:121-146 | an aligned block of the power of two that fits is taken, from the front of the first list that has any, and apart from a unit's rest exactly its bytes stop being free |
| Buddy.FirstListSize | libs/buddy_alloc/buddy_alloc.c:122-125 | the first list searched has blocks of just the size needed only when a unit has 8 bytes |
| Buddy.Heap.AddHeapRange | libs/buddy_alloc/buddy_alloc.c:117-119 | new memory becomes free and overlaps nothing |
| Buddy.Taken | libs/buddy_alloc/buddy_alloc.c:186-193 | a block taken from the free lists overlaps no other block that is handed out |
| Buddy.Returned | libs/buddy_alloc/buddy_alloc.c:218-229 | what is given back overlaps nothing that is free or handed out |
| Buddy.Heap.Malloc | libs/buddy_alloc/buddy_alloc.c:186-193 | blocks handed out stay apart from each other and from free ones, and the block is the front of the first list that has any |
| Buddy.Heap.FreeLen | libs/buddy_alloc/buddy_alloc.c:218-229 | the same, and exactly the whole units up to the size become free, in blocks as large as can be |
| Buddy.NeverAllBack | libs/buddy_alloc/buddy_alloc.c:218-229 | of every block handed out some bytes never come back |
| ShellSort.SwapElems | libs/std_impl/impl.c:132-137 | exchanging two elements byte by byte exchanges them in the array of elements |
| ShellSort.SinkStep | libs/std_impl/impl.c:119-138 | one comparison and exchange keeps the part behind the sinking element in order |
| ShellSort.Sink | libs/std_impl/impl.c:119-138 | with a gap of one element the elements up to the next are in order, and always the same elements |
| ShellSort.Pass | libs/std_impl/impl.c:119-140 | a pass permutes the elements and with a gap of one element sorts them |
| ShellSort.NextGap | libs/std_impl/impl.c:110-142 | the gaps run down to exactly one element and stop |
| ShellSort.Sort | libs/std_impl/impl.c:101-144 | for every total preorder, count and width the result is a sorted permutation |

## Left out

- Name hashes are an arbitrary even-valued function; index blocks hold entries, not bytes.
- DirBlock.FindInBlock: a corrupt block, in which a record has length 0 or runs over the end, is excluded; so are blocks of 64 KB, whose lengths do not fit 16 bits.
- DirIndex.HTree.GetLeaf: a corrupt index, with a count of 0 or above its limit, is excluded.
- DirIndex.HTree.SplitIndex: when it fails the source goes on to give back the target block, which it has not got yet (ext4_dir_idx.c:1252-1254); the model returns the error.
- DirIndex.HTree.SplitData: leaves are lists of records, which DirBlock connects with bytes; copying through the sort buffer is not modelled byte by byte, and any sort may take the place of qsort.
- The linear search and insertion over all blocks of an unindexed directory.
- IndirectMap.IndirectInode.Set: goals for the allocator are not modelled; a block given by it is at no place of the trees.
- Buddy.BuddySystem.AllocNode: a list with a block exists; when there is none the source walks past the last list.  Levels at which the 32-bit shift overflows are excluded.
- Buddy.BuddySystem.AddNode: the lists are sequences of addresses, not links inside the free blocks.
- ShellSort.Sort: the assertion against overflow of the array's size.
- Superblock replay: block 0 is handled apart in recovery and not modelled.
- Checksums of the journal, of extent blocks, bitmaps and groups: off.
- Device errors and failing allocations of memory: assumed away, also in directories and indirect blocks.
- IndirectMap.IndirectInode.Truncate: the 32-bit casts of the block counts are not modelled, so sizes of 2^32 blocks and more are excluded; short symbolic links, device files and extent-mapped inodes are handled elsewhere in that function.
- JournalRecovery.JournalFs.IterateLog: a log in which some record reaches round to its own start is excluded; on such a log the loop need not end.
- JournalWriter.Journal.CommitTrans: the log has room for the whole commit; what happens when it runs full is the matter of JournalCheckpoint.
- WriteAhead.TransFs.FlushTrans: where in the log a copy lies (`jbd_lba`) is not modelled; the copy is a field of the queued transaction.
- JournalCheckpoint.Checkpoint.EndWrite: transaction ids are not reduced modulo 2^32 here; the order of ids across the wrap is in JournalFormat.
- JournalRevoke.BlockLife.Commit: a block that is dirtied and freed twice in one transaction is excluded; the source then goes on with a record that it has released.
- JournalRevoke.BlockLife.HomeWrite: writes of file data that go past the journal, and flushing a transaction whose block was freed meanwhile, are not modelled.
- Aborting a transaction rolls blocks back from the log; only the return of its log blocks is modelled.
- BlockCache.Cache.FlushBuf: the callback after a write is not called; WriteAhead.TransFs.Callbacks runs for all blocks written by one cache operation, and CrashSafe covers the moments in between.
- Log blocks pass through the same cache in the source; the writer's model sets them directly, as they are flushed when they are put.
- WriteAhead.TransFs.Commit: the log write counts as one step, which LogRefinement.CommitToLog justifies for transactions without revokes; a flush for which a full log asks in the middle is a step before it.  Blocks that turn out clean at the commit and revoked blocks are the matter of JournalWriter and JournalRevoke.
- WriteAhead.TransFs.DropHead: that a transaction may leave later than the log allows, and that the disk's superblock may lag, is the matter of JournalCheckpoint.
- ExtentPathOps.ExtentPath.SplitNode: the blocks that a failed split gives back to the allocator are not counted.
- ExtentBlocks.ThreeWayOverlaps: it is about the two pieces of each split; the second split is not run on the tree, whose invariant its result breaks, and the wrap of the physical start at 2^32 is not modelled.
- ExtentBlocks.GetBlocks: allocation of one block at a time, as all callers ask for; converting the middle of an unwritten extent is excluded, and zeroing its blocks on the device is not modelled.
- ExtentTruncate.RemoveSpace: the end is always EXT_MAX_BLOCKS, as truncation passes it.
- The depth that each node's header repeats is the shape of the tree here.
- BlockAllocator.Super.AddrRoundTrip: the source multiplies the group by the blocks per group in 32 bits; that wraps on devices of 2^32 blocks and more and is not modelled.
- BlockAllocator.Allocator.AllocBlock: the goal lies in a group, and bitmaps are initialised.
- BlockAllocator.Allocator.FreeBlocks: the blocks are in use, and a group has eight blocks per byte of a block, as the source's step assumes.
- Revoking and invalidating freed blocks is not repeated in the allocator's model.

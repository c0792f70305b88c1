/**
 A run of the journal in which a recovery would not bring back what was committed: the copy of a
 block in the log goes home as it lies there.
 */
module WriteAheadRuns {
  import opened JournalFormat
  import opened LogQueue
  import opened WriteAhead

  const ZERO: Block := [0]
  const MAGIC: Block := [JBD_MAGIC_NUMBER]

  /** One block takes new contents in the open transaction. */
  method Change(fs: TransFs, data: Block)
    requires fs.Valid() && fs.Delaying() && fs.cache.bufs.Keys <= {1} && fs.cache.cnt == 2 && |fs.cache.disk| == 2 && fs.users.Keys <= {1}
    requires Users(fs.users, 1) == 0
    modifies fs, fs.cache
    ensures fs.Valid() && fs.Delaying() && fs.cache.bufs.Keys <= {1} && fs.cache.disk == old(fs.cache.disk)
    ensures fs.users.Keys <= {1} && Users(fs.users, 1) == 0 && fs.open == old(fs.open) + {1} && fs.queue == old(fs.queue)
    ensures fs.cache.Seen() == old(fs.cache.Seen())[1 := data] && fs.committed == old(fs.committed)
  {
    hide TransFs.Base, TransFs.Valid, TransFs.Delaying, TransFs.Restored, BlockCache.View, Ended, EndAll;
    fs.ValidIsBase();
    AtMostOne(fs.cache.bufs.Keys, 1);
    var err, was := fs.Get(1);
    fs.ValidIsBase();
    fs.SetBlockDirty(1, data);
    fs.ValidIsBase();
    fs.Put(1);
  }

  /** A first transaction is committed and nothing is written home. */
  method CommitMagic() returns (fs: TransFs)
    ensures fresh(fs) && fresh(fs.cache) && fs.Valid() && fs.Delaying() && fs.cache.bufs.Keys <= {1} && fs.cache.cnt == 2
    ensures fs.users.Keys <= {1} && Users(fs.users, 1) == 0 && fs.open == {} && fs.committed == [ZERO, MAGIC] && |fs.cache.disk| == 2
    ensures 1 in Pending(fs.queue)
  {
    hide TransFs.Base, TransFs.Valid, TransFs.Restored, BlockCache.View, Ended, EndAll;
    fs := new TransFs(2, [ZERO, ZERO]);
    fs.ValidIsBase();
    fs.WriteBack(true);
    EndNone([], Ended(fs.cache.bufs, fs.open, []));
    Change(fs, MAGIC);
    fs.ValidIsBase();
    assert fs.open == {1} && fs.queue == [];
    fs.Commit();
    assert fs.queue == Enqueued([], {1}, fs.committed);
    assert fs.committed == [ZERO, MAGIC] && fs.queue[0].waiting == {1};
  }

  /**
   A block whose contents begin with the journal's magic number is committed while writing back is delayed, and
   becomes part of the next transaction.  Then the log is flushed, as when that transaction finds it full: until the
   next commit is complete, a recovery finds the block with a zero in place of the magic number.
   */
  method RestoresEscaped() returns (fs: TransFs)
    ensures fresh(fs) && fs.Base() && fs.open == {1} && fs.queue == []
    ensures fs.committed == [ZERO, MAGIC] && fs.Restored() == [ZERO, ZERO]
  {
    hide TransFs.Base, TransFs.Valid, TransFs.Restored, TransFs.Delaying, BlockCache.View, Pending;
    fs := CommitMagic();
    Change(fs, [7]);
    fs.Checkpoint();
    assert Escaped(fs.committed, {1}, {1}, 0) == ZERO && Escape(MAGIC) == ZERO;
  }

  lemma AtMostOne(s: set<nat>, x: nat)
    requires s <= {x}
    ensures |s| <= 1
  {
    assert s == {} || s == {x};
  }
}

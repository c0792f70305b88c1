/**
 Blocks that an open transaction has changed do not reach their places on the disk before the
 transaction is in the log: the reference that the transaction takes keeps the cache from
 writing them.  A committed transaction stays in the log until its blocks are home: the cache
 writes them when it likes, or the log is flushed, and then a block that has become part of a
 later transaction goes home from the log, past the cache.  So the disk with the log replayed
 over it is always the last committed state, but for one case: the copy in the log is escaped,
 and goes home as it is.
 */
module WriteAhead {
  import opened JournalFormat
  import opened BlockCache
  import opened LogQueue

  class TransFs {
    const cache: Cache
    // The blocks that the open transaction has taken a reference on.
    var open: set<nat>
    // The transactions that a recovery would find in the log.
    var queue: seq<Queued>
    ghost var users: map<nat, nat>
    // What readers saw at the last commit.
    ghost var committed: seq<Block>

    constructor (cnt: nat, disk: seq<Block>)
      requires cnt > 0
      ensures Valid() && fresh(cache) && open == {} && queue == [] && users == map[] && committed == disk == cache.disk
      ensures cache.bufs == map[] && cache.cacheWriteBack == 0 && cache.cnt == cnt && cache.Seen() == disk
    {
      var c := new Cache(cnt, disk);
      cache, open, queue, users, committed := c, {}, [], map[], disk;
      new;
      assert Restored() == disk;
    }

    /** The disk after a crash and a recovery. */
    ghost function Restored(): seq<Block>
      reads this, cache`disk
    {
      Replayed(All(queue), cache.disk)
    }

    /** Callbacks may still be due. */
    ghost predicate Sound()
      reads this, cache
    {
      && cache.Valid() && RefsOk(cache.bufs, open, users) && PendOk(cache.bufs, |cache.disk|, open, queue)
      && LogOk(cache.bufs, cache.disk, open, All(queue), Restored())
    }

    ghost predicate Base()
      reads this, cache
    {
      Sound() && Awaited(cache.bufs, open, queue)
    }

    /** Of blocks that have become part of the open transaction since they went home, the home is right. */
    ghost predicate Home()
      reads this, cache`disk
    {
      HomeOk(cache.disk, open, queue, Restored())
    }

    ghost predicate Valid()
      reads this, cache
    {
      Base() && Home() && Restored() == committed
    }

    /**
     A crash at any time, also when some blocks have just been written from the cache, and transactions have left the
     log because theirs were among them: recovery brings back the last committed state, without anything that is open.
     */
    lemma CrashSafe(disk': seq<Block>, done: set<nat>, n: nat)
      requires Valid() && |disk'| == |cache.disk| && n <= |queue|
      requires forall x :: 0 <= x < |disk'| ==> disk'[x] == cache.disk[x] || (disk'[x] == cache.Seen()[x] && x !in open)
      requires forall x :: x in done ==> x !in open && x < |disk'| && disk'[x] == cache.Seen()[x]
      requires forall k :: 0 <= k < n ==> queue[k].waiting <= done
      ensures Replayed(All(queue[n..]), disk') == committed
    {
      hide View, Cache.Valid, All, Pending, RefsOk;
      forall x: nat | x < |disk'| ensures Replayed(All(queue[n..]), disk')[x] == committed[x] {
        QueueSplit(queue, n, x);
        assert x !in open ==> cache.Seen()[x] == committed[x];
        if x !in All(queue[n..]) && x !in done {
          assert x !in Pending(queue);
          if x !in open {
            AtHome(cache.bufs, cache.disk, open, queue, committed, x);
          } else {
            assert x in All(queue) || cache.disk[x] == committed[x];
          }
        }
      }
    }

    /** No buffer asks to be written at once, or to be dropped. */
    ghost predicate Plain()
      reads cache
    {
      Unmarked(cache.bufs)
    }

    /** Writing back is delayed, and no buffer asks to be written at once. */
    ghost predicate Delaying()
      reads cache
    {
      cache.cacheWriteBack > 0 && Plain()
    }

    /** jbd_trans_end_write for every block that the cache has written since. */
    method Callbacks()
      requires Sound()
      modifies this`queue
      ensures Base() && Restored() == old(Restored()) && (old(Home()) ==> Home())
      ensures queue == EndAll(old(queue), Ended(cache.bufs, open, old(queue))) && All(queue) == All(old(queue))
      ensures forall x :: x in open ==> (x in Pending(queue) <==> x in Pending(old(queue)))
      ensures Awaited(cache.bufs, open, old(queue)) ==> queue == old(queue)
    {
      hide Cache.Valid, RefsOk, LogOk, All, Pending, QueueOk, HomeOk;
      ghost var q := queue;
      EndedOk(cache.bufs, |cache.disk|, open, queue);
      if Awaited(cache.bufs, open, queue) {
        EndNone(queue, Ended(cache.bufs, open, queue));
      }
      queue := EndAll(queue, Ended(cache.bufs, open, queue));
      if old(Home()) {
        HomeKept(cache.disk, cache.disk, open, q, queue, Restored());
      }
    }

    /** ext4_trans_block_get */
    method Get(lba: nat) returns (err: Error, data: Block)
      requires Base()
      modifies this`queue, this`users, cache
      ensures Base() && Restored() == old(Restored()) && (old(Valid()) ==> Valid()) && cache.Seen() == old(cache.Seen())
      ensures forall x :: x in open ==> x < |cache.disk| == |old(cache.disk)| && cache.disk[x] == old(cache.disk)[x]
      ensures queue == EndAll(old(queue), Ended(cache.bufs, open, old(queue)))
      ensures err == EOK <==> lba < |cache.disk|
      ensures err == EOK ==> data == cache.Seen()[lba] && users == old(users)[lba := Users(old(users), lba) + 1]
      ensures err != EOK ==> users == old(users)
      ensures old(Delaying()) && |old(cache.bufs)| < cache.cnt ==>
        Delaying() && queue == old(queue) && cache.disk == old(cache.disk) && cache.bufs.Keys <= old(cache.bufs.Keys) + {lba}
      ensures old(Plain()) ==> Plain()
    {
      hide Unmarked, Cache.Valid, RefsOk, LogOk, PendOk, Awaited, HomeOk, Ended, EndAll, Restored;
      err, data := GetOne(lba);
      Callbacks();
    }

    method GetOne(lba: nat) returns (err: Error, data: Block)
      requires Base()
      modifies this`users, cache
      ensures Sound() && Restored() == old(Restored()) && (old(Home()) ==> Home()) && cache.Seen() == old(cache.Seen())
      ensures forall x :: x in open ==> x < |cache.disk| == |old(cache.disk)| && cache.disk[x] == old(cache.disk)[x]
      ensures err == EOK <==> lba < |cache.disk|
      ensures err == EOK ==> data == cache.Seen()[lba] && users == old(users)[lba := Users(old(users), lba) + 1]
      ensures err != EOK ==> users == old(users)
      ensures old(Delaying()) && |old(cache.bufs)| < cache.cnt ==> Delaying() && Awaited(cache.bufs, open, queue)
      ensures old(Delaying()) && |old(cache.bufs)| < cache.cnt ==>
        cache.disk == old(cache.disk) && cache.bufs.Keys <= old(cache.bufs.Keys) + {lba}
      ensures old(Plain()) ==> Plain()
    {
      hide Unmarked, Cache.Valid, View, RefsOk, LogOk, PendOk, Settled, Awaited, HomeOk, All, Pending, Replayed;
      ghost var bufs, disk, restored := cache.bufs, cache.disk, Restored();
      ghost var mid;
      err, data, mid := cache.Get(lba);
      if Unmarked(bufs) {
        UnmarkedSettled(bufs, disk, mid, cache.disk);
      }
      AllSettled(bufs, disk, mid, cache.disk, open, users, queue, restored);
      if err == EOK {
        OneMoreUser(mid, cache.disk, cache.bufs, open, users, All(queue), restored, lba);
        PendSettled(mid, cache.bufs, |cache.disk|, open, queue);
        users := users[lba := Users(users, lba) + 1];
      }
      if Unmarked(mid) && err == EOK {
        UnmarkedPlus(mid, cache.bufs, lba);
      }
      if mid == bufs {
        AwaitedKept(bufs, cache.bufs, open, queue);
      }
    }

    /** ext4_block_set by a caller that got the block */
    method Put(lba: nat)
      requires Base() && Users(users, lba) > 0 && lba > 0
      modifies this`queue, this`users, cache
      ensures Base() && Restored() == old(Restored()) && (old(Valid()) ==> Valid()) && cache.Seen() == old(cache.Seen())
      ensures forall x :: x in open ==> x < |cache.disk| == |old(cache.disk)| && cache.disk[x] == old(cache.disk)[x]
      ensures queue == EndAll(old(queue), Ended(cache.bufs, open, old(queue)))
      ensures users == old(users)[lba := Users(old(users), lba) - 1]
      ensures old(Delaying()) ==>
        Delaying() && queue == old(queue) && cache.disk == old(cache.disk) && cache.bufs.Keys <= old(cache.bufs.Keys)
      ensures old(Plain()) ==> Plain()
    {
      hide Unmarked, Cache.Valid, RefsOk, LogOk, PendOk, Awaited, HomeOk, Ended, EndAll, Restored;
      PutOne(lba);
      Callbacks();
    }

    method PutOne(lba: nat)
      requires Base() && Users(users, lba) > 0 && lba > 0
      modifies this`users, cache
      ensures Sound() && Restored() == old(Restored()) && (old(Home()) ==> Home()) && cache.Seen() == old(cache.Seen())
      ensures forall x :: x in open ==> x < |cache.disk| == |old(cache.disk)| && cache.disk[x] == old(cache.disk)[x]
      ensures users == old(users)[lba := Users(old(users), lba) - 1]
      ensures old(Delaying()) ==> Delaying() && Awaited(cache.bufs, open, queue)
      ensures old(Delaying()) ==> cache.disk == old(cache.disk) && cache.bufs.Keys <= old(cache.bufs.Keys)
      ensures old(Plain()) ==> Plain()
    {
      hide Unmarked, Cache.Valid, View, LogOk, RefsOk, PendOk, Awaited, HomeOk, All, Pending, Replayed;
      ghost var bufs, disk, restored := cache.bufs, cache.disk, Restored();
      InBufs(bufs, open, users, lba);
      if lba in open {
        Pinned(bufs, open, users, lba);
      }
      OpenInDisk(bufs, disk, open, users, All(queue), restored);
      PutBack(lba);
      StaysPlain(bufs, lba);
      users := users[lba := Users(users, lba) - 1];
      if old(Delaying()) {
        AwaitedKept(bufs, cache.bufs, open, queue);
      }
      OneLessRef(bufs, cache.bufs, open, open, old(users), users, lba);
      if lba in open {
        LogSameDisk(bufs, cache.bufs, disk, open, All(queue), restored, lba);
      } else {
        SeenCommitted(bufs, disk, open, All(queue), restored, lba);
        LogReleased(bufs, disk, cache.bufs, cache.disk, open, open, All(queue), restored, lba);
        assert open - {lba} == open;
      }
      PendSettled(bufs, cache.bufs, |disk|, open, queue);
      ReplaySame(cache.bufs, cache.disk, open, All(queue), restored);
      if old(Home()) {
        HomeKept(disk, cache.disk, open, queue, queue, restored);
      }
    }

    /** ext4_block_set: a reference is given back. */
    method PutBack(lba: nat)
      requires cache.Valid() && lba in cache.bufs && cache.bufs[lba].refctr > 0 && lba > 0
      modifies cache`bufs, cache`lruRoot, cache`dirtyList, cache`disk
      ensures cache.Valid() && cache.Seen() == old(cache.Seen()) && cache.bufs - {lba} == old(cache.bufs) - {lba}
      ensures lba < |old(cache.disk)|
      ensures cache.disk == old(cache.disk) || cache.disk == old(cache.disk)[lba := old(cache.Seen())[lba]]
      ensures old(cache.bufs)[lba].refctr > 1 ==> cache.disk == old(cache.disk)
      ensures var b := old(cache.bufs)[lba]; b.refctr > 1 ==> cache.bufs == old(cache.bufs)[lba := b.(refctr := b.refctr - 1)]
      ensures lba in cache.bufs ==> cache.bufs[lba].refctr == old(cache.bufs)[lba].refctr - 1
      ensures lba !in cache.bufs ==> old(cache.bufs)[lba].refctr == 1
      ensures forall x :: x in cache.bufs && cache.bufs[x].dirty ==> x in old(cache.bufs) && old(cache.bufs)[x].dirty
      ensures cache.bufs.Keys <= old(cache.bufs.Keys)
      ensures var b := old(cache.bufs)[lba]; b.refctr == 1 && b.dirty ==>
        if cache.cacheWriteBack > 0 && !b.flush && !b.tmp then cache.disk == old(cache.disk)
        else cache.disk == old(cache.disk)[lba := old(cache.Seen())[lba]]
      ensures var b := old(cache.bufs)[lba]; b.refctr == 1 && !b.dirty ==> cache.disk == old(cache.disk)
      ensures lba in cache.bufs ==>
        (cache.bufs[lba].flush ==> old(cache.bufs)[lba].flush) && (cache.bufs[lba].tmp ==> old(cache.bufs)[lba].tmp)
      ensures old(Delaying()) ==> Delaying() && cache.disk == old(cache.disk)
      ensures old(Delaying()) ==> forall x :: x in old(cache.bufs) && old(cache.bufs)[x].dirty ==> x in cache.bufs && cache.bufs[x].dirty
    {
      hide View, CacheOk;
      ghost var bufs := cache.bufs;
      BufIs(cache.bufs, cache.disk, cache.lruRoot, cache.dirtyList, cache.lruCtr, {}, lba);
      cache.BlockSet(lba);
      SameButOne(bufs, cache.bufs, lba);
    }

    /** jbd_trans_set_block_dirty, after the caller wrote data into the buffer that it holds */
    method SetBlockDirty(lba: nat, data: Block)
      requires Base() && Users(users, lba) > 0 && lba > 0
      modifies this`open, cache
      ensures Base() && Restored() == old(Restored()) && (old(Valid()) ==> Valid())
      ensures lba < |cache.disk| && cache.Seen() == old(cache.Seen())[lba := data]
      ensures open == old(open) + {lba} && cache.disk == old(cache.disk)
      ensures cache.bufs.Keys == old(cache.bufs.Keys) && (old(Delaying()) ==> Delaying())
      ensures old(Plain()) ==> Plain()
    {
      hide Unmarked, Cache.Valid, View, RefsOk, LogOk, HomeOk, PendOk, Awaited, All, Pending, Replayed;
      ghost var bufs, restored := cache.bufs, Restored();
      InBufs(bufs, open, users, lba);
      if old(Home()) {
        HomeDirtied(bufs, cache.disk, open, queue, restored, lba);
      }
      if lba !in open {
        cache.IncRef(lba);
      }
      cache.SetDirty(lba, data);
      StaysPlain(bufs, lba);
      open := open + {lba};
      RefsDirtied(bufs, cache.bufs, old(open), users, lba);
      Dirtied(bufs, cache.bufs, cache.disk, old(open), All(queue), restored, lba, data);
      PendDirtied(bufs, cache.bufs, |cache.disk|, old(open), queue, lba);
    }

    /** ext4_block_cache_flush */
    method CacheFlush()
      requires Base()
      modifies this`queue, cache`bufs, cache`dirtyList, cache`disk
      ensures Base() && Restored() == old(Restored()) && (old(Valid()) ==> Valid()) && cache.Seen() == old(cache.Seen())
      ensures forall x :: x in open ==> x < |cache.disk| == |old(cache.disk)| && cache.disk[x] == old(cache.disk)[x]
      ensures queue == EndAll(old(queue), Ended(cache.bufs, open, old(queue)))
      ensures open == {} && (forall x :: Users(users, x) == 0) ==> Pending(queue) == {} && cache.disk == cache.Seen()
      ensures old(Plain()) ==> Plain()
    {
      hide Unmarked, View, RefsOk, LogOk, PendOk, Settled, HomeOk, CacheOk, Awaited, Ended, EndAll, All, Pending, Replayed;
      ghost var bufs, disk := cache.bufs, cache.disk;
      cache.CacheFlush();
      if Unmarked(bufs) {
        UnmarkedSettled(bufs, disk, cache.bufs, cache.disk);
      }
      AllSettled(bufs, disk, cache.bufs, cache.disk, open, users, queue, old(Restored()));
      Callbacks();
      NoneHeld(cache.bufs, open, users, queue);
    }

    /** ext4_block_cache_write_back */
    method WriteBack(on: bool)
      requires Base()
      modifies this`queue, cache`bufs, cache`dirtyList, cache`disk, cache`cacheWriteBack
      ensures Base() && Restored() == old(Restored()) && (old(Valid()) ==> Valid()) && cache.Seen() == old(cache.Seen())
      ensures forall x :: x in open ==> x < |cache.disk| == |old(cache.disk)| && cache.disk[x] == old(cache.disk)[x]
      ensures queue == EndAll(old(queue), Ended(cache.bufs, open, old(queue)))
      ensures on ==> cache.cacheWriteBack == old(cache.cacheWriteBack) + 1 && cache.bufs == old(cache.bufs) && cache.disk == old(cache.disk)
      ensures old(Plain()) ==> Plain()
    {
      hide Unmarked, Cache.Valid, View, RefsOk, LogOk, PendOk, Settled, HomeOk, Awaited, Ended, EndAll, All, Pending, Replayed;
      ghost var bufs, disk := cache.bufs, cache.disk;
      cache.WriteBack(on);
      if Unmarked(bufs) {
        UnmarkedSettled(bufs, disk, cache.bufs, cache.disk);
      }
      AllSettled(bufs, disk, cache.bufs, cache.disk, open, users, queue, old(Restored()));
      Callbacks();
    }

    /**
     jbd_journal_commit_trans: first the whole transaction is in the log, which JournalAtomicity shows to be one step
     as far as recovery can tell; only then jbd_journal_cp_trans drops the references.
     */
    method Commit()
      requires Base()
      modifies this, cache
      ensures Valid() && open == {} && committed == cache.Seen() == old(cache.Seen()) && users == old(users)
      ensures var q := Enqueued(old(queue), old(open), committed);
              && queue == EndAll(q, Ended(cache.bufs, {}, q))
              && (old(Delaying()) ==> Delaying() && queue == q && cache.disk == old(cache.disk) && cache.bufs.Keys <= old(cache.bufs.Keys))
      ensures old(Plain()) ==> Plain()
    {
      hide Unmarked, Cache.Valid, View, LogOk, RefsOk, PendOk, Awaited, HomeOk, All, Pending, Ended, EndAll, Replayed, Enqueued, Copies;
      Entered(cache.bufs, cache.disk, open, users, queue, Restored());
      OpenInDisk(cache.bufs, cache.disk, open, users, All(queue), Restored());
      EnqueuedIs(cache.bufs, cache.disk, open, users, queue);
      committed := cache.Seen();
      if open != {} {
        queue := queue + [Queued(Copies(cache.bufs, open), open)];
      }
      while open != {}
        invariant Sound() && users == old(users) && Restored() == committed == cache.Seen() == old(cache.Seen())
        invariant queue == Enqueued(old(queue), old(open), committed) && open <= Pending(queue)
        invariant old(Delaying()) ==> Delaying() && cache.disk == old(cache.disk) && cache.bufs.Keys <= old(cache.bufs.Keys)
        invariant old(Delaying()) ==> Awaited(cache.bufs, {}, queue)
        invariant old(Plain()) ==> Plain()
        decreases open
      {
        var lba :| lba in open;
        CommitOne(lba);
      }
      Callbacks();
      NothingOpen(cache.disk, queue, Restored());
    }

    method CommitOne(lba: nat)
      requires Sound() && lba in open && open <= Pending(queue) && Restored() == cache.Seen()
      modifies this`open, cache
      ensures Sound() && open == old(open) - {lba} && Restored() == old(Restored()) && cache.Seen() == old(cache.Seen())
      ensures old(Delaying()) ==> Delaying() && cache.disk == old(cache.disk) && cache.bufs.Keys <= old(cache.bufs.Keys)
      ensures old(Delaying()) && old(Awaited(cache.bufs, {}, queue)) ==> Awaited(cache.bufs, {}, queue)
      ensures old(Plain()) ==> Plain()
    {
      hide Unmarked, Cache.Valid, View, LogOk, RefsOk, PendOk, Awaited, All, Pending, Replayed;
      ghost var bufs, disk, restored, open0 := cache.bufs, cache.disk, Restored(), open;
      Pinned(bufs, open, users, lba);
      WaitsInLog(bufs, |disk|, open, queue);
      PutBack(lba);
      StaysPlain(bufs, lba);
      open := open - {lba};
      OneLessRef(bufs, cache.bufs, open0, open, users, users, lba);
      LogReleased(bufs, disk, cache.bufs, cache.disk, open0, open, All(queue), restored, lba);
      PendReleased(bufs, cache.bufs, |disk|, open0, queue, lba);
      ReplaySame(cache.bufs, cache.disk, open, All(queue), restored);
      if old(Delaying()) && old(Awaited(cache.bufs, {}, queue)) {
        AwaitedKept(bufs, cache.bufs, {}, queue);
      }
    }

    /**
     One turn of jbd_journal_flush_trans: the buffer is written if it still belongs to the transaction; if it has become
     part of a later one the copy in the log goes home past the cache.
     */
    method WriteHome(lba: nat, owned: bool, copy: Block)
      requires cache.Valid() && lba in cache.bufs && cache.bufs[lba].dirty && 0 < lba < |cache.disk|
      modifies cache
      ensures cache.Valid() && cache.Seen() == old(cache.Seen()) && cache.bufs - {lba} == old(cache.bufs) - {lba}
      ensures if lba in cache.bufs then cache.bufs[lba].refctr == old(cache.bufs)[lba].refctr else old(cache.bufs)[lba].refctr == 0
      ensures |cache.disk| == |old(cache.disk)| && forall x :: 0 <= x < |cache.disk| && x != lba ==> cache.disk[x] == old(cache.disk)[x]
      ensures owned ==> cache.disk[lba] == cache.Seen()[lba] && !(lba in cache.bufs && cache.bufs[lba].dirty)
      ensures !owned && old(cache.bufs)[lba].refctr > 0 ==> lba in cache.bufs && cache.bufs[lba].dirty && cache.disk[lba] == copy
      ensures old(Plain()) ==> Plain() && (!owned ==> cache.disk[lba] == copy)
    {
      hide CacheOk, View, Unmarked;
      ghost var bufs := cache.bufs;
      ReadyBuf(lba);
      if Unmarked(bufs) {
        UnmarkedAt(bufs, lba);
      }
      var cached := cache.FindGet(lba);
      SameButOne(bufs, cache.bufs, lba);
      if cached && cache.bufs[lba].uptodate && owned {
        NothingListed(cache.bufs, cache.dirtyList, lba);
        assert {} - {lba} == {};
        cache.FlushBuf(lba, {});
      } else {
        cache.WriteDirect(lba, copy);
      }
      if cached {
        ghost var bufs1 := cache.bufs;
        PutBack(lba);
        SameButOne(bufs1, cache.bufs, lba);
      }
      ButOneSame(bufs, cache.bufs, lba);
      if Unmarked(bufs) {
        UnmarkedKept(bufs, cache.bufs, lba);
      }
    }

    lemma ValidIsBase()
      requires Valid()
      ensures Base()
    {
    }

    lemma StaysPlain(bufs: Bufs, lba: nat)
      requires lba in bufs && cache.bufs - {lba} == bufs - {lba}
      requires lba in cache.bufs ==> (cache.bufs[lba].flush ==> bufs[lba].flush) && (cache.bufs[lba].tmp ==> bufs[lba].tmp)
      ensures Unmarked(bufs) ==> Plain()
    {
      if Unmarked(bufs) {
        UnmarkedAt(bufs, lba);
        UnmarkedKept(bufs, cache.bufs, lba);
      }
    }

    lemma SeenSize()
      ensures |cache.Seen()| == |cache.disk|
    {
    }

    lemma HeadCopies()
      requires Base() && queue != []
      ensures queue[0].waiting <= queue[0].copies.Keys
    {
    }

    lemma ReadyBuf(lba: nat)
      requires cache.Valid() && lba in cache.bufs && cache.bufs[lba].dirty
      ensures cache.bufs[lba].uptodate && (cache.cacheWriteBack == 0 ==> cache.dirtyList == [] && cache.bufs[lba].refctr > 0)
    {
      hide CacheOk, View;
      BufIs(cache.bufs, cache.disk, cache.lruRoot, cache.dirtyList, cache.lruCtr, {}, lba);
    }

    method FlushBlock(lba: nat) returns (ghost ended: set<nat>)
      requires Base() && queue != [] && lba in queue[0].waiting
      modifies this`queue, cache
      ensures Base() && Restored() == old(Restored()) && cache.Seen() == old(cache.Seen())
      ensures ended == Ended(cache.bufs, open, HeadWithout(old(queue), lba)) && queue == EndAll(HeadWithout(old(queue), lba), ended)
      ensures All(queue) == All(old(queue)) && ended !! open
      ensures |cache.disk| == |old(cache.disk)| && forall x :: x in open && x < |cache.disk| ==>
        cache.disk[x] == if x == lba then Escape(old(queue)[0].copies[lba]) else old(cache.disk)[x]
      ensures queue != [] && queue[0].waiting == old(queue)[0].waiting - {lba}
      ensures old(Plain()) ==> Plain() && Homed(old(queue), open, cache.Seen(), old(cache.disk), cache.disk, {lba})
    {
      hide Cache.Valid, View, LogOk, RefsOk, PendOk, Awaited, HomeOk, All, Pending, Replayed, Ended, EndAll;
      ghost var bufs, disk, restored, q := cache.bufs, cache.disk, Restored(), queue;
      HeadWaits(bufs, disk, open, queue, users, restored, lba);
      var owned := lba !in open && lba !in All(queue[1..]);
      WriteHome(lba, owned, Escape(queue[0].copies[lba]));
      queue := HeadWithout(queue, lba);
      RefsTouched(bufs, cache.bufs, open, users, lba);
      LogTouched(bufs, disk, cache.bufs, cache.disk, open, All(q), restored, lba);
      HeadDone(bufs, cache.bufs, |disk|, open, q, lba);
      HeadLeft(bufs, cache.bufs, open, q, lba);
      ReplaySame(cache.bufs, cache.disk, open, All(queue), restored);
      ended := Ended(cache.bufs, open, queue);
      EndedClosed(cache.bufs, open, queue);
      EndAllHead(queue, ended);
      Callbacks();
    }

    /** jbd_journal_flush_trans for the oldest transaction */
    method FlushTrans() returns (ghost ended: set<nat>)
      requires Base() && queue != []
      modifies this`queue, cache
      ensures Base() && Restored() == old(Restored()) && cache.Seen() == old(cache.Seen())
      ensures Flushed(old(queue), queue, open, ended) && FlushedDisk(old(queue), old(cache.disk), cache.disk, open)
      ensures old(Plain()) ==> Plain() && Homed(old(queue), open, cache.Seen(), old(cache.disk), cache.disk, old(queue)[0].waiting)
      ensures old(Valid()) ==> (Valid() <==>
        forall x :: x in open && x in old(queue)[0].waiting && x !in All(old(queue)[1..]) ==> !NeedsEscape(old(queue)[0].copies[x]))
    {
      hide Cache.Valid, View, LogOk, RefsOk, Awaited, HomeOk, QueueOk, All, Pending, Replayed, EndAll;
      ghost var disk, q, restored := cache.disk, queue, Restored();
      HeadCopies();
      ended := FlushAll();
      if old(Valid()) {
        FlushedHome(q, queue, disk, cache.disk, open, ended, restored);
      }
    }

    method FlushAll() returns (ghost ended: set<nat>)
      requires Base() && queue != []
      modifies this`queue, cache
      ensures Base() && Restored() == old(Restored()) && cache.Seen() == old(cache.Seen()) && All(queue) == All(old(queue))
      ensures queue == [old(queue)[0].(waiting := {})] + EndAll(old(queue)[1..], ended) && ended !! open
      ensures |cache.disk| == |old(cache.disk)| && forall x :: x in open && x < |cache.disk| ==>
        cache.disk[x] == if x in old(queue)[0].waiting then Escape(old(queue)[0].copies[x]) else old(cache.disk)[x]
      ensures old(Plain()) ==> Plain() && Homed(old(queue), open, cache.Seen(), old(cache.disk), cache.disk, old(queue)[0].waiting)
    {
      hide *;
      ended := {};
      FlushedNone(queue);
      HeadCopies();
      SeenSize();
      HomedNone(queue, open, cache.Seen(), cache.disk);
      while queue[0].waiting != {}
        invariant Base() && Restored() == old(Restored()) && cache.Seen() == old(cache.Seen()) && All(queue) == All(old(queue))
        invariant queue != [] && ended !! open && queue[0].waiting <= old(queue)[0].waiting <= old(queue)[0].copies.Keys
        invariant queue == [old(queue)[0].(waiting := queue[0].waiting)] + EndAll(old(queue)[1..], ended)
        invariant |cache.disk| == |old(cache.disk)| && forall x :: x in open && x < |cache.disk| ==>
          cache.disk[x] == if x in old(queue)[0].waiting - queue[0].waiting then Escape(old(queue)[0].copies[x]) else old(cache.disk)[x]
        invariant old(Plain()) ==>
          Plain() && Homed(old(queue), open, cache.Seen(), old(cache.disk), cache.disk, old(queue)[0].waiting - queue[0].waiting)
        decreases queue[0].waiting
      {
        var lba :| lba in queue[0].waiting;
        ghost var waiting := queue[0].waiting;
        ghost var q, disk := queue, cache.disk;
        ghost var more := FlushBlock(lba);
        if old(Plain()) {
          HomedMore(old(queue), q, open, ended, cache.Seen(), old(cache.disk), disk, cache.disk, lba);
        }
        FlushedMore(old(queue)[0], old(queue)[1..], waiting, ended, lba, more);
        ended := ended + more;
      }
      assert old(queue)[0].waiting - queue[0].waiting == old(queue)[0].waiting;
    }

    /** The oldest transaction leaves the log when nothing of it waits; in the source the callback of its last write does this. */
    method DropHead()
      requires Base() && queue != [] && queue[0].waiting == {}
      modifies this`queue
      ensures Base() && queue == old(queue)[1..] && (old(Valid()) ==> Valid())
      ensures forall x :: 0 <= x < |cache.disk| ==>
        Restored()[x] == if x in open && x in old(queue)[0].copies && x !in All(queue) then cache.disk[x] else old(Restored())[x]
    {
      hide Cache.Valid, View, LogOk, RefsOk, PendOk, Awaited, HomeOk, QueueOk, All, Pending;
      Dropped(cache.bufs, cache.disk, open, queue, Restored());
      DroppedPend(cache.bufs, |cache.disk|, open, queue);
      if Valid() {
        DroppedHome(cache.bufs, cache.disk, open, queue, Restored());
      }
      queue := queue[1..];
    }

    /** jbd_journal_purge_cp_trans, without flushing */
    method PurgeDone() returns (ghost n: nat)
      requires Valid()
      modifies this`queue
      ensures Valid() && n <= |old(queue)| && queue == old(queue)[n..]
      ensures (forall k :: 0 <= k < n ==> old(queue)[k].waiting == {}) && (queue == [] || queue[0].waiting != {})
    {
      hide *;
      n := 0;
      while queue != [] && queue[0].waiting == {}
        invariant Valid() && n <= |old(queue)| && queue == old(queue)[n..]
        invariant forall k :: 0 <= k < n ==> old(queue)[k].waiting == {}
        decreases |queue|
      {
        ValidIsBase();
        DropHead();
        n := n + 1;
      }
    }

    /**
     jbd_journal_purge_cp_trans with flushing, as jbd_journal_stop calls it, and jbd_journal_alloc_block for one
     transaction: afterwards nothing is left in the log.  A block that is open and waited is now at home what the log
     had of it, and so a recovery brings it back escaped.
     */
    method Checkpoint()
      requires Valid()
      modifies this`queue, cache
      ensures Base() && queue == [] && cache.Seen() == old(cache.Seen())
      ensures |Restored()| == |committed| && forall x: nat :: x < |committed| ==>
        Restored()[x] == Escaped(committed, open, Pending(old(queue)), x)
      ensures Valid() <==> forall x :: x in open && x in Pending(old(queue)) && x < |committed| ==> !NeedsEscape(committed[x])
      ensures old(Plain()) ==> Plain()
    {
      hide Unmarked, Cache.Valid, View, RefsOk, LogOk, PendOk, Awaited, HomeOk, QueueOk, All, Pending, Replayed, Halfway, Flushed, FlushedDisk;
      ghost var pending := Pending(queue);
      QueueIsOk();
      HalfwayStart(cache.disk, open, queue, committed);
      while queue != []
        invariant Base() && cache.Seen() == old(cache.Seen()) && Halfway(cache.disk, open, queue, Restored(), committed, pending)
        invariant old(Plain()) ==> Plain()
        decreases |queue|
      {
        CheckpointOne(committed, pending);
      }
      HalfwayEnd(cache.disk, open, Restored(), committed, pending);
    }

    lemma QueueIsOk()
      requires Base()
      ensures QueueOk(queue)
    {
    }

    method CheckpointOne(ghost was: seq<Block>, ghost pending: set<nat>)
      requires Base() && queue != [] && Halfway(cache.disk, open, queue, Restored(), was, pending)
      modifies this`queue, cache
      ensures Base() && |queue| == |old(queue)| - 1 && cache.Seen() == old(cache.Seen())
      ensures Halfway(cache.disk, open, queue, Restored(), was, pending)
      ensures old(Plain()) ==> Plain()
    {
      hide Unmarked, Cache.Valid, View, RefsOk, LogOk, PendOk, Awaited, HomeOk, QueueOk, All, Pending, Replayed, Halfway, FlushedDisk, EndAll;
      ghost var disk, q, restored := cache.disk, queue, Restored();
      QueueIsOk();
      if queue[0].waiting != {} {
        ghost var ended := FlushTrans();
        EndAllIs(q[1..], ended);
        HalfwayFlushed(q, queue, disk, cache.disk, open, ended, restored, was, pending);
      }
      QueueIsOk();
      q := queue;
      DropHead();
      HalfwayDropped(cache.disk, open, q, restored, Restored(), was, pending);
    }
  }
}

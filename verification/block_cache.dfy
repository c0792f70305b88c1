/**
 The block cache and the block device on top of it: buffers with reference counts, the list
 of those that wait to be written, and eviction.  What a reader sees of a block is its dirty
 copy, if it has one, or else the disk.
 */
module BlockCache {
  import opened JournalFormat

  datatype Error = EOK | ENXIO

  /** A buffer; its data means nothing unless it is up to date. */
  datatype Buf = Buf(data: Block, uptodate: bool, dirty: bool, flush: bool, tmp: bool, lruId: nat, refctr: nat, onDirtyList: bool) {
    /** The buffer no longer differs from the disk. */
    function Flushed(): Buf { this.(dirty := false, onDirtyList := false) }

    /** The buffer is no longer valid. */
    function Forgotten(): Buf { this.(uptodate := false, dirty := false, onDirtyList := false) }
  }

  type Bufs = map<nat, Buf>

  /** What readers see. */
  ghost function View(bufs: Bufs, disk: seq<Block>): (v: seq<Block>)
    ensures |v| == |disk|
  {
    seq(|disk|, i requires 0 <= i < |disk| => if i in bufs && bufs[i].dirty then bufs[i].data else disk[i])
  }

  /** One buffer agrees with the disk and with the lists. */
  ghost predicate BufOk(lba: nat, b: Buf, disk: seq<Block>, lru: set<nat>, dirtyList: seq<nat>, lruCtr: nat) {
    && lba < |disk| && (b.dirty ==> b.uptodate) && (b.uptodate && !b.dirty ==> b.data == disk[lba])
    && (lba in lru <==> b.refctr == 0) && (b.onDirtyList <==> lba in dirtyList)
    && (b.onDirtyList ==> b.dirty && b.refctr == 0) && b.lruId <= lruCtr
  }

  /** A dirty buffer that nobody holds waits on the dirty list. */
  predicate Waits(b: Buf) { b.dirty && b.refctr == 0 ==> b.onDirtyList }

  ghost predicate Distinct(s: seq<nat>) { s == [] || (s[0] !in s[1..] && Distinct(s[1..])) }

  function Without(s: seq<nat>, x: nat): seq<nat> {
    if s == [] then [] else if s[0] == x then Without(s[1..], x) else [s[0]] + Without(s[1..], x)
  }

  lemma {:induction false} WithoutOk(s: seq<nat>, x: nat)
    requires Distinct(s)
    ensures Distinct(Without(s, x)) && x !in Without(s, x) && (forall y :: y != x ==> (y in s <==> y in Without(s, x)))
    ensures |Without(s, x)| == |s| - (if x in s then 1 else 0)
  {
    if s != [] {
      WithoutOk(s[1..], x);
      if s[0] == x {
        assert forall y :: y in s <==> y == x || y in s[1..];
      } else {
        var w := Without(s[1..], x);
        assert forall y :: y in [s[0]] + w <==> y == s[0] || y in w;
        assert forall y :: y in s <==> y == s[0] || y in s[1..];
      }
    }
  }

  lemma ViewFlushed(bufs: Bufs, disk: seq<Block>, lba: nat)
    requires lba in bufs && lba < |disk| && bufs[lba].dirty
    ensures View(bufs[lba := bufs[lba].Flushed()], disk[lba := bufs[lba].data]) == View(bufs, disk)
  {
  }

  /** A buffer can go, or change its counters, unless that loses data. */
  lemma ViewSame(bufs: Bufs, bufs': Bufs, disk: seq<Block>)
    requires forall lba :: lba in bufs && bufs[lba].dirty ==> lba in bufs' && bufs'[lba].dirty && bufs'[lba].data == bufs[lba].data
    requires forall lba :: lba in bufs' && bufs'[lba].dirty ==> lba in bufs && bufs[lba].dirty
    ensures View(bufs', disk) == View(bufs, disk)
  {
  }

  /** The whole cache is in order; the buffers in except may wait without being on the dirty list. */
  ghost predicate CacheOk(bufs: Bufs, disk: seq<Block>, lru: set<nat>, dirtyList: seq<nat>, lruCtr: nat, except: set<nat>) {
    && Distinct(dirtyList) && lru <= bufs.Keys && (forall lba :: lba in dirtyList ==> lba in bufs)
    && (forall lba :: lba in bufs ==> BufOk(lba, bufs[lba], disk, lru, dirtyList, lruCtr))
    && (forall lba :: lba in bufs && lba !in except ==> Waits(bufs[lba]))
  }

  function Unlisted(bufs: Bufs, dirtyList: seq<nat>, lba: nat): seq<nat>
    requires lba in bufs
  {
    if bufs[lba].onDirtyList then Without(dirtyList, lba) else dirtyList
  }

  /** A buffer and its places in the lists change together; so may the disk block below it. */
  lemma OkReplace(bufs: Bufs, disk: seq<Block>, lru: set<nat>, dirtyList: seq<nat>, lruCtr: nat, except: set<nat>, lba: nat,
                  b: Buf, data: Block, lru': set<nat>, dirtyList': seq<nat>, lruCtr': nat)
    requires CacheOk(bufs, disk, lru, dirtyList, lruCtr, except) && lba < |disk| && lruCtr <= lruCtr'
    requires BufOk(lba, b, disk[lba := data], lru', dirtyList', lruCtr') && Distinct(dirtyList')
    requires lru' == lru - {lba} + (if b.refctr == 0 then {lba} else {})
    requires forall x :: x != lba ==> (x in dirtyList' <==> x in dirtyList)
    ensures CacheOk(bufs[lba := b], disk[lba := data], lru', dirtyList', lruCtr', if Waits(b) then except - {lba} else except + {lba})
  {
    var bufs', disk' := bufs[lba := b], disk[lba := data];
    forall x | x in bufs'
      ensures BufOk(x, bufs'[x], disk', lru', dirtyList', lruCtr')
    {
      if x != lba {
        assert BufOk(x, bufs[x], disk, lru, dirtyList, lruCtr);
        assert x in lru' <==> x in lru;
      }
    }
  }

  lemma OkUnlisted(bufs: Bufs, disk: seq<Block>, lru: set<nat>, dirtyList: seq<nat>, lruCtr: nat, except: set<nat>, lba: nat,
                   b: Buf, data: Block)
    requires CacheOk(bufs, disk, lru, dirtyList, lruCtr, except) && lba in bufs && lba < |disk|
    requires b.refctr == bufs[lba].refctr && b.lruId <= lruCtr && !b.onDirtyList
    requires (b.dirty ==> b.uptodate) && (b.uptodate && !b.dirty ==> b.data == data)
    ensures CacheOk(bufs[lba := b], disk[lba := data], lru, Unlisted(bufs, dirtyList, lba), lruCtr,
                    if Waits(b) then except - {lba} else except + {lba})
  {
    hide CacheOk;
    BufIs(bufs, disk, lru, dirtyList, lruCtr, except, lba);
    WithoutOk(dirtyList, lba);
    OkReplace(bufs, disk, lru, dirtyList, lruCtr, except, lba, b, data, lru, Unlisted(bufs, dirtyList, lba), lruCtr);
  }

  lemma BufIs(bufs: Bufs, disk: seq<Block>, lru: set<nat>, dirtyList: seq<nat>, lruCtr: nat, except: set<nat>, lba: nat)
    requires CacheOk(bufs, disk, lru, dirtyList, lruCtr, except)
    ensures Distinct(dirtyList)
    ensures lba in bufs ==> BufOk(lba, bufs[lba], disk, lru, dirtyList, lruCtr)
    ensures lba in bufs && lba !in except ==> Waits(bufs[lba])
    ensures lba !in bufs ==> lba !in lru && lba !in dirtyList
  {
  }

  /** A block of the disk may change below a buffer that does not claim to agree with it. */
  lemma OkBelow(bufs: Bufs, disk: seq<Block>, lru: set<nat>, dirtyList: seq<nat>, lruCtr: nat, lba: nat, data: Block)
    requires CacheOk(bufs, disk, lru, dirtyList, lruCtr, {}) && lba < |disk|
    requires lba in bufs && bufs[lba].uptodate ==> bufs[lba].dirty
    ensures CacheOk(bufs, disk[lba := data], lru, dirtyList, lruCtr, {})
  {
    var disk' := disk[lba := data];
    forall x | x in bufs ensures BufOk(x, bufs[x], disk', lru, dirtyList, lruCtr) {
      assert BufOk(x, bufs[x], disk, lru, dirtyList, lruCtr);
    }
  }

  /** A buffer that is not dirty, or one that is not wanted any more, leaves the cache. */
  lemma OkDrop(bufs: Bufs, disk: seq<Block>, lru: set<nat>, dirtyList: seq<nat>, lruCtr: nat, except: set<nat>, lba: nat)
    requires CacheOk(bufs, disk, lru, dirtyList, lruCtr, except) && lba in bufs
    ensures CacheOk(bufs - {lba}, disk, lru - {lba}, Unlisted(bufs, dirtyList, lba), lruCtr, except - {lba})
  {
    var bufs', lru', dirtyList' := bufs - {lba}, lru - {lba}, Unlisted(bufs, dirtyList, lba);
    assert BufOk(lba, bufs[lba], disk, lru, dirtyList, lruCtr);
    WithoutOk(dirtyList, lba);
    forall x | x in bufs'
      ensures BufOk(x, bufs'[x], disk, lru', dirtyList', lruCtr)
    {
      assert BufOk(x, bufs[x], disk, lru, dirtyList, lruCtr);
    }
  }

  lemma FlushedDirty(bufs: Bufs, disk: seq<Block>, lru: set<nat>, dirtyList: seq<nat>, lruCtr: nat, except: set<nat>, lba: nat)
    requires CacheOk(bufs, disk, lru, dirtyList, lruCtr, except) && lba in bufs
    ensures lba < |disk| && (bufs[lba].dirty ==> bufs[lba].uptodate)
    ensures var data := View(bufs, disk)[lba];
            && CacheOk(bufs[lba := bufs[lba].Flushed()], disk[lba := data], lru, Unlisted(bufs, dirtyList, lba), lruCtr, except - {lba})
            && View(bufs[lba := bufs[lba].Flushed()], disk[lba := data]) == View(bufs, disk)
            && (bufs[lba].dirty ==> data == bufs[lba].data)
            && (!bufs[lba].dirty ==> bufs[lba].Flushed() == bufs[lba] && disk[lba := data] == disk && Unlisted(bufs, dirtyList, lba) == dirtyList)
  {
    assert BufOk(lba, bufs[lba], disk, lru, dirtyList, lruCtr);
    OkUnlisted(bufs, disk, lru, dirtyList, lruCtr, except, lba, bufs[lba].Flushed(), View(bufs, disk)[lba]);
    if bufs[lba].dirty {
      ViewFlushed(bufs, disk, lba);
    } else {
      assert bufs[lba].Flushed() == bufs[lba];
      assert bufs[lba := bufs[lba]] == bufs;
    }
  }

  lemma LruInBufs(bufs: Bufs, disk: seq<Block>, lru: set<nat>, dirtyList: seq<nat>, lruCtr: nat)
    requires CacheOk(bufs, disk, lru, dirtyList, lruCtr, {})
    ensures lru <= bufs.Keys && forall x :: x in lru ==> bufs[x].refctr == 0
    ensures forall x :: x in bufs ==> x < |disk| && (bufs[x].refctr == 0 ==> x in lru)
  {
    forall x | x in bufs ensures BufOk(x, bufs[x], disk, lru, dirtyList, lruCtr) {}
  }

  lemma {:induction false} LowestExists(bufs: Bufs, lru: set<nat>)
    requires lru != {} && lru <= bufs.Keys
    ensures exists lba :: lba in lru && forall x :: x in lru ==> bufs[lba].lruId <= bufs[x].lruId
    decreases lru
  {
    var y :| y in lru;
    if lru == {y} {
      assert y in lru && forall x :: x in lru ==> bufs[y].lruId <= bufs[x].lruId;
    } else {
      LowestExists(bufs, lru - {y});
      var z :| z in lru - {y} && forall x :: x in lru - {y} ==> bufs[z].lruId <= bufs[x].lruId;
      var w := if bufs[y].lruId <= bufs[z].lruId then y else z;
      assert forall x :: x in lru ==> x == y || x in lru - {y};
      assert w in lru && forall x :: x in lru ==> bufs[w].lruId <= bufs[x].lruId;
    }
  }

  /** The cache wrote some dirty blocks back and dropped some buffers, but touched none that is held. */
  ghost predicate Settled(bufs: Bufs, disk: seq<Block>, bufs': Bufs, disk': seq<Block>) {
    && |disk'| == |disk|
    && (forall x :: 0 <= x < |disk| ==>
          disk'[x] == disk[x] || (disk'[x] == View(bufs, disk)[x] && !(x in bufs && bufs[x].refctr > 0)))
    && (forall x :: x in bufs' ==> x in bufs && bufs'[x] == bufs[x].(dirty := bufs'[x].dirty, onDirtyList := bufs'[x].onDirtyList))
    && (forall x :: x in bufs' && bufs'[x].dirty ==> bufs[x] == bufs'[x])
    && (forall x :: x in bufs && bufs[x].refctr > 0 ==> x in bufs' && bufs'[x] == bufs[x])
  }

  lemma SettledNone(bufs: Bufs, disk: seq<Block>)
    ensures Settled(bufs, disk, bufs, disk)
  {
  }

  lemma SettledDrop(bufs0: Bufs, disk0: seq<Block>, bufs: Bufs, disk: seq<Block>, lba: nat)
    requires Settled(bufs0, disk0, bufs, disk) && View(bufs, disk) == View(bufs0, disk0)
    requires lba in bufs && bufs[lba].refctr == 0 && lba < |disk|
    ensures Settled(bufs0, disk0, bufs - {lba}, disk[lba := View(bufs, disk)[lba]])
    ensures Settled(bufs0, disk0, bufs[lba := bufs[lba].Flushed()], disk[lba := View(bufs, disk)[lba]])
  {
    hide View;
  }

  /** Every other buffer was taken earlier. */
  ghost predicate Newest(bufs: Bufs, lba: nat) { lba in bufs && forall x :: x in bufs && x != lba ==> bufs[x].lruId < bufs[lba].lruId }

  lemma NewestOf(bufs: Bufs, disk: seq<Block>, lru: set<nat>, dirtyList: seq<nat>, lruCtr: nat, lba: nat, b: Buf)
    requires CacheOk(bufs, disk, lru, dirtyList, lruCtr, {}) && b.lruId > lruCtr
    ensures Newest(bufs[lba := b], lba)
  {
    forall x | x in bufs ensures BufOk(x, bufs[x], disk, lru, dirtyList, lruCtr) {}
  }

  lemma NewestRefilled(bufs: Bufs, lba: nat, b: Buf)
    requires lba in bufs && b.lruId == bufs[lba].lruId
    ensures Newest(bufs[lba := b], lba) <==> Newest(bufs, lba)
  {
    var bufs' := bufs[lba := b];
    assert forall x :: x in bufs && x != lba ==> x in bufs' && bufs'[x] == bufs[x];
  }

  lemma NothingListed(bufs: Bufs, dirtyList: seq<nat>, lba: nat)
    requires lba in bufs
    ensures dirtyList == [] ==> Unlisted(bufs, dirtyList, lba) == []
  {
  }

  /** Some buffers went, to the disk if they were dirty, and none that was used later than one that is still here without being held. */
  ghost predicate Evicted(bufs0: Bufs, disk0: seq<Block>, bufs: Bufs, disk: seq<Block>, lru: set<nat>) {
    && bufs.Keys <= bufs0.Keys && (forall x :: x in bufs ==> bufs[x] == bufs0[x]) && |disk| == |disk0|
    && (forall x, y :: x in lru && x in bufs && y in bufs0 && y !in bufs ==> bufs0[y].lruId <= bufs[x].lruId)
    && forall x :: 0 <= x < |disk| ==> disk[x] == if x in bufs0 && x !in bufs && bufs0[x].dirty then bufs0[x].data else disk0[x]
  }

  lemma NoneEvicted(bufs: Bufs, disk: seq<Block>, lru: set<nat>)
    ensures Evicted(bufs, disk, bufs, disk, lru)
  {
  }

  lemma OneEvicted(bufs0: Bufs, disk0: seq<Block>, bufs: Bufs, disk: seq<Block>, lru: set<nat>, lba: nat)
    requires Evicted(bufs0, disk0, bufs, disk, lru) && lba in bufs && lba in lru && lba < |disk|
    requires bufs[lba].refctr == 0 && forall x :: x in lru && x in bufs ==> bufs[lba].lruId <= bufs[x].lruId
    ensures Evicted(bufs0, disk0, bufs - {lba}, disk[lba := View(bufs, disk)[lba]], lru - {lba}) && |bufs - {lba}| == |bufs| - 1
  {
    SeenIs(bufs, disk, lba);
    assert (bufs - {lba}).Keys == bufs.Keys - {lba};
  }

  lemma SeenIs(bufs: Bufs, disk: seq<Block>, lba: nat)
    requires lba in bufs && lba < |disk|
    ensures View(bufs, disk)[lba] == if bufs[lba].dirty then bufs[lba].data else disk[lba]
  {
  }

  lemma Refs(bufs: Bufs, disk: seq<Block>, lru: set<nat>, dirtyList: seq<nat>, lruCtr: nat, lba: nat)
    requires CacheOk(bufs, disk, lru, dirtyList, lruCtr, {}) && lba in bufs && bufs[lba].refctr > 1
    ensures var bufs' := bufs[lba := bufs[lba].(refctr := bufs[lba].refctr - 1)];
            CacheOk(bufs', disk, lru, dirtyList, lruCtr, {}) && View(bufs', disk) == View(bufs, disk)
  {
    hide CacheOk;
    BufIs(bufs, disk, lru, dirtyList, lruCtr, {}, lba);
    var b := bufs[lba].(refctr := bufs[lba].refctr - 1);
    OkReplace(bufs, disk, lru, dirtyList, lruCtr, {}, lba, b, disk[lba], lru, dirtyList, lruCtr);
    assert disk[lba := disk[lba]] == disk && {} - {lba} == {};
    ViewSame(bufs, bufs[lba := b], disk);
  }

  /** The last reference is gone: the buffer may be evicted now, and waits if it is put on the dirty list. */
  lemma Released(bufs: Bufs, disk: seq<Block>, lru: set<nat>, dirtyList: seq<nat>, lruCtr: nat, lba: nat)
    requires CacheOk(bufs, disk, lru, dirtyList, lruCtr, {}) && lba in bufs && bufs[lba].refctr == 1
    ensures var b := bufs[lba].(refctr := 0);
            && CacheOk(bufs[lba := b], disk, lru + {lba}, dirtyList, lruCtr, if b.dirty then {lba} else {})
            && View(bufs[lba := b], disk) == View(bufs, disk)
            && (b.dirty ==>
                  && CacheOk(bufs[lba := b.(onDirtyList := true)], disk, lru + {lba}, [lba] + dirtyList, lruCtr, {})
                  && View(bufs[lba := b.(onDirtyList := true)], disk) == View(bufs, disk))
  {
    hide CacheOk;
    BufIs(bufs, disk, lru, dirtyList, lruCtr, {}, lba);
    var b := bufs[lba].(refctr := 0);
    OkReplace(bufs, disk, lru, dirtyList, lruCtr, {}, lba, b, disk[lba], lru + {lba}, dirtyList, lruCtr);
    assert disk[lba := disk[lba]] == disk && {} - {lba} == {} && {} + {lba} == {lba};
    ViewSame(bufs, bufs[lba := b], disk);
    if b.dirty {
      assert ([lba] + dirtyList)[1..] == dirtyList;
      OkReplace(bufs, disk, lru, dirtyList, lruCtr, {}, lba, b.(onDirtyList := true), disk[lba], lru + {lba}, [lba] + dirtyList, lruCtr);
      ViewSame(bufs, bufs[lba := b.(onDirtyList := true)], disk);
    }
  }

  lemma Unflagged(bufs: Bufs, disk: seq<Block>, lru: set<nat>, dirtyList: seq<nat>, lruCtr: nat, lba: nat)
    requires CacheOk(bufs, disk, lru, dirtyList, lruCtr, {}) && lba in bufs
    ensures var bufs' := bufs[lba := bufs[lba].(flush := false)];
            CacheOk(bufs', disk, lru, dirtyList, lruCtr, {}) && View(bufs', disk) == View(bufs, disk)
  {
    hide CacheOk;
    BufIs(bufs, disk, lru, dirtyList, lruCtr, {}, lba);
    var b := bufs[lba].(flush := false);
    OkReplace(bufs, disk, lru, dirtyList, lruCtr, {}, lba, b, disk[lba], lru, dirtyList, lruCtr);
    assert disk[lba := disk[lba]] == disk && {} - {lba} == {};
    ViewSame(bufs, bufs[lba := b], disk);
  }

  lemma ViewForgotten(bufs: Bufs, disk: seq<Block>, lba: nat, b: Buf)
    requires !b.dirty && lba < |disk|
    ensures View(bufs[lba := b], disk) == View(bufs, disk)[lba := disk[lba]]
  {
  }

  lemma NotCached(bufs: Bufs, disk: seq<Block>, lba: nat)
    requires lba !in bufs
    ensures lba < |disk| ==> View(bufs, disk)[lba] == disk[lba]
  {
  }

  lemma Listed(bufs: Bufs, disk: seq<Block>, lru: set<nat>, dirtyList: seq<nat>, lruCtr: nat, lba: nat)
    requires CacheOk(bufs, disk, lru, dirtyList, lruCtr, {}) && lba in dirtyList
    ensures lba in bufs && lba < |disk| && bufs[lba].onDirtyList && bufs[lba].refctr == 0 && Distinct(dirtyList)
  {
    assert BufOk(lba, bufs[lba], disk, lru, dirtyList, lruCtr);
  }

  lemma SameSize(bufs0: Bufs, disk0: seq<Block>, bufs: Bufs, disk: seq<Block>)
    requires Settled(bufs0, disk0, bufs, disk)
    ensures |disk| == |disk0|
  {
  }

  /** With nothing on the dirty list only held buffers differ from the disk. */
  lemma AllClean(bufs: Bufs, disk: seq<Block>, lru: set<nat>, lruCtr: nat)
    requires CacheOk(bufs, disk, lru, [], lruCtr, {})
    ensures forall x :: x in bufs && bufs[x].dirty ==> bufs[x].refctr > 0
    ensures forall x :: x in bufs ==> !bufs[x].onDirtyList
    ensures (forall x :: x in bufs ==> bufs[x].refctr == 0) ==> View(bufs, disk) == disk
  {
    forall x | x in bufs ensures BufOk(x, bufs[x], disk, lru, [], lruCtr) && Waits(bufs[x]) {}
  }

  class Cache {
    const cnt: nat
    var bufs: Bufs
    var lruRoot: set<nat>
    var dirtyList: seq<nat>
    var lruCtr: nat
    var dontShake: bool
    var cacheWriteBack: nat
    var disk: seq<Block>

    constructor (cnt: nat, disk: seq<Block>)
      requires cnt > 0
      ensures Valid() && this.disk == disk && bufs == map[] && cacheWriteBack == 0 && !dontShake && Seen() == disk && this.cnt == cnt
    {
      this.cnt := cnt;
      bufs, lruRoot, dirtyList, lruCtr, dontShake, cacheWriteBack, this.disk := map[], {}, [], 0, false, 0, disk;
      new;
      assert Seen() == disk;
    }

    ghost function Seen(): seq<Block>
      reads this`bufs, this`disk
    {
      View(bufs, disk)
    }

    ghost predicate ValidBut(except: set<nat>)
      reads this`bufs, this`lruRoot, this`dirtyList, this`lruCtr, this`disk
    {
      CacheOk(bufs, disk, lruRoot, dirtyList, lruCtr, except)
    }

    ghost predicate Valid()
      reads this`bufs, this`lruRoot, this`dirtyList, this`lruCtr, this`disk, this`cacheWriteBack
    {
      ValidBut({}) && (cacheWriteBack == 0 ==> dirtyList == [])
    }

    /** ext4_bcache_remove_dirty_node */
    method RemoveDirtyNode(lba: nat)
      requires lba in bufs
      modifies this`bufs, this`dirtyList
      ensures bufs == old(bufs)[lba := old(bufs)[lba].(onDirtyList := false)]
      ensures dirtyList == Unlisted(old(bufs), old(dirtyList), lba)
    {
      if bufs[lba].onDirtyList {
        dirtyList := Without(dirtyList, lba);
        bufs := bufs[lba := bufs[lba].(onDirtyList := false)];
      }
    }

    /** ext4_block_flush_buf; the end_write callback is not part of it */
    method FlushBuf(lba: nat, ghost except: set<nat>)
      requires ValidBut(except) && lba in bufs
      modifies this`bufs, this`dirtyList, this`disk
      ensures ValidBut(except - {lba}) && Seen() == old(Seen())
      ensures lba < |old(disk)| && bufs == old(bufs)[lba := old(bufs)[lba].Flushed()] && disk == old(disk)[lba := old(Seen())[lba]]
      ensures dirtyList == Unlisted(old(bufs), old(dirtyList), lba)
    {
      hide CacheOk, View;
      FlushedDirty(bufs, disk, lruRoot, dirtyList, lruCtr, except, lba);
      if bufs[lba].dirty && bufs[lba].uptodate {
        disk := disk[lba := bufs[lba].data];
        RemoveDirtyNode(lba);
        bufs := bufs[lba := bufs[lba].(dirty := false)];
      }
      assert bufs == old(bufs)[lba := old(bufs)[lba].Flushed()] && disk == old(disk)[lba := old(Seen())[lba]];
    }

    /** ext4_blocks_set_direct: the disk is written past the cache, which so must not hold a clean copy. */
    method WriteDirect(lba: nat, data: Block)
      requires Valid() && lba < |disk| && (lba in bufs && bufs[lba].uptodate ==> bufs[lba].dirty)
      modifies this`disk
      ensures Valid() && disk == old(disk)[lba := data]
      ensures Seen() == if lba in bufs && bufs[lba].dirty then old(Seen()) else old(Seen())[lba := data]
    {
      hide CacheOk;
      BufIs(bufs, disk, lruRoot, dirtyList, lruCtr, {}, lba);
      OkBelow(bufs, disk, lruRoot, dirtyList, lruCtr, lba, data);
      disk := disk[lba := data];
      assert Seen() == if lba in bufs && bufs[lba].dirty then old(Seen()) else old(Seen())[lba := data];
    }

    /** ext4_bcache_drop_buf; referenced or dirty buffers are dropped all the same */
    method DropBuf(lba: nat, ghost except: set<nat>)
      requires ValidBut(except) && lba in bufs
      modifies this`bufs, this`lruRoot, this`dirtyList
      ensures ValidBut(except - {lba}) && bufs == old(bufs) - {lba} && lruRoot == old(lruRoot) - {lba}
      ensures dirtyList == Unlisted(old(bufs), old(dirtyList), lba)
      ensures !old(bufs)[lba].dirty ==> Seen() == old(Seen())
    {
      hide CacheOk, View;
      OkDrop(bufs, disk, lruRoot, dirtyList, lruCtr, except, lba);
      BufIs(bufs, disk, lruRoot, dirtyList, lruCtr, except, lba);
      if !bufs[lba].dirty {
        ViewSame(bufs, bufs - {lba}, disk);
      }
      if bufs[lba].refctr == 0 {
        lruRoot := lruRoot - {lba};
      }
      if bufs[lba].dirty {
        RemoveDirtyNode(lba);
      }
      bufs := bufs - {lba};
      assert bufs == old(bufs) - {lba} && lruRoot == old(lruRoot) - {lba};
    }

    /** ext4_bcache_find_get */
    method FindGet(lba: nat) returns (found: bool)
      requires Valid()
      modifies this`bufs, this`lruRoot, this`dirtyList, this`lruCtr
      ensures Valid() && Seen() == old(Seen()) && (found <==> lba in old(bufs))
      ensures !found ==> bufs == old(bufs) && lruRoot == old(lruRoot) && dirtyList == old(dirtyList)
      ensures found ==> bufs.Keys == old(bufs).Keys && bufs == old(bufs)[lba := bufs[lba]] && bufs[lba].refctr == old(bufs)[lba].refctr + 1
      ensures found ==> bufs[lba] == old(bufs)[lba].(refctr := bufs[lba].refctr, lruId := bufs[lba].lruId, onDirtyList := false)
      ensures found ==> if old(bufs)[lba].refctr == 0 then Newest(bufs, lba) else bufs[lba].lruId == old(bufs)[lba].lruId
    {
      hide CacheOk, View, Newest;
      found := lba in bufs;
      BufIs(bufs, disk, lruRoot, dirtyList, lruCtr, {}, lba);
      if found {
        ghost var b0 := bufs[lba];
        if bufs[lba].refctr == 0 {
          lruCtr := lruCtr + 1;
          bufs := bufs[lba := bufs[lba].(lruId := lruCtr)];
          lruRoot := lruRoot - {lba};
          if bufs[lba].dirty {
            RemoveDirtyNode(lba);
          }
        }
        bufs := bufs[lba := bufs[lba].(refctr := bufs[lba].refctr + 1)];
        ghost var b := bufs[lba];
        assert bufs == old(bufs)[lba := b];
        if old(bufs)[lba].refctr == 0 {
          NewestOf(old(bufs), disk, old(lruRoot), old(dirtyList), old(lruCtr), lba, b);
        }
        WithoutOk(old(dirtyList), lba);
        OkReplace(old(bufs), disk, old(lruRoot), old(dirtyList), old(lruCtr), {}, lba, b, disk[lba], lruRoot, dirtyList, lruCtr);
        assert disk[lba := disk[lba]] == disk && {} - {lba} == {};
        ViewSame(old(bufs), bufs, disk);
      }
    }

    /** ext4_bcache_alloc */
    method Alloc(lba: nat) returns (isNew: bool)
      requires Valid() && lba < |disk|
      modifies this`bufs, this`lruRoot, this`dirtyList, this`lruCtr
      ensures Valid() && Seen() == old(Seen()) && (isNew <==> lba !in old(bufs))
      ensures lba in bufs && bufs == old(bufs)[lba := bufs[lba]]
      ensures isNew ==> bufs[lba] == Buf([], false, false, false, false, bufs[lba].lruId, 1, false)
      ensures !isNew ==> bufs[lba] == old(bufs)[lba].(refctr := old(bufs)[lba].refctr + 1, lruId := bufs[lba].lruId, onDirtyList := false)
      ensures if isNew || old(bufs)[lba].refctr == 0 then Newest(bufs, lba) else bufs[lba].lruId == old(bufs)[lba].lruId
    {
      hide CacheOk, View, Newest;
      var found := FindGet(lba);
      if found {
        return false;
      }
      BufIs(bufs, disk, lruRoot, dirtyList, lruCtr, {}, lba);
      ghost var b := Buf([], false, false, false, false, lruCtr + 1, 1, false);
      OkReplace(bufs, disk, lruRoot, dirtyList, lruCtr, {}, lba, b, disk[lba], lruRoot, dirtyList, lruCtr + 1);
      assert disk[lba := disk[lba]] == disk && {} - {lba} == {};
      ViewSame(bufs, bufs[lba := b], disk);
      NewestOf(bufs, disk, lruRoot, dirtyList, lruCtr, lba, b);
      bufs := bufs[lba := Buf([], false, false, false, false, 0, 0, false)];
      bufs := bufs[lba := bufs[lba].(refctr := bufs[lba].refctr + 1)];
      lruCtr := lruCtr + 1;
      bufs := bufs[lba := bufs[lba].(lruId := lruCtr)];
      assert bufs == old(bufs)[lba := b];
      isNew := true;
    }

    /** ext4_buf_lowest_lru */
    method LowestLru() returns (lba: nat)
      requires lruRoot != {} && lruRoot <= bufs.Keys
      ensures lba in lruRoot && forall x :: x in lruRoot ==> bufs[lba].lruId <= bufs[x].lruId
    {
      LowestExists(bufs, lruRoot);
      lba :| lba in lruRoot && forall x :: x in lruRoot ==> bufs[lba].lruId <= bufs[x].lruId;
    }

    /** One turn of ext4_block_cache_shake. */
    method EvictOne() returns (lba: nat)
      requires Valid() && lruRoot != {}
      modifies this`bufs, this`lruRoot, this`dirtyList, this`disk
      ensures Valid() && Seen() == old(Seen())
      ensures lba in old(bufs) && bufs == old(bufs) - {lba} && old(bufs)[lba].refctr == 0
      ensures lba in old(lruRoot) && lruRoot == old(lruRoot) - {lba} && lruRoot <= bufs.Keys
      ensures forall x :: x in old(lruRoot) && x in old(bufs) ==> old(bufs)[lba].lruId <= old(bufs)[x].lruId
      ensures lba < |old(disk)| && disk == old(disk)[lba := old(Seen())[lba]]
    {
      hide CacheOk, View, Distinct;
      LruInBufs(bufs, disk, lruRoot, dirtyList, lruCtr);
      lba := LowestLru();
      BufIs(bufs, disk, lruRoot, dirtyList, lruCtr, {}, lba);
      FlushedDirty(bufs, disk, lruRoot, dirtyList, lruCtr, {}, lba);
      ghost var before := bufs;
      if bufs[lba].dirty {
        FlushBuf(lba, {});
        assert {} - {lba} == {};
      }
      NothingListed(bufs, dirtyList, lba);
      DropBuf(lba, {});
      assert bufs == before - {lba};
      assert {} - {lba} == {};
      LruInBufs(bufs, disk, lruRoot, dirtyList, lruCtr);
    }

    /** ext4_block_cache_shake: the buffers that were not held for longest go until there is room. */
    method Shake()
      requires Valid()
      modifies this
      ensures Valid() && Seen() == old(Seen()) && dontShake == old(dontShake) && cacheWriteBack == old(cacheWriteBack)
      ensures Settled(old(bufs), old(disk), bufs, disk) && Evicted(old(bufs), old(disk), bufs, disk, lruRoot)
      ensures dontShake || |old(bufs)| < cnt ==> bufs == old(bufs) && disk == old(disk)
      ensures !dontShake ==> lruRoot == {} || |bufs| < cnt
      ensures |bufs| + 1 >= cnt || bufs == old(bufs)
    {
      hide CacheOk, View, Distinct, Evicted, Settled, Valid;
      LruInBufs(bufs, disk, lruRoot, dirtyList, lruCtr) by { ValidIs(); }
      NoneEvicted(bufs, disk, lruRoot);
      SettledNone(bufs, disk);
      if dontShake {
        return;
      }
      dontShake := true;
      while lruRoot != {} && cnt <= |bufs|
        invariant Valid() && Seen() == old(Seen()) && cacheWriteBack == old(cacheWriteBack) && lruRoot <= bufs.Keys
        invariant Settled(old(bufs), old(disk), bufs, disk) && Evicted(old(bufs), old(disk), bufs, disk, lruRoot)
        invariant |old(bufs)| < cnt ==> bufs == old(bufs) && disk == old(disk)
        invariant |bufs| + 1 >= cnt || bufs == old(bufs)
        decreases |bufs.Keys|
      {
        ghost var bufs1, disk1, lru1 := bufs, disk, lruRoot;
        var lba := EvictOne();
        OneEvicted(old(bufs), old(disk), bufs1, disk1, lru1, lba);
        SettledDrop(old(bufs), old(disk), bufs1, disk1, lba);
        assert bufs.Keys == bufs1.Keys - {lba};
      }
      dontShake := false;
    }

    lemma ValidIs()
      requires Valid()
      ensures CacheOk(bufs, disk, lruRoot, dirtyList, lruCtr, {}) && (cacheWriteBack == 0 ==> dirtyList == [])
    {
    }

    /** ext4_block_get_noread; mid are the buffers after making room, before this one is taken */
    method GetNoread(lba: nat) returns (err: Error, ghost mid: Bufs)
      requires Valid()
      modifies this
      ensures Valid() && Seen() == old(Seen()) && cacheWriteBack == old(cacheWriteBack) && dontShake == old(dontShake)
      ensures Settled(old(bufs), old(disk), mid, disk) && View(mid, disk) == old(Seen())
      ensures |old(bufs)| < cnt ==> mid == old(bufs) && disk == old(disk)
      ensures err == (if lba < |disk| then EOK else ENXIO)
      ensures err != EOK ==> bufs == mid
      ensures err == EOK ==> lba in bufs && bufs == mid[lba := bufs[lba]] && !bufs[lba].onDirtyList
      ensures err == EOK && lba in mid ==>
        bufs[lba] == mid[lba].(refctr := mid[lba].refctr + 1, lruId := bufs[lba].lruId, onDirtyList := false)
      ensures err == EOK && lba !in mid ==> bufs[lba] == Buf([], false, false, false, false, bufs[lba].lruId, 1, false)
      ensures err == EOK ==> if lba in mid && mid[lba].refctr > 0 then bufs[lba].lruId == mid[lba].lruId else Newest(bufs, lba)
    {
      hide CacheOk, View, Distinct, Settled, Newest;
      mid := bufs;
      SettledNone(bufs, disk);
      if !(lba < |disk|) {
        return ENXIO, mid;
      }
      Shake();
      SameSize(old(bufs), old(disk), bufs, disk);
      mid := bufs;
      var isNew := Alloc(lba);
      err := EOK;
    }

    /** A held buffer changes in place: its lists and its references stay as they are. */
    ghost method Refill(lba: nat, b: Buf)
      requires Valid() && lba in bufs && lba < |disk| && bufs[lba].refctr > 0
      requires b.refctr == bufs[lba].refctr && b.lruId == bufs[lba].lruId && !b.onDirtyList
      requires (b.dirty ==> b.uptodate) && (b.uptodate && !b.dirty ==> b.data == disk[lba])
      ensures CacheOk(bufs[lba := b], disk, lruRoot, dirtyList, lruCtr, {}) && !bufs[lba].onDirtyList
    {
      hide CacheOk;
      BufIs(bufs, disk, lruRoot, dirtyList, lruCtr, {}, lba);
      OkReplace(bufs, disk, lruRoot, dirtyList, lruCtr, {}, lba, b, disk[lba], lruRoot, dirtyList, lruCtr);
      assert disk[lba := disk[lba]] == disk && {} - {lba} == {};
    }

    /** ext4_block_get: the caller gets what readers are to see. */
    method Get(lba: nat) returns (err: Error, data: Block, ghost mid: Bufs)
      requires Valid()
      modifies this
      ensures Valid() && Seen() == old(Seen()) && cacheWriteBack == old(cacheWriteBack) && dontShake == old(dontShake)
      ensures Settled(old(bufs), old(disk), mid, disk) && View(mid, disk) == old(Seen())
      ensures |old(bufs)| < cnt ==> mid == old(bufs) && disk == old(disk)
      ensures err == (if lba < |disk| then EOK else ENXIO)
      ensures err != EOK ==> bufs == mid
      ensures err == EOK ==> lba in bufs && bufs == mid[lba := bufs[lba]] && bufs[lba].uptodate && data == bufs[lba].data == Seen()[lba]
      ensures err == EOK ==> bufs[lba].refctr == (if lba in mid then mid[lba].refctr else 0) + 1
      ensures err == EOK ==> (bufs[lba].dirty <==> lba in mid && mid[lba].dirty)
      ensures err == EOK ==> if lba in mid && mid[lba].refctr > 0 then bufs[lba].lruId == mid[lba].lruId else Newest(bufs, lba)
      ensures err == EOK ==> (bufs[lba].flush <==> lba in mid && mid[lba].flush) && (bufs[lba].tmp <==> lba in mid && mid[lba].tmp)
    {
      hide CacheOk, View, Distinct, Settled, Newest;
      data := [];
      err, mid := GetNoread(lba);
      if err != EOK {
        return;
      }
      SeenIs(bufs, disk, lba);
      BufIs(bufs, disk, lruRoot, dirtyList, lruCtr, {}, lba);
      if bufs[lba].uptodate {
        return EOK, bufs[lba].data, mid;
      }
      Refill(lba, bufs[lba].(data := disk[lba], uptodate := true));
      ViewSame(bufs, bufs[lba := bufs[lba].(data := disk[lba], uptodate := true)], disk);
      NewestRefilled(bufs, lba, bufs[lba].(data := disk[lba], uptodate := true));
      bufs := bufs[lba := bufs[lba].(data := disk[lba], uptodate := true)];
      data := bufs[lba].data;
    }

    /** A holder of the buffer writes data into it and marks it dirty. */
    method SetDirty(lba: nat, data: Block)
      requires Valid() && lba in bufs && bufs[lba].refctr > 0
      modifies this`bufs
      ensures Valid() && lba < |disk| && Seen() == old(Seen())[lba := data]
      ensures bufs == old(bufs)[lba := old(bufs)[lba].(data := data, uptodate := true, dirty := true)]
    {
      hide CacheOk, Distinct;
      BufIs(bufs, disk, lruRoot, dirtyList, lruCtr, {}, lba);
      Refill(lba, bufs[lba].(data := data, uptodate := true, dirty := true));
      bufs := bufs[lba := bufs[lba].(data := data, uptodate := true, dirty := true)];
      assert Seen() == old(Seen())[lba := data];
    }

    /** ext4_bcache_inc_ref, by a holder of the buffer */
    method IncRef(lba: nat)
      requires Valid() && lba in bufs && bufs[lba].refctr > 0
      modifies this`bufs
      ensures Valid() && Seen() == old(Seen()) && bufs == old(bufs)[lba := old(bufs)[lba].(refctr := old(bufs)[lba].refctr + 1)]
    {
      hide CacheOk, View, Distinct;
      BufIs(bufs, disk, lruRoot, dirtyList, lruCtr, {}, lba);
      ghost var b := bufs[lba].(refctr := bufs[lba].refctr + 1);
      OkReplace(bufs, disk, lruRoot, dirtyList, lruCtr, {}, lba, b, disk[lba], lruRoot, dirtyList, lruCtr);
      assert disk[lba := disk[lba]] == disk && {} - {lba} == {};
      ViewSame(bufs, bufs[lba := b], disk);
      bufs := bufs[lba := bufs[lba].(refctr := bufs[lba].refctr + 1)];
    }

    /** ext4_bcache_insert_dirty_node */
    method InsertDirtyNode(lba: nat)
      requires lba in bufs
      modifies this`bufs, this`dirtyList
      ensures bufs == old(bufs)[lba := old(bufs)[lba].(onDirtyList := true)]
      ensures dirtyList == if old(bufs)[lba].onDirtyList then old(dirtyList) else [lba] + old(dirtyList)
    {
      if !bufs[lba].onDirtyList {
        dirtyList := [lba] + dirtyList;
        bufs := bufs[lba := bufs[lba].(onDirtyList := true)];
      }
    }

    /**
     ext4_block_set and ext4_bcache_free: a reference is given back.  With the last one the buffer goes to the
     disk, or waits on the dirty list while writing is delayed; if it is not to stay it leaves the cache.
     */
    method BlockSet(lba: nat)
      requires Valid() && lba in bufs && bufs[lba].refctr > 0 && lba > 0
      modifies this`bufs, this`lruRoot, this`dirtyList, this`disk
      ensures Valid() && Seen() == old(Seen())
      ensures lba < |old(disk)| && (disk == old(disk) || disk == old(disk)[lba := old(Seen())[lba]])
      ensures bufs - {lba} == old(bufs) - {lba}
      ensures old(bufs)[lba].refctr > 1 ==>
        disk == old(disk) && bufs == old(bufs)[lba := old(bufs)[lba].(refctr := old(bufs)[lba].refctr - 1)]
      ensures var b := old(bufs)[lba]; b.refctr == 1 && !b.dirty ==>
        disk == old(disk) && (b.uptodate && !b.tmp ==> bufs == old(bufs)[lba := b.(refctr := 0)])
      ensures var b := old(bufs)[lba]; b.refctr == 1 && b.dirty && !(cacheWriteBack > 0 && !b.flush && !b.tmp) ==>
        && disk == old(disk)[lba := old(Seen())[lba]]
        && (!b.tmp ==> bufs == old(bufs)[lba := b.(refctr := 0, dirty := false, onDirtyList := false, flush := false)])
      ensures lba in bufs <==> !(old(bufs)[lba].refctr == 1 && (!old(bufs)[lba].uptodate || old(bufs)[lba].tmp))
      ensures var b := old(bufs)[lba]; b.refctr == 1 && b.dirty && cacheWriteBack > 0 && !b.flush && !b.tmp ==>
        disk == old(disk) && bufs == old(bufs)[lba := b.(refctr := 0, onDirtyList := true)]
    {
      hide CacheOk, View, Distinct;
      BufIs(bufs, disk, lruRoot, dirtyList, lruCtr, {}, lba);
      SeenIs(bufs, disk, lba);
      ghost var b0 := bufs[lba];
      if bufs[lba].refctr > 1 {
        Refs(bufs, disk, lruRoot, dirtyList, lruCtr, lba);
        bufs := bufs[lba := bufs[lba].(refctr := bufs[lba].refctr - 1)];
        return;
      }
      Released(bufs, disk, lruRoot, dirtyList, lruCtr, lba);
      bufs := bufs[lba := bufs[lba].(refctr := bufs[lba].refctr - 1)];
      lruRoot := lruRoot + {lba};
      assert bufs == old(bufs)[lba := b0.(refctr := 0)];
      if bufs[lba].dirty && bufs[lba].uptodate {
        if cacheWriteBack > 0 && !bufs[lba].flush && !bufs[lba].tmp {
          InsertDirtyNode(lba);
          assert bufs == old(bufs)[lba := b0.(refctr := 0, onDirtyList := true)];
        } else {
          assert {lba} - {lba} == {};
          FlushBuf(lba, {lba});
          Unflagged(bufs, disk, lruRoot, dirtyList, lruCtr, lba);
          bufs := bufs[lba := bufs[lba].(flush := false)];
        }
      }
      if !bufs[lba].uptodate || bufs[lba].tmp {
        NothingListed(bufs, dirtyList, lba);
        assert {} - {lba} == {};
        DropBuf(lba, {});
      }
    }

    /** ext4_block_cache_flush */
    method CacheFlush()
      requires ValidBut({})
      modifies this`bufs, this`dirtyList, this`disk
      ensures ValidBut({}) && Seen() == old(Seen()) && dirtyList == [] && Settled(old(bufs), old(disk), bufs, disk)
      ensures bufs.Keys == old(bufs).Keys
      ensures forall x :: x in bufs ==> bufs[x] == if old(bufs)[x].onDirtyList then old(bufs)[x].Flushed() else old(bufs)[x]
      ensures (forall x :: x in bufs ==> bufs[x].refctr == 0) ==> disk == Seen()
      ensures forall x :: x in bufs && bufs[x].dirty ==> bufs[x].refctr > 0
    {
      hide CacheOk, View, Distinct, Settled;
      SettledNone(bufs, disk);
      while dirtyList != []
        invariant ValidBut({}) && Seen() == old(Seen()) && Settled(old(bufs), old(disk), bufs, disk)
        invariant bufs.Keys == old(bufs).Keys
        invariant forall x :: x in bufs ==> bufs[x] == old(bufs)[x] || (old(bufs)[x].onDirtyList && bufs[x] == old(bufs)[x].Flushed())
        decreases |dirtyList|
      {
        var lba := dirtyList[0];
        Listed(bufs, disk, lruRoot, dirtyList, lruCtr, lba);
        WithoutOk(dirtyList, lba);
        ghost var bufs1, disk1 := bufs, disk;
        FlushBuf(lba, {});
        assert {} - {lba} == {};
        SettledDrop(old(bufs), old(disk), bufs1, disk1, lba);
      }
      AllClean(bufs, disk, lruRoot, lruCtr);
    }

    /** ext4_block_cache_write_back: delaying may be nested; at the end everything that waits is written. */
    method WriteBack(on: bool)
      requires Valid()
      modifies this`bufs, this`dirtyList, this`disk, this`cacheWriteBack
      ensures Valid() && Seen() == old(Seen()) && Settled(old(bufs), old(disk), bufs, disk) && bufs.Keys == old(bufs).Keys
      ensures cacheWriteBack == if on then old(cacheWriteBack) + 1 else if old(cacheWriteBack) > 0 then old(cacheWriteBack) - 1 else 0
      ensures cacheWriteBack > 0 ==> bufs == old(bufs) && disk == old(disk)
      ensures cacheWriteBack == 0 ==>
        forall x :: x in bufs ==> bufs[x] == if old(bufs)[x].onDirtyList then old(bufs)[x].Flushed() else old(bufs)[x]
      ensures cacheWriteBack == 0 && (forall x :: x in old(bufs) ==> old(bufs)[x].refctr == 0) ==> disk == Seen()
    {
      hide CacheOk, View, Settled;
      if on {
        cacheWriteBack := cacheWriteBack + 1;
      }
      if !on && cacheWriteBack > 0 {
        cacheWriteBack := cacheWriteBack - 1;
      }
      if cacheWriteBack > 0 {
        SettledNone(bufs, disk);
        return;
      }
      CacheFlush();
    }

    /** ext4_block_flush_lba */
    method FlushLba(lba: nat)
      requires Valid() && lba > 0
      modifies this`bufs, this`lruRoot, this`dirtyList, this`lruCtr, this`disk
      ensures Valid() && Seen() == old(Seen())
      ensures disk == if lba in old(bufs) && lba < |disk| then old(disk)[lba := Seen()[lba]] else old(disk)
      ensures bufs - {lba} == old(bufs) - {lba}
    {
      hide CacheOk, View, Distinct;
      BufIs(bufs, disk, lruRoot, dirtyList, lruCtr, {}, lba);
      var found := FindGet(lba);
      if found {
        FlushBuf(lba, {});
        assert {} - {lba} == {};
        NothingListed(old(bufs), old(dirtyList), lba);
        SeenIs(bufs, disk, lba);
        BlockSet(lba);
      }
    }

    /** ext4_bcache_invalidate_buf */
    method InvalidateBuf(lba: nat)
      requires Valid() && lba in bufs
      modifies this`bufs, this`dirtyList
      ensures Valid() && lba < |disk| && Seen() == old(Seen())[lba := disk[lba]]
      ensures bufs == old(bufs)[lba := old(bufs)[lba].Forgotten()]
    {
      hide CacheOk, Distinct, View;
      BufIs(bufs, disk, lruRoot, dirtyList, lruCtr, {}, lba);
      ghost var b := bufs[lba].Forgotten();
      ViewForgotten(bufs, disk, lba, b);
      OkUnlisted(bufs, disk, lruRoot, dirtyList, lruCtr, {}, lba, b, disk[lba]);
      NothingListed(bufs, dirtyList, lba);
      if bufs[lba].dirty {
        RemoveDirtyNode(lba);
      }
      bufs := bufs[lba := bufs[lba].(uptodate := false, dirty := false)];
      assert bufs == old(bufs)[lba := b] && disk[lba := disk[lba]] == disk && {} - {lba} == {};
    }

    /** ext4_bcache_invalidate_lba: it starts only from a buffer that lies exactly at from. */
    method InvalidateLba(from: nat, count: nat)
      requires Valid() && from + count > 0
      modifies this`bufs, this`dirtyList
      ensures Valid() && bufs.Keys == old(bufs).Keys
      ensures from !in bufs ==> bufs == old(bufs) && Seen() == old(Seen())
      ensures from in bufs ==>
        forall x :: x in bufs ==> bufs[x] == if from <= x < from + count then old(bufs)[x].Forgotten() else old(bufs)[x]
      ensures from in bufs ==> forall x :: 0 <= x < |disk| ==>
        Seen()[x] == if from <= x < from + count then disk[x] else old(Seen())[x]
      ensures (forall x :: x in bufs && from <= x < from + count ==> !bufs[x].uptodate) <==>
        || from in bufs
        || forall x :: x in bufs && from <= x < from + count ==> !old(bufs)[x].uptodate
    {
      hide CacheOk, View;
      if from !in bufs {
        return;
      }
      for lba := from to from + count
        invariant Valid() && bufs.Keys == old(bufs).Keys
        invariant forall x :: 0 <= x < |disk| ==> Seen()[x] == if from <= x < lba then disk[x] else old(Seen())[x]
        invariant forall x :: x in bufs ==> bufs[x] == if from <= x < lba then old(bufs)[x].Forgotten() else old(bufs)[x]
      {
        if lba in bufs {
          InvalidateBuf(lba);
        } else {
          NotCached(bufs, disk, lba);
        }
      }
    }
  }
}

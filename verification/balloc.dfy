/** The block allocator: group bitmaps, and the free counters of the groups and of the superblock. */
module BlockAllocator {
  import opened Arithmetic
  import opened Bitmap

  datatype Error = EOK | ENOSPC

  const EXT4_INODE_BLOCK_SIZE := 512

  /** The superblock's fields that fix where the groups lie; firstDataBlock is 1 for blocks of 1 KB. */
  datatype Super = Super(blocksCount: nat, blocksPerGroup: nat, firstDataBlock: nat, blockSize: nat) {
    ghost predicate Valid() {
      && blocksCount > 0 && 0 < blocksPerGroup <= 8 * blockSize && firstDataBlock <= 1
    }

    /** ext4_block_group_cnt */
    function GroupCnt(): nat
      requires blocksPerGroup > 0
    {
      blocksCount / blocksPerGroup + if blocksCount % blocksPerGroup != 0 then 1 else 0
    }

    /** ext4_blocks_in_group_cnt */
    function BlocksInGroup(bgid: nat): int
      requires blocksPerGroup > 0
    {
      if bgid < GroupCnt() - 1 then blocksPerGroup else blocksCount - (GroupCnt() - 1) * blocksPerGroup
    }

    function FromFirst(baddr: nat): nat { if firstDataBlock > 0 && baddr > 0 then baddr - 1 else baddr }

    /** ext4_balloc_get_bgid_of_block */
    function BgidOfBlock(baddr: nat): nat
      requires blocksPerGroup > 0
    {
      FromFirst(baddr) / blocksPerGroup
    }

    /** ext4_fs_addr_to_idx_bg */
    function AddrToIdx(baddr: nat): nat
      requires blocksPerGroup > 0
    {
      FromFirst(baddr) % blocksPerGroup
    }

    /** ext4_balloc_get_block_of_bgid */
    function BlockOfBgid(bgid: nat): nat { (if firstDataBlock > 0 then 1 else 0) + bgid * blocksPerGroup }

    /** ext4_fs_bg_idx_to_addr */
    function IdxToAddr(index: nat, bgid: nat): nat {
      blocksPerGroup * bgid + if firstDataBlock > 0 then index + 1 else index
    }

    lemma Groups()
      requires Valid()
      ensures GroupCnt() > 0 && (GroupCnt() - 1) * blocksPerGroup < blocksCount <= GroupCnt() * blocksPerGroup
      ensures forall g :: 0 <= g < GroupCnt() ==> 0 < BlocksInGroup(g) <= blocksPerGroup
    {
      var q, r := blocksCount / blocksPerGroup, blocksCount % blocksPerGroup;
      assert blocksCount == q * blocksPerGroup + r;
      assert (q + 1) * blocksPerGroup == q * blocksPerGroup + blocksPerGroup;
      assert (q - 1) * blocksPerGroup == q * blocksPerGroup - blocksPerGroup;
      if q == 0 {
        assert r == blocksCount;
      }
    }

    /** An index in a group names one block, and the block names the group and the index. */
    lemma AddrRoundTrip(index: nat, bgid: nat)
      requires Valid() && index < blocksPerGroup
      ensures BgidOfBlock(IdxToAddr(index, bgid)) == bgid && AddrToIdx(IdxToAddr(index, bgid)) == index
      ensures AddrToIdx(BlockOfBgid(bgid)) == 0
    {
      DivMod(bgid, index, blocksPerGroup);
      DivMod(bgid, 0, blocksPerGroup);
      assert FromFirst(IdxToAddr(index, bgid)) == bgid * blocksPerGroup + index;
    }

    lemma IdxRoundTrip(baddr: nat)
      requires Valid() && (firstDataBlock > 0 ==> baddr > 0)
      ensures IdxToAddr(AddrToIdx(baddr), BgidOfBlock(baddr)) == baddr
    {
      var n := FromFirst(baddr);
      assert n == blocksPerGroup * (n / blocksPerGroup) + n % blocksPerGroup;
    }

    lemma LastGroup(first: nat, count: nat)
      requires Valid() && count > 0 && (firstDataBlock > 0 ==> first > 0)
      ensures BgidOfBlock(first) <= BgidOfBlock(first + count - 1)
    {
      GroupsInOrder(FromFirst(first), count, blocksPerGroup);
    }

    lemma InGroup(addr: nat, g: nat)
      requires Valid() && g == BgidOfBlock(addr)
      ensures g == FromFirst(addr) / blocksPerGroup && AddrToIdx(addr) == FromFirst(addr) % blocksPerGroup < blocksPerGroup
    {
    }

    /** After one step of freeing the range is done, or the next group begins. */
    lemma NextStep(addr: nat, left: nat, freeCnt: nat, g: nat, last: nat)
      requires Valid() && left > 0 && g == BgidOfBlock(addr) && last == BgidOfBlock(addr + left - 1) && (firstDataBlock > 0 ==> addr > 0)
      requires freeCnt == if left > blocksPerGroup - AddrToIdx(addr) then blocksPerGroup - AddrToIdx(addr) else left
      ensures 0 < freeCnt <= left && FromFirst(addr + freeCnt) == FromFirst(addr) + freeCnt
      ensures if g + 1 <= last then left > freeCnt && BgidOfBlock(addr + freeCnt) == g + 1 && last == BgidOfBlock(addr + freeCnt + (left - freeCnt) - 1)
              else left == freeCnt
    {
      StepOver(FromFirst(addr), left, freeCnt, blocksPerGroup, g, last);
    }

    /** With 1 KB blocks the last group's last index names the block behind the end of the device. */
    lemma LastBlockOfLastGroup()
      requires Valid()
      ensures GroupCnt() > 0 && BlocksInGroup(GroupCnt() - 1) > 0
      ensures IdxToAddr(BlocksInGroup(GroupCnt() - 1) - 1, GroupCnt() - 1) == blocksCount - 1 + firstDataBlock
    {
      Groups();
      assert blocksPerGroup * (GroupCnt() - 1) == (GroupCnt() - 1) * blocksPerGroup;
    }
  }

  // ----- counting -----

  ghost function ClearCount(bmap: seq<bv8>, n: nat): nat
    requires n <= 8 * |bmap|
  {
    if n == 0 then 0 else ClearCount(bmap, n - 1) + if IsSet(bmap, n - 1) then 0 else 1
  }

  ghost function Sum(s: seq<nat>): nat { if s == [] then 0 else s[0] + Sum(s[1..]) }

  lemma {:induction false} SumUpdate(s: seq<nat>, g: nat, v: nat)
    requires g < |s|
    ensures Sum(s[g := v]) == Sum(s) - s[g] + v
  {
    if g == 0 {
      assert s[g := v][1..] == s[1..];
    } else {
      assert s[g := v][1..] == s[1..][g - 1 := v];
      SumUpdate(s[1..], g - 1, v);
    }
  }

  lemma {:induction false} SumZero(s: seq<nat>)
    ensures Sum(s) == 0 <==> forall g :: 0 <= g < |s| ==> s[g] == 0
    ensures forall g :: 0 <= g < |s| ==> s[g] <= Sum(s)
  {
    if s != [] {
      SumZero(s[1..]);
      assert forall g :: 0 < g < |s| ==> s[g] == s[1..][g - 1];
      assert forall g :: 0 <= g < |s[1..]| ==> s[1..][g] == s[g + 1];
    }
  }

  lemma {:induction false} CountSame(a: seq<bv8>, b: seq<bv8>, n: nat)
    requires n <= 8 * |a| && n <= 8 * |b| && forall i :: 0 <= i < n ==> (IsSet(a, i) <==> IsSet(b, i))
    ensures ClearCount(a, n) == ClearCount(b, n)
  {
    hide IsSet;
    if n > 0 {
      CountSame(a, b, n - 1);
    }
  }

  /** Setting a clear bit takes one from the count. */
  lemma {:induction false} CountSet(a: seq<bv8>, b: seq<bv8>, n: nat, bit: nat)
    requires n <= 8 * |a| && |a| == |b| && bit < n && !IsSet(a, bit)
    requires forall i :: 0 <= i < n ==> (IsSet(b, i) <==> i == bit || IsSet(a, i))
    ensures ClearCount(b, n) == ClearCount(a, n) - 1
  {
    hide IsSet;
    if bit == n - 1 {
      CountSame(a, b, n - 1);
    } else {
      CountSet(a, b, n - 1, bit);
    }
  }

  /** Clearing bits that were set adds their number. */
  lemma {:induction false} CountCleared(a: seq<bv8>, b: seq<bv8>, n: nat, lo: nat, hi: nat)
    requires n <= 8 * |a| && lo <= hi && Cleared(a, b, lo, hi)
    requires forall i :: lo <= i < hi && i < n ==> IsSet(a, i)
    ensures ClearCount(b, n) == ClearCount(a, n) + if n <= lo then 0 else if n <= hi then n - lo else hi - lo
  {
    hide IsSet;
    if n > 0 {
      CountCleared(a, b, n - 1, lo, hi);
    }
  }

  lemma {:induction false} CountZero(bmap: seq<bv8>, n: nat)
    requires n <= 8 * |bmap|
    ensures ClearCount(bmap, n) == 0 <==> !AnyClear(bmap, 0, n)
  {
    hide IsSet;
    if n > 0 {
      CountZero(bmap, n - 1);
      if AnyClear(bmap, 0, n) {
        var i :| 0 <= i < n && !IsSet(bmap, i);
        assert i < n - 1 ==> AnyClear(bmap, 0, n - 1);
      } else {
        assert !AnyClear(bmap, 0, n - 1);
      }
    }
  }

  // ----- the allocator -----

  /** Group g's counter says how many of its bits are clear. */
  ghost predicate GroupOk(sb: Super, bitmaps: seq<seq<bv8>>, groupFree: seq<nat>, g: nat)
    requires sb.Valid() && g < sb.GroupCnt() && |bitmaps| == |groupFree| == sb.GroupCnt()
  {
    && |bitmaps[g]| == sb.blockSize && 0 < sb.BlocksInGroup(g) <= 8 * sb.blockSize
    && groupFree[g] == ClearCount(bitmaps[g], sb.BlocksInGroup(g))
  }

  ghost predicate CountersOk(sb: Super, bitmaps: seq<seq<bv8>>, groupFree: seq<nat>, sbFree: nat) {
    && sb.Valid() && sb.GroupCnt() > 0 && |bitmaps| == |groupFree| == sb.GroupCnt()
    && (forall g :: 0 <= g < |bitmaps| ==> GroupOk(sb, bitmaps, groupFree, g)) && sbFree == Sum(groupFree)
  }

  /** One group changed, with its counter and the superblock's. */
  lemma GroupChanged(sb: Super, bitmaps: seq<seq<bv8>>, groupFree: seq<nat>, sbFree: nat, g: nat, bmap: seq<bv8>, free: nat)
    requires CountersOk(sb, bitmaps, groupFree, sbFree) && g < |bitmaps| && |bmap| == sb.blockSize
    requires sb.BlocksInGroup(g) > 0 && free == ClearCount(bmap, sb.BlocksInGroup(g))
    ensures sbFree - groupFree[g] + free >= 0
    ensures CountersOk(sb, bitmaps[g := bmap], groupFree[g := free], sbFree - groupFree[g] + free)
  {
    SumUpdate(groupFree, g, free);
    var bitmaps', groupFree' := bitmaps[g := bmap], groupFree[g := free];
    forall x | 0 <= x < |bitmaps| ensures GroupOk(sb, bitmaps', groupFree', x) {
      assert GroupOk(sb, bitmaps, groupFree, x);
    }
  }

  lemma GroupIs(sb: Super, bitmaps: seq<seq<bv8>>, groupFree: seq<nat>, sbFree: nat, g: nat)
    requires CountersOk(sb, bitmaps, groupFree, sbFree) && g < |bitmaps|
    ensures sb.Valid() && sb.blocksPerGroup > 0 && |groupFree| == |bitmaps| == sb.GroupCnt()
    ensures GroupOk(sb, bitmaps, groupFree, g) && groupFree[g] <= sbFree
    ensures 0 < sb.BlocksInGroup(g) <= 8 * |bitmaps[g]|
    ensures groupFree[g] == 0 <==> !AnyClear(bitmaps[g], 0, sb.BlocksInGroup(g))
  {
    assert GroupOk(sb, bitmaps, groupFree, g);
    SumZero(groupFree);
    CountZero(bitmaps[g], sb.BlocksInGroup(g));
  }

  /** The group that comes k groups behind g, counting round. */
  function RoundTo(g: nat, k: nat, count: nat): nat { if g + k < count then g + k else g + k - count }

  /** Group x is one of the k groups behind g. */
  predicate Among(x: nat, g: nat, k: nat, count: nat) { if x > g then x - g <= k else x + count - g <= k }

  /** Group g' is the first one behind g, g itself last, that has a free block, and index is its first one. */
  ghost predicate InTurn(sb: Super, bitmaps: seq<seq<bv8>>, g: nat, g': nat, index: nat)
    requires sb.blocksPerGroup > 0 && g < |bitmaps| && g' < |bitmaps|
  {
    && index <= 8 * |bitmaps[g']| && AllSet(bitmaps[g'], 0, index)
    && forall x :: 0 <= x < |bitmaps| && (if x > g then x - g else x + |bitmaps| - g) < (if g' > g then g' - g else g' + |bitmaps| - g) ==>
        0 < sb.BlocksInGroup(x) <= 8 * |bitmaps[x]| && !AnyClear(bitmaps[x], 0, sb.BlocksInGroup(x))
  }

  lemma GroupsFull(sb: Super, bitmaps: seq<seq<bv8>>, groupFree: seq<nat>, sbFree: nat, g: nat, k: nat, index: nat)
    requires CountersOk(sb, bitmaps, groupFree, sbFree) && g < |bitmaps| && k < |bitmaps| && |groupFree| == |bitmaps|
    requires forall x :: 0 <= x < |bitmaps| && Among(x, g, k, |bitmaps|) ==> groupFree[x] == 0
    requires var g' := RoundTo(g, k + 1, |bitmaps|); index <= 8 * |bitmaps[g']| && AllSet(bitmaps[g'], 0, index)
    ensures sb.blocksPerGroup > 0 && InTurn(sb, bitmaps, g, RoundTo(g, k + 1, |bitmaps|), index)
  {
    hide CountersOk, AnyClear, AllSet, Super.BlocksInGroup, GroupOk;
    GroupIs(sb, bitmaps, groupFree, sbFree, g);
    forall x | 0 <= x < |bitmaps| && Among(x, g, k, |bitmaps|)
      ensures 0 < sb.BlocksInGroup(x) <= 8 * |bitmaps[x]| && !AnyClear(bitmaps[x], 0, sb.BlocksInGroup(x))
    {
      GroupIs(sb, bitmaps, groupFree, sbFree, x);
    }
  }

  lemma NextGroup(g: nat, k: nat, count: nat)
    requires g < count && k < count
    ensures (RoundTo(g, k, count) + 1) % count == RoundTo(g, k + 1, count) < count
  {
    Remainder(RoundTo(g, k, count) + 1, count);
  }

  lemma Remainder(x: nat, count: nat)
    requires 0 < x <= count
    ensures x % count == if x == count then 0 else x
  {
    if x < count {
      assert x / count == 0;
    }
  }

  lemma NoneFree(sb: Super, bitmaps: seq<seq<bv8>>, groupFree: seq<nat>, sbFree: nat)
    requires CountersOk(sb, bitmaps, groupFree, sbFree)
    ensures sbFree == 0 <==> forall g :: 0 <= g < |groupFree| ==> groupFree[g] == 0
  {
    SumZero(groupFree);
  }

  class Allocator {
    const sb: Super
    var bitmaps: seq<seq<bv8>>
    var groupFree: seq<nat>
    var sbFree: nat
    var inodeBlocks: int

    constructor (sb: Super, bitmaps: seq<seq<bv8>>, groupFree: seq<nat>, sbFree: nat, inodeBlocks: int)
      requires CountersOk(sb, bitmaps, groupFree, sbFree)
      ensures Valid() && this.sb == sb && this.bitmaps == bitmaps && this.groupFree == groupFree && this.sbFree == sbFree
    {
      this.sb, this.bitmaps, this.groupFree, this.sbFree, this.inodeBlocks := sb, bitmaps, groupFree, sbFree, inodeBlocks;
    }

    ghost predicate Valid()
      reads this
    {
      CountersOk(sb, bitmaps, groupFree, sbFree)
    }

    /** ext4_trans_block_get on a bitmap's block */
    method LoadBitmap(bgid: nat) returns (b: array<bv8>)
      requires bgid < |bitmaps|
      ensures fresh(b) && b[..] == bitmaps[bgid]
    {
      var bmap := bitmaps[bgid];
      b := new bv8[|bmap|](i requires 0 <= i < |bmap| => bmap[i]);
    }

    /** The search of ext4_balloc_alloc_block in the goal's group: the first clear bit at idx or behind it. */
    static method SearchGroup(b: array<bv8>, idx: nat, blkInBg: nat) returns (found: bool, bit: nat)
      requires idx < blkInBg <= 8 * b.Length
      ensures found <==> AnyClear(b[..], idx, blkInBg)
      ensures found ==> idx <= bit < blkInBg && !IsSet(b[..], bit) && AllSet(b[..], idx, bit)
    {
      hide IsSet, AllSet, AnyClear, NextByte;
      NoneBehind(b[..], idx, blkInBg);
      NoneSet(b[..], idx);
      RoundedUp(idx);
      if !IsSet(b[..], idx) {
        return true, idx;
      }
      OneSet(b[..], idx, idx);
      var endIdx := (idx + 63) / 64 * 64;
      if endIdx > blkInBg {
        endIdx := blkInBg;
      }
      var tmpIdx := idx + 1;
      while tmpIdx < endIdx
        invariant idx < tmpIdx && (tmpIdx <= endIdx || tmpIdx == idx + 1) && AllSet(b[..], idx, tmpIdx)
      {
        if !IsSet(b[..], tmpIdx) {
          ClearBetween(b[..], idx, tmpIdx, blkInBg);
          return true, tmpIdx;
        }
        OneSet(b[..], idx, tmpIdx);
        tmpIdx := tmpIdx + 1;
      }
      NoneBefore(b[..], idx, Least(NextByte(idx), blkInBg), tmpIdx);
      found, bit := BitFindClr(b, idx, blkInBg);
    }

    /** The bit of group g that stands for a free block is taken; the counters follow. */
    method Take(bgid: nat, b: array<bv8>, bit: nat)
      requires Valid() && bgid < |bitmaps| && b[..] == bitmaps[bgid] && bit < sb.BlocksInGroup(bgid) <= 8 * b.Length
      requires !IsSet(b[..], bit)
      modifies this, b
      ensures Valid() && sbFree == old(sbFree) - 1 && inodeBlocks == old(inodeBlocks) + sb.blockSize / EXT4_INODE_BLOCK_SIZE
      ensures |bitmaps| == |old(bitmaps)| && bitmaps == old(bitmaps)[bgid := bitmaps[bgid]] && |bitmaps[bgid]| == |old(bitmaps)[bgid]|
      ensures forall i :: 0 <= i < 8 * |bitmaps[bgid]| ==> (IsSet(bitmaps[bgid], i) <==> i == bit || IsSet(old(bitmaps)[bgid], i))
    {
      hide IsSet, CountersOk, ClearCount;
      GroupIs(sb, bitmaps, groupFree, sbFree, bgid);
      ghost var before := b[..];
      BitSet(b, bit);
      ghost var n := sb.BlocksInGroup(bgid);
      CountSet(before, b[..], n, bit);
      GroupChanged(sb, bitmaps, groupFree, sbFree, bgid, b[..], ClearCount(b[..], n));
      bitmaps := bitmaps[bgid := b[..]];
      sbFree := sbFree - 1;
      inodeBlocks := inodeBlocks + sb.blockSize / EXT4_INODE_BLOCK_SIZE;
      groupFree := groupFree[bgid := groupFree[bgid] - 1];
    }

    /** Exactly one more bit is set: bit index of group bgid. */
    twostate predicate OneTaken(bgid: nat, index: nat)
      reads this
    {
      && |bitmaps| == |old(bitmaps)| && bgid < |bitmaps| && bitmaps == old(bitmaps)[bgid := bitmaps[bgid]]
      && |bitmaps[bgid]| == |old(bitmaps)[bgid]| && index < 8 * |bitmaps[bgid]| && !IsSet(old(bitmaps)[bgid], index)
      && forall i :: 0 <= i < 8 * |bitmaps[bgid]| ==> (IsSet(bitmaps[bgid], i) <==> i == index || IsSet(old(bitmaps)[bgid], i))
    }

    /** One of the other groups: if it has a free block, the first one is taken. */
    method TryGroup(bgid: nat) returns (found: bool, fblock: nat, ghost index: nat)
      requires Valid() && bgid < |bitmaps|
      modifies this
      ensures Valid() && (found <==> old(groupFree)[bgid] != 0) && (!found ==> unchanged(this))
      ensures sb.Valid() && (found ==> index < sb.BlocksInGroup(bgid) && fblock == sb.IdxToAddr(index, bgid))
      ensures found ==> sbFree == old(sbFree) - 1 && OneTaken(bgid, index)
      ensures found ==> index <= 8 * |old(bitmaps)[bgid]| && AllSet(old(bitmaps)[bgid], 0, index)
      ensures found ==> inodeBlocks == old(inodeBlocks) + sb.blockSize / EXT4_INODE_BLOCK_SIZE
    {
      hide IsSet, CountersOk, ClearCount, Super.Valid;
      found, fblock, index := false, 0, 0;
      GroupIs(sb, bitmaps, groupFree, sbFree, bgid);
      if groupFree[bgid] != 0 {
        var b := LoadBitmap(bgid);
        sb.AddrRoundTrip(0, bgid);
        var idx := sb.AddrToIdx(sb.BlockOfBgid(bgid));
        var bit;
        found, bit := BitFindClr(b, idx, sb.BlocksInGroup(bgid));
        if found {
          Take(bgid, b, bit);
          fblock, index := sb.IdxToAddr(bit, bgid), bit;
        }
      }
    }

    /** The rest of ext4_balloc_alloc_block, when the goal's group has nothing to offer: the other groups in turn. */
    method AllocElsewhere(bgId: nat) returns (err: Error, fblock: nat, ghost bgid': nat, ghost index: nat)
      requires Valid() && bgId < |bitmaps|
      modifies this
      ensures Valid() && sb.Valid() && (err == ENOSPC <==> old(sbFree) == 0)
      ensures err == ENOSPC ==> unchanged(this)
      ensures err == EOK ==> OneTaken(bgid', index) && index < sb.BlocksInGroup(bgid') && fblock == sb.IdxToAddr(index, bgid')
      ensures err == EOK ==> InTurn(sb, old(bitmaps), bgId, bgid', index)
      ensures err == EOK ==> sbFree == old(sbFree) - 1 && inodeBlocks == old(inodeBlocks) + sb.blockSize / EXT4_INODE_BLOCK_SIZE
    {
      hide IsSet, CountersOk, ClearCount, Super.Valid, Super.BlocksInGroup, Super.IdxToAddr, RoundTo, Super.GroupCnt, GroupOk, AnyClear;
      GroupIs(sb, bitmaps, groupFree, sbFree, bgId);
      var groupCount := sb.GroupCnt();
      FirstNext(bgId, groupCount);
      var bgid := (bgId + 1) % groupCount;
      var count := groupCount;
      while count > 0
        invariant 0 <= count <= groupCount && bgid < groupCount && unchanged(this)
        invariant count > 0 ==> bgid == RoundTo(bgId, groupCount - count + 1, groupCount)
        invariant forall g :: 0 <= g < groupCount && Among(g, bgId, groupCount - count, groupCount) ==> groupFree[g] == 0
      {
        var found;
        found, fblock, index := TryGroup(bgid);
        if found {
          SumIs(sb, old(bitmaps), old(groupFree), old(sbFree), bgid);
          GroupsFull(sb, old(bitmaps), old(groupFree), old(sbFree), bgId, groupCount - count, index);
          return EOK, fblock, bgid, index;
        }
        OneMoreAmong(bgId, groupCount - count, groupCount);
        bgid := (bgid + 1) % groupCount;
        count := count - 1;
      }
      NoneFree(sb, bitmaps, groupFree, sbFree);
      err, fblock, bgid', index := ENOSPC, 0, 0, 0;
    }

    /** ext4_balloc_alloc_block, for a goal inside some group; the block is the goal itself if that is free. */
    method AllocBlock(goal: nat) returns (err: Error, fblock: nat, ghost bgid: nat, ghost index: nat)
      requires sb.Valid() && Valid() && GoalIn(goal)
      modifies this
      ensures Valid() && (err == ENOSPC <==> old(sbFree) == 0)
      ensures err == ENOSPC ==> unchanged(this)
      ensures err == EOK ==> OneTaken(bgid, index) && index < sb.BlocksInGroup(bgid) && fblock == sb.IdxToAddr(index, bgid)
      ensures err == EOK ==> sbFree == old(sbFree) - 1 && inodeBlocks == old(inodeBlocks) + sb.blockSize / EXT4_INODE_BLOCK_SIZE
      ensures old(ClearFrom(goal)) ==>
        err == EOK && bgid == sb.BgidOfBlock(goal) && index >= sb.AddrToIdx(goal) && old(SetUpTo(goal, index))
      ensures err == EOK && !old(ClearFrom(goal)) ==> InTurn(sb, old(bitmaps), sb.BgidOfBlock(goal), bgid, index)
      ensures old(ClearAt(goal)) ==> err == EOK && (sb.firstDataBlock > 0 ==> goal > 0) ==> fblock == goal
    {
      hide IsSet, CountersOk, ClearCount, AllSet, AnyClear;
      var bgId, idxInBg := sb.BgidOfBlock(goal), sb.AddrToIdx(goal);
      GroupIs(sb, bitmaps, groupFree, sbFree, bgId);
      NoneBehind(bitmaps[bgId], idxInBg, sb.BlocksInGroup(bgId));
      if groupFree[bgId] != 0 {
        sb.AddrRoundTrip(0, bgId);
        var firstInBgIndex := sb.AddrToIdx(sb.BlockOfBgid(bgId));
        if idxInBg < firstInBgIndex {
          idxInBg := firstInBgIndex;
        }
        var b := LoadBitmap(bgId);
        var found, bit := SearchGroup(b, idxInBg, sb.BlocksInGroup(bgId));
        if found {
          FirstClear(bitmaps[bgId], idxInBg, bit);
          Take(bgId, b, bit);
          if sb.firstDataBlock > 0 ==> goal > 0 {
            sb.IdxRoundTrip(goal);
          }
          return EOK, sb.IdxToAddr(bit, bgId), bgId, bit;
        }
      }
      err, fblock, bgid, index := AllocElsewhere(bgId);
    }

    /** ext4_balloc_free_block, for a block that is in use */
    method FreeBlock(baddr: nat)
      requires sb.Valid() && Valid() && GoalIn(baddr) && !ClearAt(baddr)
      modifies this
      ensures Valid() && sbFree == old(sbFree) + 1 && inodeBlocks == old(inodeBlocks) - sb.blockSize / EXT4_INODE_BLOCK_SIZE
      ensures var g, i := sb.BgidOfBlock(baddr), sb.AddrToIdx(baddr);
              && |bitmaps| == |old(bitmaps)| && bitmaps == old(bitmaps)[g := bitmaps[g]]
              && Cleared(old(bitmaps)[g], bitmaps[g], i, i + 1)
    {
      hide IsSet, CountersOk, ClearCount, Cleared;
      GroupIs(sb, bitmaps, groupFree, sbFree, sb.BgidOfBlock(baddr));
      FreeRange(sb.BgidOfBlock(baddr), sb.AddrToIdx(baddr), 1);
    }

    /** What freeing does in one group: the bits, and all three counters. */
    method FreeRange(bgid: nat, index: nat, freeCnt: nat)
      requires sb.Valid() && Valid() && bgid < |bitmaps| && |bitmaps[bgid]| == sb.blockSize
      requires index + freeCnt <= sb.BlocksInGroup(bgid) <= 8 * |bitmaps[bgid]| && AllSet(bitmaps[bgid], index, index + freeCnt)
      modifies this
      ensures Valid() && sbFree == old(sbFree) + freeCnt
      ensures inodeBlocks == old(inodeBlocks) - freeCnt * (sb.blockSize / EXT4_INODE_BLOCK_SIZE)
      ensures |bitmaps| == |old(bitmaps)| && bitmaps == old(bitmaps)[bgid := bitmaps[bgid]]
      ensures Cleared(old(bitmaps)[bgid], bitmaps[bgid], index, index + freeCnt)
    {
      hide IsSet, CountersOk, ClearCount, Cleared;
      GroupIs(sb, bitmaps, groupFree, sbFree, bgid);
      var b := LoadBitmap(bgid);
      BitsFree(b, index, freeCnt);
      ghost var n := sb.BlocksInGroup(bgid);
      CountCleared(bitmaps[bgid], b[..], n, index, index + freeCnt);
      GroupChanged(sb, bitmaps, groupFree, sbFree, bgid, b[..], ClearCount(b[..], n));
      bitmaps := bitmaps[bgid := b[..]];
      sbFree := sbFree + freeCnt;
      inodeBlocks := inodeBlocks - freeCnt * (sb.blockSize / EXT4_INODE_BLOCK_SIZE);
      groupFree := groupFree[bgid := groupFree[bgid] + freeCnt];
    }

    /** ext4_balloc_free_blocks, for blocks that are in use; they may lie in any number of groups. */
    method FreeBlocks(first: nat, count: nat)
      requires sb.Valid() && Valid() && count > 0 && (sb.firstDataBlock > 0 ==> first > 0)
      requires sb.blocksPerGroup == 8 * sb.blockSize && InUse(sb, bitmaps, sb.FromFirst(first), sb.FromFirst(first) + count)
      modifies this
      ensures Valid() && sbFree == old(sbFree) + count
      ensures inodeBlocks == old(inodeBlocks) - count * (sb.blockSize / EXT4_INODE_BLOCK_SIZE)
      ensures Freed(sb, old(bitmaps), bitmaps, sb.FromFirst(first), sb.FromFirst(first) + count)
    {
      hide IsSet, CountersOk, InUse, Freed, Cleared, Super.BlocksInGroup, Super.BgidOfBlock, Super.AddrToIdx, AllSet, BitNo, Times;
      ghost var lo, unit := sb.FromFirst(first), sb.blockSize / EXT4_INODE_BLOCK_SIZE;
      var bgFirst, bgLast := sb.BgidOfBlock(first), sb.BgidOfBlock(first + count - 1);
      var addr: nat, left: nat := first, count;
      sb.LastGroup(first, count);
      TimesZero(unit);
      NoneFreed(sb, bitmaps, lo);
      while bgFirst <= bgLast
        invariant left <= count && sb.FromFirst(addr) == lo + (count - left) && (sb.firstDataBlock > 0 ==> addr > 0)
        invariant if bgFirst <= bgLast then left > 0 && bgFirst == sb.BgidOfBlock(addr) && bgLast == sb.BgidOfBlock(addr + left - 1) else left == 0
        invariant Valid() && sbFree == old(sbFree) + (count - left) && inodeBlocks == old(inodeBlocks) - Times(count - left, unit)
        invariant Freed(sb, old(bitmaps), bitmaps, lo, sb.FromFirst(addr)) && |bitmaps| == |old(bitmaps)|
        decreases left
      {
        ghost var p := sb.FromFirst(addr);
        sb.InGroup(addr, bgFirst);
        var idxInBgFirst := sb.AddrToIdx(addr);
        var freeCnt := sb.blockSize * 8 - idxInBgFirst;
        freeCnt := if left > freeCnt then freeCnt else left;
        StepInGroup(sb, old(bitmaps), bitmaps, lo, lo + count, p, bgFirst, idxInBgFirst, freeCnt);
        ghost var before := bitmaps;
        FreeRange(bgFirst, idxInBgFirst, freeCnt);
        FreedMore(sb, old(bitmaps), before, bitmaps, lo, p, bgFirst, idxInBgFirst, freeCnt);
        sb.NextStep(addr, left, freeCnt, bgFirst, bgLast);
        Distribute(count - left, freeCnt, unit);
        left := left - freeCnt;
        addr := addr + freeCnt;
        bgFirst := bgFirst + 1;
      }
      assert left == 0;
      TimesIs(count, unit);
    }

    /** The goal lies in a group. */
    ghost predicate GoalIn(goal: nat)
      reads this
      requires sb.Valid()
    {
      var g := sb.BgidOfBlock(goal);
      g < |bitmaps| && sb.AddrToIdx(goal) < sb.BlocksInGroup(g) <= 8 * |bitmaps[g]|
    }

    ghost predicate ClearAt(goal: nat)
      reads this
      requires sb.Valid() && GoalIn(goal)
    {
      !IsSet(bitmaps[sb.BgidOfBlock(goal)], sb.AddrToIdx(goal))
    }

    /** The goal or a block behind it in its group is free. */
    ghost predicate ClearFrom(goal: nat)
      reads this
      requires sb.Valid() && GoalIn(goal)
    {
      var g := sb.BgidOfBlock(goal);
      AnyClear(bitmaps[g], sb.AddrToIdx(goal), sb.BlocksInGroup(g))
    }

    ghost predicate SetUpTo(goal: nat, index: nat)
      reads this
      requires sb.Valid() && GoalIn(goal)
    {
      var g := sb.BgidOfBlock(goal);
      index < 8 * |bitmaps[g]| && AllSet(bitmaps[g], sb.AddrToIdx(goal), index)
    }
  }

  lemma SumIs(sb: Super, bitmaps: seq<seq<bv8>>, groupFree: seq<nat>, sbFree: nat, g: nat)
    requires CountersOk(sb, bitmaps, groupFree, sbFree) && g < |groupFree| && groupFree[g] != 0
    ensures sbFree > 0
  {
    SumZero(groupFree);
  }

  lemma FirstNext(g: nat, count: nat)
    requires g < count
    ensures (g + 1) % count == RoundTo(g, 1, count) < count
  {
    assert g + 1 < count ==> (g + 1) % count == g + 1;
  }

  lemma OneMoreAmong(g: nat, k: nat, count: nat)
    requires g < count && k < count
    ensures forall x :: 0 <= x < count && Among(x, g, k + 1, count) ==> Among(x, g, k, count) || x == RoundTo(g, k + 1, count)
    ensures k + 1 < count ==> (RoundTo(g, k + 1, count) + 1) % count == RoundTo(g, k + 2, count)
    ensures RoundTo(g, k + 1, count) < count
  {
    if k + 1 < count {
      NextGroup(g, k + 1, count);
    }
  }

  lemma FirstClear(bmap: seq<bv8>, idx: nat, bit: nat)
    requires idx <= bit < 8 * |bmap| && AllSet(bmap, idx, bit)
    ensures !IsSet(bmap, idx) ==> bit == idx
  {
    hide IsSet;
  }

  lemma RoundedUp(idx: nat)
    ensures NextByte(idx) <= (idx + 63) / 64 * 64
  {
  }

  lemma ClearBetween(bmap: seq<bv8>, idx: nat, bit: nat, n: nat)
    requires idx <= bit < n <= 8 * |bmap| && !IsSet(bmap, bit)
    ensures AnyClear(bmap, idx, n)
  {
    hide IsSet;
  }

  lemma NoneBefore(bmap: seq<bv8>, idx: nat, n: nat, m: nat)
    requires n <= m <= 8 * |bmap| && AllSet(bmap, idx, m)
    ensures !AnyClear(bmap, idx, n)
  {
    hide IsSet;
  }

  lemma NoneBehind(bmap: seq<bv8>, idx: nat, n: nat)
    requires idx < n <= 8 * |bmap|
    ensures !AnyClear(bmap, 0, n) ==> !AnyClear(bmap, idx, n)
    ensures !IsSet(bmap, idx) ==> AnyClear(bmap, idx, n)
  {
    hide IsSet;
  }

  // ----- ranges over several groups: bit i of group g is number g * blocksPerGroup + i -----

  function BitNo(sb: Super, g: nat, i: nat): nat { g * sb.blocksPerGroup + i }

  /** Bits lo up to hi, counted through all groups, lie in groups and are set. */
  ghost predicate InUse(sb: Super, bitmaps: seq<seq<bv8>>, lo: nat, hi: nat)
    requires sb.Valid()
  {
    && hi <= |bitmaps| * sb.blocksPerGroup
    && forall g: nat, i: nat :: g < |bitmaps| && i < sb.blocksPerGroup && lo <= BitNo(sb, g, i) < hi ==>
         i < sb.BlocksInGroup(g) <= 8 * |bitmaps[g]| && |bitmaps[g]| == sb.blockSize && IsSet(bitmaps[g], i)
  }

  /** Exactly the bits lo up to hi, counted through all groups, were cleared. */
  ghost predicate Freed(sb: Super, before: seq<seq<bv8>>, after: seq<seq<bv8>>, lo: nat, hi: nat) {
    && |after| == |before| && (forall g :: 0 <= g < |before| ==> |after[g]| == |before[g]|)
    && forall g: nat, i: nat :: g < |before| && i < sb.blocksPerGroup && i < 8 * |before[g]| ==>
         (IsSet(after[g], i) <==> IsSet(before[g], i) && !(lo <= BitNo(sb, g, i) < hi))
  }

  lemma NoneFreed(sb: Super, bitmaps: seq<seq<bv8>>, lo: nat)
    ensures Freed(sb, bitmaps, bitmaps, lo, lo)
  {
  }

  lemma GroupsInOrder(lo: nat, count: nat, d: nat)
    requires d > 0 && count > 0
    ensures lo / d <= (lo + count - 1) / d
  {
    var a, b := lo / d, (lo + count - 1) / d;
    assert a * d <= lo < a * d + d && b * d <= lo + count - 1 < b * d + d;
    Multiples(b, a, d);
  }

  function Times(a: nat, unit: nat): nat { a * unit }

  lemma TimesIs(a: nat, unit: nat)
    ensures Times(a, unit) == a * unit
  {
  }

  lemma TimesZero(unit: nat)
    ensures Times(0, unit) == 0
  {
  }

  lemma Distribute(a: nat, b: nat, unit: nat)
    ensures Times(a + b, unit) == Times(a, unit) + b * unit
  {
  }

  /** After the step the range is done, or the next group begins. */
  lemma StepOver(p: nat, left: nat, freeCnt: nat, d: nat, g: nat, last: nat)
    requires d > 0 && left > 0 && g == p / d && last == (p + left - 1) / d
    requires freeCnt == if left > d - p % d then d - p % d else left
    ensures 0 < freeCnt <= left && (p + freeCnt + (left - freeCnt) - 1) / d == last
    ensures if g + 1 <= last then left > freeCnt && (p + freeCnt) / d == g + 1 else left == freeCnt
  {
    var r := p % d;
    assert p == g * d + r;
    if left > d - r {
      assert (g + 1) * d == g * d + d;
      DivMod(g + 1, 0, d);
      QuotientAtLeast(p + left - 1, g + 1, d);
    } else {
      DivMod(g, r + left - 1, d);
    }
  }

  lemma QuotientAtLeast(n: nat, q: nat, d: nat)
    requires d > 0 && q * d <= n
    ensures q <= n / d
  {
    assert n < n / d * d + d;
    Multiples(n / d, q, d);
  }

  /** A bit number between two multiples belongs to one group. */
  lemma GroupOfBit(g: nat, i: nat, h: nat, lo: nat, hi: nat, d: nat)
    requires i < d && lo <= hi <= d
    ensures h * d + lo <= g * d + i < h * d + hi <==> g == h && lo <= i < hi
  {
    Multiples(g, h, d);
    Multiples(h, g, d);
  }

  /** The part of the range that lies in group g is in use and has not been freed yet. */
  lemma StepInGroup(sb: Super, before: seq<seq<bv8>>, bitmaps: seq<seq<bv8>>, lo: nat, hi: nat, p: nat, g: nat, index: nat, freeCnt: nat)
    requires sb.Valid() && sb.blocksPerGroup == 8 * sb.blockSize && InUse(sb, before, lo, hi) && Freed(sb, before, bitmaps, lo, p)
    requires g == p / sb.blocksPerGroup && index == p % sb.blocksPerGroup && lo <= p && p + freeCnt <= hi
    requires 0 < freeCnt && index + freeCnt <= sb.blocksPerGroup
    ensures g < |bitmaps| && |bitmaps[g]| == sb.blockSize
    ensures index + freeCnt <= sb.BlocksInGroup(g) <= 8 * |bitmaps[g]| && AllSet(bitmaps[g], index, index + freeCnt)
  {
    hide IsSet, Super.BlocksInGroup, BitNo;
    GroupBelow(p, |before|, sb.blocksPerGroup);
    NumberIn(sb, p, g, index, freeCnt, index + freeCnt - 1);
    assert IsSet(before[g], index + freeCnt - 1);
    forall i | index <= i < index + freeCnt ensures IsSet(bitmaps[g], i) {
      NumberIn(sb, p, g, index, freeCnt, i);
    }
  }

  lemma GroupBelow(p: nat, n: nat, d: nat)
    requires d > 0 && p < n * d
    ensures p / d < n
  {
    assert p / d * d <= p;
    Multiples(n, p / d, d);
  }

  lemma NumberIn(sb: Super, p: nat, g: nat, index: nat, freeCnt: nat, i: nat)
    requires sb.blocksPerGroup > 0 && g == p / sb.blocksPerGroup && index == p % sb.blocksPerGroup && index <= i < index + freeCnt
    ensures p <= BitNo(sb, g, i) < p + freeCnt
  {
    assert p == g * sb.blocksPerGroup + index;
  }

  lemma FreedMore(sb: Super, before: seq<seq<bv8>>, bitmaps: seq<seq<bv8>>, after: seq<seq<bv8>>, lo: nat, p: nat, g: nat, index: nat, freeCnt: nat)
    requires sb.Valid() && Freed(sb, before, bitmaps, lo, p) && lo <= p
    requires g == p / sb.blocksPerGroup && index == p % sb.blocksPerGroup && index + freeCnt <= sb.blocksPerGroup
    requires g < |bitmaps| == |after| && after == bitmaps[g := after[g]] && Cleared(bitmaps[g], after[g], index, index + freeCnt)
    ensures Freed(sb, before, after, lo, p + freeCnt)
  {
    hide IsSet;
    var d := sb.blocksPerGroup;
    assert p == g * d + index;
    forall h: nat, i: nat | h < |before| && i < d && i < 8 * |before[h]|
      ensures IsSet(after[h], i) <==> IsSet(before[h], i) && !(lo <= BitNo(sb, h, i) < p + freeCnt)
    {
      GroupOfBit(h, i, g, index, index + freeCnt, d);
      assert IsSet(bitmaps[h], i) <==> IsSet(before[h], i) && !(lo <= BitNo(sb, h, i) < p);
    }
  }
}

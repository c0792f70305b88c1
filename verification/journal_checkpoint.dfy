/**
 The checkpoint queue of the journal: which part of the circle is in use, and how finished
 transactions give their blocks back.
 */
module JournalCheckpoint {
  import opened JournalLog

  /** A committed transaction whose blocks are not all home yet; writtenCnt of its dataCnt blocks are. */
  datatype CpTrans = CpTrans(transId: nat, startIblock: nat, allocBlocks: nat, dataCnt: nat, writtenCnt: nat) {
    predicate Complete() { writtenCnt == dataCnt }
  }

  function Total(queue: seq<CpTrans>): nat {
    if queue == [] then 0 else queue[0].allocBlocks + Total(queue[1..])
  }

  /** Where the blocks of the queue's transactions end when those of the first one begin at pos. */
  function End(c: Circle, queue: seq<CpTrans>, pos: nat): nat {
    if queue == [] then pos else End(c, queue[1..], c.Wrap(pos + queue[0].allocBlocks))
  }

  /** The transactions lie one behind the other in the circle from pos on, and their ids follow each other. */
  ghost predicate Chained(c: Circle, queue: seq<CpTrans>, pos: nat, id: nat) {
    queue == [] ||
    (&& queue[0].startIblock == pos && queue[0].transId == id && queue[0].allocBlocks > 0
     && queue[0].writtenCnt <= queue[0].dataCnt
     && Chained(c, queue[1..], c.Wrap(pos + queue[0].allocBlocks), id + 1))
  }

  /** The block that lies j blocks behind block start. */
  function LogBlock(c: Circle, start: nat, j: nat): nat { c.Wrap(start + j) }

  ghost predicate InArc(c: Circle, start: nat, blocks: nat, b: nat) {
    exists j: nat :: j < blocks && b == LogBlock(c, start, j)
  }

  ghost predicate AllComplete(queue: seq<CpTrans>) { forall i :: 0 <= i < |queue| ==> queue[i].Complete() }

  /** One more block of transaction id is home. */
  ghost function Mark(queue: seq<CpTrans>, id: nat): (r: seq<CpTrans>)
    ensures |r| == |queue|
  {
    seq(|queue|, i requires 0 <= i < |queue| =>
      if queue[i].transId == id then queue[i].(writtenCnt := queue[i].writtenCnt + 1) else queue[i])
  }

  ghost function MarkAll(queue: seq<CpTrans>, ids: seq<nat>): (r: seq<CpTrans>)
    ensures |r| == |queue|
  {
    if ids == [] then queue else Mark(MarkAll(queue, ids[..|ids| - 1]), ids[|ids| - 1])
  }

  lemma {:induction false} ChainedAt(c: Circle, queue: seq<CpTrans>, pos: nat, id: nat, k: nat)
    requires Chained(c, queue, pos, id) && k < |queue|
    ensures queue[k].transId == id + k && queue[k].allocBlocks > 0 && queue[k].writtenCnt <= queue[k].dataCnt
  {
    if k > 0 {
      ChainedAt(c, queue[1..], c.Wrap(pos + queue[0].allocBlocks), id + 1, k - 1);
    }
  }

  lemma {:induction false} ChainedSnoc(c: Circle, queue: seq<CpTrans>, pos: nat, id: nat, t: CpTrans)
    requires Chained(c, queue, pos, id) && t.startIblock == End(c, queue, pos) && t.transId == id + |queue|
    requires t.allocBlocks > 0 && t.writtenCnt <= t.dataCnt
    ensures Chained(c, queue + [t], pos, id) && Total(queue + [t]) == Total(queue) + t.allocBlocks
    ensures End(c, queue + [t], pos) == c.Wrap(End(c, queue, pos) + t.allocBlocks)
  {
    if queue == [] {
      assert (queue + [t])[1..] == [];
    } else {
      assert (queue + [t])[1..] == queue[1..] + [t];
      ChainedSnoc(c, queue[1..], c.Wrap(pos + queue[0].allocBlocks), id + 1, t);
    }
  }

  /** A transaction's progress changes nothing about the blocks in use. */
  lemma {:induction false} ChainedUpdate(c: Circle, queue: seq<CpTrans>, pos: nat, id: nat, k: nat, written: nat)
    requires Chained(c, queue, pos, id) && k < |queue| && written <= queue[k].dataCnt
    ensures var q := queue[k := queue[k].(writtenCnt := written)];
            Chained(c, q, pos, id) && Total(q) == Total(queue) && End(c, q, pos) == End(c, queue, pos)
  {
    var q := queue[k := queue[k].(writtenCnt := written)];
    if k > 0 {
      assert q[1..] == queue[1..][k - 1 := queue[1..][k - 1].(writtenCnt := written)];
      ChainedUpdate(c, queue[1..], c.Wrap(pos + queue[0].allocBlocks), id + 1, k - 1, written);
    } else {
      assert q[1..] == queue[1..];
    }
  }

  /** The blocks of the queue in one piece: where it ends, and where transaction k begins. */
  lemma {:induction false} ArcAt(c: Circle, queue: seq<CpTrans>, pos: nat, id: nat, k: nat)
    requires c.Valid() && c.first <= pos < c.maxlen && Chained(c, queue, pos, id) && Total(queue) <= c.Size() && k < |queue|
    ensures Total(queue[..k]) + queue[k].allocBlocks <= Total(queue)
    ensures queue[k].startIblock == c.Wrap(pos + Total(queue[..k]))
  {
    if k > 0 {
      assert queue[..k][1..] == queue[1..][..k - 1];
      ArcAt(c, queue[1..], c.Wrap(pos + queue[0].allocBlocks), id + 1, k - 1);
    }
  }

  lemma {:induction false} EndAt(c: Circle, queue: seq<CpTrans>, pos: nat)
    requires c.Valid() && c.first <= pos < c.maxlen && Total(queue) <= c.Size()
    ensures End(c, queue, pos) == c.Wrap(pos + Total(queue)) && c.first <= End(c, queue, pos) < c.maxlen
  {
    if queue != [] {
      EndAt(c, queue[1..], c.Wrap(pos + queue[0].allocBlocks));
    }
  }

  /** Different distances below the size of the circle are different blocks. */
  lemma DistanceApart(c: Circle, pos: nat, x: nat, j: nat, y: nat, k: nat)
    requires c.Valid() && c.first <= pos < c.maxlen && x + j < y + k < c.Size()
    ensures LogBlock(c, LogBlock(c, pos, x), j) != LogBlock(c, LogBlock(c, pos, y), k)
    ensures c.first <= LogBlock(c, LogBlock(c, pos, y), k) < c.maxlen
  {
  }

  lemma ArcApart(c: Circle, pos: nat, x: nat, blocks: nat, y: nat, k: nat)
    requires c.Valid() && c.first <= pos < c.maxlen && x + blocks <= y + k < c.Size()
    ensures !InArc(c, LogBlock(c, pos, x), blocks, LogBlock(c, LogBlock(c, pos, y), k))
  {
    hide LogBlock;
    forall j: nat | j < blocks ensures LogBlock(c, LogBlock(c, pos, x), j) != LogBlock(c, LogBlock(c, pos, y), k) {
      DistanceApart(c, pos, x, j, y, k);
    }
  }

  /** The block behind the current transaction's lies neither in its own nor in any other transaction's part of the log. */
  lemma Outside(c: Circle, queue: seq<CpTrans>, pos: nat, id: nat, cur: nat)
    requires c.Valid() && c.first <= pos < c.maxlen && Chained(c, queue, pos, id) && Total(queue) + cur < c.Size()
    ensures var b := c.Wrap(End(c, queue, pos) + cur);
            && c.first <= b < c.maxlen && !InArc(c, End(c, queue, pos), cur, b)
            && forall k :: 0 <= k < |queue| ==> !InArc(c, queue[k].startIblock, queue[k].allocBlocks, b)
  {
    hide End, Chained, Total, Circle.Wrap, InArc;
    EndAt(c, queue, pos);
    WrapIn(c, End(c, queue, pos), cur);
    ArcApart(c, pos, Total(queue), cur, Total(queue), cur);
    forall k | 0 <= k < |queue|
      ensures !InArc(c, queue[k].startIblock, queue[k].allocBlocks, c.Wrap(End(c, queue, pos) + cur))
    {
      ArcAt(c, queue, pos, id, k);
      ArcApart(c, pos, Total(queue[..k]), queue[k].allocBlocks, Total(queue), cur);
    }
  }

  lemma WrapIn(c: Circle, pos: nat, n: nat)
    requires c.Valid() && c.first <= pos < c.maxlen && n <= c.Size()
    ensures c.first <= c.Wrap(pos + n) < c.maxlen
  {
  }

  lemma OneMore(c: Circle, queue: seq<CpTrans>, pos: nat, cur: nat)
    requires c.Valid() && c.first <= pos < c.maxlen && Total(queue) + cur < c.Size()
    ensures var b := c.Wrap(End(c, queue, pos) + cur);
            && c.Wrap(b + 1) == c.Wrap(End(c, queue, pos) + cur + 1) && (cur == 0 ==> b == End(c, queue, pos))
            && (c.Wrap(b + 1) == pos <==> Total(queue) + cur + 1 == c.Size())
  {
    EndAt(c, queue, pos);
  }

  lemma NotFull(c: Circle, queue: seq<CpTrans>, pos: nat, cur: nat)
    requires c.Valid() && c.first <= pos < c.maxlen && cur > 0 && Total(queue) + cur < c.Size()
    ensures c.Wrap(End(c, queue, pos) + cur) != pos
  {
    EndAt(c, queue, pos);
  }

  lemma HeadAt(c: Circle, queue: seq<CpTrans>, pos: nat, id: nat)
    requires queue != [] && Chained(c, queue, pos, id) && pos < c.maxlen
    ensures queue[0].startIblock == c.Wrap(queue[0].startIblock) == pos && queue[0].transId == id
    ensures queue[0].writtenCnt <= queue[0].dataCnt
  {
  }

  lemma NothingQueued(c: Circle, pos: nat)
    ensures Total([]) == 0 && End(c, [], pos) == pos
  {
  }

  lemma InPlace(c: Circle, pos: nat)
    requires pos < c.maxlen
    ensures c.Wrap(pos) == pos == c.Wrap(pos + 0)
  {
  }

  lemma NoArc(c: Circle, start: nat, b: nat)
    ensures !InArc(c, start, 0, b)
  {
  }

  lemma {:induction false} TotalSuffix(queue: seq<CpTrans>, n: nat)
    requires n <= |queue|
    ensures Total(queue[n..]) <= Total(queue)
  {
    if n > 0 {
      assert queue[1..][n - 1..] == queue[n..];
      TotalSuffix(queue[1..], n - 1);
    }
  }

  lemma {:induction false} TotalDrops(c: Circle, queue: seq<CpTrans>, pos: nat, id: nat, n: nat)
    requires n <= |queue| && Chained(c, queue, pos, id)
    ensures Total(queue[n..]) + n <= Total(queue)
  {
    if n > 0 {
      assert queue[1..][n - 1..] == queue[n..];
      TotalDrops(c, queue[1..], c.Wrap(pos + queue[0].allocBlocks), id + 1, n - 1);
    }
  }

  ghost predicate Open(queue: seq<CpTrans>, base: nat, id: nat) {
    base <= id < base + |queue| && !queue[id - base].Complete()
  }

  lemma MarkOne(c: Circle, queue: seq<CpTrans>, pos: nat, base: nat, id: nat)
    requires Chained(c, queue, pos, base) && base <= id < base + |queue|
    ensures var t := queue[id - base]; t.transId == id && Mark(queue, id) == queue[id - base := t.(writtenCnt := t.writtenCnt + 1)]
  {
    forall k | 0 <= k < |queue| ensures queue[k].transId == base + k {
      ChainedAt(c, queue, pos, base, k);
    }
  }

  lemma MarkNothing(queue: seq<CpTrans>, id: nat)
    ensures MarkAll(queue, [id]) == Mark(queue, id) && [] + [id] == [id]
  {
    assert [id][..0] == [];
    assert MarkAll(queue, []) == queue;
  }

  lemma NothingMarked(queue: seq<CpTrans>)
    ensures MarkAll(queue, []) == queue && AllComplete(queue[..0]) && queue[0..] == queue
  {
  }

  lemma {:induction false} MarkedIds(queue: seq<CpTrans>, ids: seq<nat>, k: nat)
    requires k < |queue|
    ensures MarkAll(queue, ids)[k].transId == queue[k].transId
    decreases |ids|
  {
    if ids != [] {
      MarkedIds(queue, ids[..|ids| - 1], k);
    }
  }

  /** The transactions that have left the queue have smaller ids. */
  lemma BehindBase(c: Circle, queue: seq<CpTrans>, pos: nat, base: nat, ids: seq<nat>, n: nat)
    requires Chained(c, queue, pos, base) && n <= |queue|
    ensures forall k :: 0 <= k < n ==> MarkAll(queue, ids)[k].transId < base + n
  {
    forall k | 0 <= k < n ensures MarkAll(queue, ids)[k].transId < base + n {
      MarkedIds(queue, ids, k);
      ChainedAt(c, queue, pos, base, k);
    }
  }

  lemma MarkBehind(queue: seq<CpTrans>, id: nat, n: nat, m: nat)
    requires n + m <= |queue| && AllComplete(queue[..n]) && AllComplete(Mark(queue[n..], id)[..m])
    requires forall k :: 0 <= k < n ==> queue[k].transId != id
    ensures Mark(queue[n..], id)[m..] == Mark(queue, id)[n + m..] && AllComplete(Mark(queue, id)[..n + m])
  {
    forall k | 0 <= k < n + m ensures Mark(queue, id)[k].Complete() {
      if k < n {
        assert queue[..n][k].Complete();
      } else {
        assert Mark(queue[n..], id)[..m][k - n].Complete();
      }
    }
  }

  lemma MarkedNext(q0: seq<CpTrans>, older: seq<nat>, i: nat)
    requires i < |older|
    ensures MarkAll(q0, older[..i + 1]) == Mark(MarkAll(q0, older[..i]), older[i])
  {
    hide Mark, MarkAll;
    MarkSnoc(q0, older[..i], older[i]);
    assert older[..i + 1] == older[..i] + [older[i]];
  }

  /** What was marked before some transactions left the queue is what is marked behind them. */
  lemma OneMoreMarked(q0: seq<CpTrans>, older: seq<nat>, i: nat, n: nat, m: nat)
    requires i < |older| && n + m <= |q0|
    requires AllComplete(MarkAll(q0, older[..i])[..n]) && AllComplete(Mark(MarkAll(q0, older[..i])[n..], older[i])[..m])
    requires forall k :: 0 <= k < n ==> MarkAll(q0, older[..i])[k].transId != older[i]
    ensures Mark(MarkAll(q0, older[..i])[n..], older[i])[m..] == MarkAll(q0, older[..i + 1])[n + m..]
    ensures AllComplete(MarkAll(q0, older[..i + 1])[..n + m])
  {
    hide AllComplete, Mark, MarkAll;
    MarkedNext(q0, older, i);
    MarkBehind(MarkAll(q0, older[..i]), older[i], n, m);
  }

  lemma MarkSnoc(queue: seq<CpTrans>, ids: seq<nat>, id: nat)
    ensures MarkAll(queue, ids + [id]) == Mark(MarkAll(queue, ids), id)
  {
    assert (ids + [id])[..|ids|] == ids;
  }

  lemma FirstOpen(queue: seq<CpTrans>, n: nat, k: nat)
    requires n <= |queue| && k < |queue| && AllComplete(queue[..n]) && !queue[k].Complete()
    ensures n <= k
  {
    assert forall i :: 0 <= i < n ==> queue[..n][i] == queue[i];
  }

  /** What leaves the queue with its first transaction: the finished ones right behind it, up to one that is not finished. */
  ghost predicate Settled(queue: seq<CpTrans>, n: nat) {
    0 < n <= |queue| && AllComplete(queue[1..n]) && (n == |queue| || !queue[n].Complete())
  }

  /** Marking the first transaction leaves those behind it as they are. */
  lemma SettledMarked(q0: seq<CpTrans>, queue: seq<CpTrans>, t: CpTrans, n: nat)
    requires 0 < n <= |queue| && |q0| == |queue| && queue[1..] == q0[1..] && AllComplete(queue[0 := t][..n])
    requires queue[n..] == [] || !queue[n..][0].Complete()
    ensures Settled(q0, n)
  {
    forall i | 0 <= i < n - 1 ensures q0[1..n][i].Complete() {
      assert queue[0 := t][..n][i + 1].Complete() && q0[1..][i] == queue[1..][i];
    }
    if n < |queue| {
      assert queue[1..][n - 1] == q0[1..][n - 1];
    }
  }

  lemma CompleteMore(queue: seq<CpTrans>, n: nat)
    requires n < |queue|
    ensures AllComplete(queue[..n]) && queue[n].Complete() ==> AllComplete(queue[..n + 1])
    ensures AllComplete(queue) ==> queue[n].Complete()
  {
    assert queue[..n + 1] == queue[..n] + [queue[n]];
  }

  lemma HeadAndMore(queue: seq<CpTrans>, m: nat)
    requires queue != [] && m < |queue| && queue[0].Complete() && AllComplete(queue[1..][..m])
    ensures AllComplete(queue[..1 + m]) && queue[1..][m..] == queue[1 + m..]
  {
    assert queue[..1 + m] == [queue[0]] + queue[1..][..m];
  }

  /** A transaction with a block outstanding stays on the queue when another one's block is marked. */
  lemma StaysOpen(c: Circle, queue: seq<CpTrans>, pos: nat, base: nat, m: nat, n: nat, id: nat)
    requires Chained(c, queue, pos, base) && Open(queue, base, id) && id != m
    requires n <= |queue| && AllComplete(Mark(queue, m)[..n])
    ensures Open(Mark(queue, m)[n..], base + n, id)
  {
    ChainedAt(c, queue, pos, base, id - base);
    var k := id - base;
    assert Mark(queue, m)[k] == queue[k];
    FirstOpen(Mark(queue, m), n, k);
  }

  /** Another transaction's block changes nothing about the oldest one. */
  lemma HeadUnmarked(c: Circle, queue: seq<CpTrans>, pos: nat, base: nat, id: nat)
    requires Chained(c, queue, pos, base) && Open(queue, base, id)
    ensures queue[0].Complete() ==> id != base
    ensures id != base ==> Mark(queue, id)[0] == queue[0]
    ensures id != base && !queue[0].Complete() ==> !AllComplete(MarkAll(queue, [] + [id])[..id - base + 1])
  {
    MarkNothing(queue, id);
    if id != base {
      assert MarkAll(queue, [] + [id])[..id - base + 1][0] == queue[0];
    }
  }

  /** When the oldest transaction is not the one that is counted, it is complete afterwards just when all up to that one are. */
  lemma Stuck(c: Circle, queue: seq<CpTrans>, pos: nat, base: nat, id: nat, all: seq<CpTrans>, n: nat)
    requires Chained(c, queue, pos, base) && Open(queue, base, id) && !queue[0].Complete() && n <= base
    requires n <= |all| && all[n..] == Mark(queue, id) && AllComplete(all[..n]) && id != base - n
    ensures id - base + n + 1 <= |all|
    ensures Mark(queue, id)[0].Complete() <==> AllComplete(all[..id - base + n + 1])
    ensures Mark(queue, id)[0].Complete() ==> base == id
    ensures n > 0 <==> all[0].Complete()
  {
    var k := id - base + n;
    ChainedAt(c, queue, pos, base, 0);
    ChainedAt(c, queue, pos, base, id - base);
    assert forall i :: 0 <= i < |queue| ==> all[n + i] == all[n..][i];
    if base == id {
      assert all[..k + 1] == all[..n] + [all[n]];
    } else {
      assert all[n] == queue[0] && all[..k + 1][n] == all[n];
    }
    if n > 0 {
      assert all[..n][0] == all[0];
    }
  }

  /** Marking changes no sizes. */
  lemma {:induction false} TotalMark(queue: seq<CpTrans>, id: nat)
    ensures Total(Mark(queue, id)) == Total(queue)
  {
    if queue != [] {
      assert Mark(queue, id)[1..] == Mark(queue[1..], id);
      TotalMark(queue[1..], id);
    }
  }

  lemma {:induction false} TotalMarkAll(queue: seq<CpTrans>, ids: seq<nat>)
    ensures Total(MarkAll(queue, ids)) == Total(queue)
  {
    hide Total, Mark;
    if ids != [] {
      TotalMarkAll(queue, ids[..|ids| - 1]);
      TotalMark(MarkAll(queue, ids[..|ids| - 1]), ids[|ids| - 1]);
    }
  }

  class Checkpoint {
    const c: Circle
    // jbd_journal: start and trans_id name the oldest transaction whose blocks are still needed, last is where the log ends.
    var start: nat
    var last: nat
    var transId: nat
    var allocTransId: nat
    var cpQueue: seq<CpTrans>
    // The transaction that is being committed: its first block and how many it has.
    var curStart: nat
    var curBlocks: nat
    // What the journal superblock on the disk says, and how many blocks it lags behind.
    var diskStart: nat
    var diskSequence: nat
    ghost var behind: nat

    /** The part of jbd_journal_start that sets the counters. */
    constructor (c: Circle, sequence: nat)
      requires c.Valid()
      ensures Valid() && this.c == c && cpQueue == [] && curBlocks == 0 && Intact() && transId == sequence + 1
      ensures behind == 0 && diskStart == c.first
    {
      this.c := c;
      start, last, transId, allocTransId, cpQueue := c.first, c.first, sequence + 1, sequence + 1, [];
      curStart, curBlocks, diskStart, diskSequence, behind := 0, 0, c.first, sequence + 1, 0;
    }

    /** The blocks in use form one piece of the circle, from start to last; it may fill the circle. */
    ghost predicate Live()
      reads this
    {
      && c.Valid() && c.first <= start < c.maxlen && Chained(c, cpQueue, start, transId)
      && Total(cpQueue) + curBlocks <= c.Size()
      && last == c.Wrap(End(c, cpQueue, start) + curBlocks)
      && (curBlocks > 0 ==> curStart == End(c, cpQueue, start))
      && (behind == 0 ==> diskStart == start && diskSequence == transId)
    }

    ghost predicate Valid()
      reads this
    {
      Live() && Total(cpQueue) + curBlocks < c.Size() && allocTransId == transId + |cpQueue|
    }

    /** No block from the start that the disk knows of on has been given out again. */
    ghost predicate Intact()
      reads this
    {
      behind + Total(cpQueue) + curBlocks <= c.Size()
    }

    /** Transaction id still has a block that is not home. */
    ghost predicate Outstanding(id: nat)
      reads this
    {
      Open(cpQueue, transId, id)
    }

    /** start and trans_id name the oldest transaction on the queue, or else the end of the log. */
    lemma OldestNamed()
      requires Valid()
      ensures cpQueue != [] ==> start == cpQueue[0].startIblock && transId == cpQueue[0].transId
      ensures cpQueue == [] ==> transId == allocTransId && (curBlocks == 0 ==> start == last) && (curBlocks > 0 ==> start == curStart)
    {
    }

    /** Takes the oldest transaction off the queue and moves the start behind it. */
    method DropHead()
      requires Live() && cpQueue != []
      modifies this`start, this`transId, this`cpQueue, this`behind
      ensures Live() && cpQueue == old(cpQueue)[1..] && transId == old(transId) + 1
      ensures behind + Total(cpQueue) == old(behind + Total(cpQueue))
    {
      var trans := cpQueue[0];
      start := c.Wrap(trans.startIblock + trans.allocBlocks);
      transId := trans.transId + 1;
      cpQueue := cpQueue[1..];
      behind := behind + trans.allocBlocks;
    }

    /** jbd_journal_write_sb and jbd_write_sb: the superblock goes to the disk. */
    method WriteSuperblock()
      requires Live()
      modifies this`diskStart, this`diskSequence, this`behind
      ensures Live() && diskStart == start && diskSequence == transId && behind == 0
    {
      diskStart, diskSequence, behind := start, transId, 0;
    }

    /** jbd_journal_purge_cp_trans; n transactions left the queue */
    method Purge(flush: bool, once: bool) returns (ghost n: nat)
      requires Live()
      modifies this`start, this`transId, this`cpQueue, this`diskStart, this`diskSequence, this`behind
      ensures Live() && n <= |old(cpQueue)| && cpQueue == old(cpQueue)[n..] && transId == old(transId) + n
      ensures !flush ==> AllComplete(old(cpQueue)[..n])
      ensures !flush ==> diskStart == old(diskStart) && diskSequence == old(diskSequence)
      ensures !flush || AllComplete(old(cpQueue)) || (once && old(cpQueue)[0].Complete()) ==> behind + Total(cpQueue) == old(behind + Total(cpQueue))
      ensures flush && once && old(cpQueue) != [] && !old(cpQueue)[0].Complete() ==> behind == 0
      ensures old(Intact()) ==> Intact()
      ensures once && old(cpQueue) != [] && (flush || old(cpQueue)[0].Complete()) ==> n > 0
      ensures once && (old(cpQueue) == [] || old(cpQueue)[0].Complete() || !flush) ==> n <= 1
      ensures once && (old(cpQueue) == [] || old(cpQueue)[0].Complete()) ==> diskStart == old(diskStart) && diskSequence == old(diskSequence)
      ensures once && flush && old(cpQueue) != [] && !old(cpQueue)[0].Complete() ==> Settled(old(cpQueue), n)
      ensures !once ==> cpQueue == [] || (!flush && !cpQueue[0].Complete())
      decreases if flush then 3 else 0, 0
    {
      hide Chained, Total, End, Circle.Valid, Circle.Wrap, Settled, AllComplete;
      n := 0;
      NothingMarked(cpQueue);
      while cpQueue != []
        invariant Live() && n <= |old(cpQueue)| && cpQueue == old(cpQueue)[n..] && transId == old(transId) + n
        invariant !flush ==> AllComplete(old(cpQueue)[..n]) && diskStart == old(diskStart) && diskSequence == old(diskSequence)
        invariant once ==> n == 0 && diskStart == old(diskStart) && diskSequence == old(diskSequence)
        invariant !flush || AllComplete(old(cpQueue)) || n == 0 ==> behind + Total(cpQueue) == old(behind + Total(cpQueue))
        invariant old(Intact()) ==> Intact()
        decreases |cpQueue|
      {
        var trans := cpQueue[0];
        assert trans == old(cpQueue)[n];
        CompleteMore(old(cpQueue), n);
        HeadAt(c, cpQueue, start, transId);
        if trans.dataCnt == 0 || trans.dataCnt == trans.writtenCnt {
          DropHead();
          n := n + 1;
        } else if !flush {
          start, transId := c.Wrap(trans.startIblock), trans.transId;
          break;
        } else {
          ghost var m := FlushTrans();
          n := n + m;
        }
        if once {
          break;
        }
      }
    }

    /** jbd_journal_flush_trans on the oldest transaction: each of its blocks that is not home yet is written there. */
    method FlushTrans() returns (ghost n: nat)
      requires Live() && cpQueue != [] && !cpQueue[0].Complete()
      modifies this`start, this`transId, this`cpQueue, this`diskStart, this`diskSequence, this`behind
      ensures Live() && 0 < n <= |old(cpQueue)| && cpQueue == old(cpQueue)[n..] && transId == old(transId) + n
      ensures behind == 0 && Settled(old(cpQueue), n)
      decreases 2, 0
    {
      var trans := cpQueue[0];
      var left := trans.dataCnt - trans.writtenCnt;
      n := 0;
      while left > 0
        invariant Live() && left >= 0
        invariant left > 0 ==> n == 0 && left <= trans.dataCnt && transId == old(transId)
        invariant left > 0 ==> cpQueue == old(cpQueue)[0 := trans.(writtenCnt := trans.dataCnt - left)]
        invariant left == 0 ==> 0 < n <= |old(cpQueue)| && cpQueue == old(cpQueue)[n..] && transId == old(transId) + n && behind == 0
        invariant left == 0 ==> Settled(old(cpQueue), n)
      {
        ghost var before := cpQueue;
        MarkOne(c, before, start, transId, trans.transId);
        MarkNothing(before, trans.transId);
        n := EndWrite(trans.transId, []);
        left := left - 1;
        assert n > 0 ==> before[0 := trans.(writtenCnt := trans.dataCnt - left)][n..] == old(cpQueue)[n..];
        if n > 0 {
          SettledMarked(old(cpQueue), before, trans.(writtenCnt := trans.dataCnt - left), n);
        }
      }
    }

    /**
     jbd_trans_end_write for a block of transaction id; older are the earlier transactions that had the block
     too, which are served first.  n transactions left the queue.  Whether id was the oldest one is looked up
     before that, so a transaction that became the oldest in between stays although it is complete, just when all
     before it and itself are; and once the oldest one is complete nothing leaves any more.
     */
    method EndWrite(id: nat, older: seq<nat>) returns (ghost n: nat)
      requires Live() && Outstanding(id) && forall i :: 0 <= i < |older| ==> Outstanding(older[i]) && older[i] < id
      requires forall i, j :: 0 <= i < j < |older| ==> older[i] != older[j]
      modifies this`start, this`transId, this`cpQueue, this`diskStart, this`diskSequence, this`behind
      ensures Live() && n <= |old(cpQueue)| && transId == old(transId) + n && (old(Valid()) ==> Valid())
      ensures cpQueue == MarkAll(old(cpQueue), older + [id])[n..] && AllComplete(MarkAll(old(cpQueue), older + [id])[..n])
      ensures n > 0 <==> !old(cpQueue)[0].Complete() && MarkAll(old(cpQueue), older + [id])[0].Complete()
      ensures if n > 0 then behind == 0 else diskStart == old(diskStart) && diskSequence == old(diskSequence) && behind == old(behind)
      ensures Intact() <==> old(Intact()) || n > 0
      ensures id != old(transId) ==> transId <= id && cpQueue[id - transId].transId == id
      ensures !old(cpQueue)[0].Complete() ==> (cpQueue != [] && cpQueue[0].Complete() <==>
        id != old(transId) && AllComplete(MarkAll(old(cpQueue), older + [id])[..id - old(transId) + 1]))
      ensures !old(cpQueue)[0].Complete() && cpQueue != [] && cpQueue[0].Complete() ==> transId == id
      decreases 1, |older|, 1
    {
      hide Chained, Total, End, Mark, MarkAll, AllComplete, Circle.Wrap, Circle.Valid;
      ghost var q0 := cpQueue;
      ChainedAt(c, cpQueue, start, transId, 0);
      var firstInQueue := cpQueue[0].transId == id;
      n := CountOlder(id, older);
      ghost var q, p := cpQueue, start;
      ghost var ids := older + [id];
      assert ids[..|older|] == older && ids[..|ids|] == ids;
      BehindBase(c, q0, old(start), old(transId), older, n);
      HeadUnmarked(c, q, p, transId, id);
      ghost var m := CountWritten(id, firstInQueue);
      OneMoreMarked(q0, ids, |older|, n, m);
      if firstInQueue {
        MarkNothing(q0, id);
        assert n == 0 && MarkAll(q0, ids) == Mark(q0, id);
      } else if !q0[0].Complete() {
        Stuck(c, q, p, transId, id, MarkAll(q0, ids), n);
      }
      n := n + m;
      if transId <= id {
        ChainedAt(c, cpQueue, start, transId, id - transId);
      }
      TotalMarkAll(q0, ids);
      TotalSuffix(MarkAll(q0, ids), n);
    }

    /** The part of jbd_trans_end_write that serves the earlier transactions. */
    method CountOlder(id: nat, older: seq<nat>) returns (ghost n: nat)
      requires Live() && Outstanding(id) && forall i :: 0 <= i < |older| ==> Outstanding(older[i]) && older[i] < id
      requires forall i, j :: 0 <= i < j < |older| ==> older[i] != older[j]
      modifies this`start, this`transId, this`cpQueue, this`diskStart, this`diskSequence, this`behind
      ensures Live() && Outstanding(id) && n <= |old(cpQueue)| && transId == old(transId) + n
      ensures cpQueue == MarkAll(old(cpQueue), older)[n..] && AllComplete(MarkAll(old(cpQueue), older)[..n])
      ensures if n > 0 then behind == 0 else diskStart == old(diskStart) && diskSequence == old(diskSequence) && behind == old(behind)
      ensures if old(cpQueue)[0].Complete() then n == 0 && cpQueue[0].Complete() else !cpQueue[0].Complete()
      ensures id == old(transId) ==> older == [] && n == 0 && cpQueue == old(cpQueue)
      decreases 1, |older|, 0
    {
      hide Chained, Total, End, Mark, MarkAll, AllComplete, Circle.Wrap, Circle.Valid;
      n := 0;
      ghost var q0 := cpQueue;
      NothingMarked(q0);
      assert older != [] ==> Outstanding(older[0]);
      for i := 0 to |older|
        invariant Live() && n <= |q0| && transId == old(transId) + n
        invariant cpQueue == MarkAll(q0, older[..i])[n..] && AllComplete(MarkAll(q0, older[..i])[..n])
        invariant Outstanding(id) && forall j :: i <= j < |older| ==> Outstanding(older[j])
        invariant if n > 0 then behind == 0 else diskStart == old(diskStart) && diskSequence == old(diskSequence) && behind == old(behind)
        invariant if q0[0].Complete() then n == 0 && cpQueue[0].Complete() else !cpQueue[0].Complete()
        invariant i == 0 ==> n == 0 && cpQueue == q0
      {
        ghost var q, p := cpQueue, start;
        MarkNothing(q, older[i]);
        BehindBase(c, q0, old(start), old(transId), older[..i], n);
        HeadUnmarked(c, q, p, transId, older[i]);
        ghost var m := EndWrite(older[i], []);
        OneMoreMarked(q0, older, i, n, m);
        forall k | Open(q, transId - m, k) && k != older[i] ensures Outstanding(k) {
          StaysOpen(c, q, p, transId - m, older[i], m, k);
        }
        n := n + m;
      }
      assert older[..|older|] == older;
    }

    /** The counting part of jbd_trans_end_write. */
    method CountWritten(id: nat, firstInQueue: bool) returns (ghost n: nat)
      requires Live() && Outstanding(id) && (firstInQueue ==> id == transId)
      modifies this`start, this`transId, this`cpQueue, this`diskStart, this`diskSequence, this`behind
      ensures Live() && n <= |old(cpQueue)| && transId == old(transId) + n
      ensures cpQueue == Mark(old(cpQueue), id)[n..] && AllComplete(Mark(old(cpQueue), id)[..n])
      ensures firstInQueue && Mark(old(cpQueue), id)[0].Complete() ==>
        n > 0 && behind == 0 && (cpQueue == [] || !cpQueue[0].Complete())
      ensures !(firstInQueue && Mark(old(cpQueue), id)[0].Complete()) ==>
        n == 0 && diskStart == old(diskStart) && diskSequence == old(diskSequence) && behind == old(behind)
      decreases 0, 1
    {
      hide Chained, Total, End, Mark, MarkAll, AllComplete, Circle.Wrap, Circle.Valid;
      n := 0;
      MarkOne(c, cpQueue, start, transId, id);
      var k := id - transId;
      ChainedAt(c, cpQueue, start, transId, k);
      ChainedUpdate(c, cpQueue, start, transId, k, cpQueue[k].writtenCnt + 1);
      cpQueue := cpQueue[k := cpQueue[k].(writtenCnt := cpQueue[k].writtenCnt + 1)];
      NothingMarked(cpQueue);
      if cpQueue[k].Complete() && firstInQueue {
        ghost var marked := cpQueue;
        DropHead();
        ghost var m := Purge(false, false);
        WriteSuperblock();
        HeadAndMore(marked, m);
        n := n + 1 + m;
      }
    }

    /**
     jbd_journal_alloc_block for the transaction that is being committed, and the noting of its first block.
     The log is full when last has caught up with start; then one transaction is flushed, n or more leave the
     queue, and the source's assertion that there is room now holds, unless the transaction alone fills the log.
     */
    method AllocBlock() returns (startBlock: nat, ghost n: nat)
      requires Valid() && curBlocks + 1 < c.Size()
      modifies this
      ensures Valid() && last != start && startBlock == old(last) && c.first <= startBlock < c.maxlen
      ensures !InArc(c, old(curStart), old(curBlocks), startBlock)
      ensures forall k :: 0 <= k < |old(cpQueue)| ==> !InArc(c, old(cpQueue[k].startIblock), old(cpQueue[k].allocBlocks), startBlock)
      ensures curBlocks == old(curBlocks) + 1 && curStart == (if curBlocks == 1 then startBlock else old(curStart))
      ensures n <= |old(cpQueue)| && cpQueue == old(cpQueue)[n..] && transId == old(transId) + n
      ensures n > 0 <==> old(Total(cpQueue) + curBlocks) + 1 == c.Size()
      ensures n == 0 ==> start == old(start) && behind == old(behind)
      ensures n == 0 || old(cpQueue)[0].Complete() ==> n <= 1 && diskStart == old(diskStart) && diskSequence == old(diskSequence)
      ensures n > 0 && !old(cpQueue)[0].Complete() ==> behind == 0 && Settled(old(cpQueue), n)
      ensures Intact() <==>
        || old(behind + Total(cpQueue) + curBlocks) + 1 <= c.Size()
        || (old(Total(cpQueue) + curBlocks) + 1 == c.Size() && old(cpQueue) != [] && !old(cpQueue)[0].Complete())
    {
      hide Chained, InArc, Circle.Valid, Circle.Wrap, Total, End;
      n := 0;
      NoArc(c, curStart, last);
      NothingQueued(c, start);
      Outside(c, cpQueue, start, transId, curBlocks);
      OneMore(c, cpQueue, start, curBlocks);
      startBlock := last;
      last := c.Wrap(last + 1);
      curBlocks := curBlocks + 1;
      if curBlocks == 1 {
        curStart := startBlock;
      }
      if last == start {
        n := Purge(true, true);
        TotalDrops(c, old(cpQueue), old(start), old(transId), n);
      }
      NotFull(c, cpQueue, start, curBlocks);
    }

    /**
     What __jbd_journal_commit_trans does once the commit block is written: the transaction joins the queue, or
     is done with when it only revokes and the queue is empty.  That last case leaves the disk's superblock alone.
     */
    method FinishCommit(dataCnt: nat)
      requires Valid() && curBlocks > 0
      modifies this
      ensures Valid() && curBlocks == 0 && allocTransId == old(allocTransId) + 1 && last == old(last)
      ensures var t := CpTrans(old(allocTransId), old(curStart), old(curBlocks), dataCnt, 0);
              cpQueue == if old(cpQueue) == [] && dataCnt == 0 then [] else old(cpQueue) + [t]
      ensures old(cpQueue) == [] && dataCnt > 0 ==> behind == 0 && start == old(start) && diskStart == start
      ensures old(cpQueue) == [] && dataCnt == 0 ==> behind == old(behind) + old(curBlocks) && diskStart == old(diskStart)
      ensures old(cpQueue) != [] ==> behind == old(behind) && diskStart == old(diskStart) && start == old(start)
      ensures old(cpQueue) != [] || dataCnt == 0 ==> diskSequence == old(diskSequence)
      ensures Intact() <==> old(Intact()) || (old(cpQueue) == [] && dataCnt > 0)
    {
      hide Circle.Valid, Circle.Wrap;
      EndAt(c, cpQueue, start);
      WrapIn(c, curStart, curBlocks);
      var trans := CpTrans(allocTransId, curStart, curBlocks, dataCnt, 0);
      allocTransId := allocTransId + 1;
      ChainedSnoc(c, cpQueue, start, transId, trans);
      InPlace(c, start);
      InPlace(c, last);
      if cpQueue == [] {
        if trans.dataCnt > 0 {
          start, transId := c.Wrap(trans.startIblock), trans.transId;
          diskStart, diskSequence, behind := start, transId, 0;
          cpQueue := cpQueue + [trans];
        } else {
          start, transId := c.Wrap(trans.startIblock + trans.allocBlocks), trans.transId + 1;
          behind := behind + trans.allocBlocks;
        }
      } else {
        cpQueue := cpQueue + [trans];
      }
      curBlocks := 0;
    }

    /** The end of a commit that failed: the blocks it took are given back, however many transactions were flushed for it. */
    method AbortCommit(lastBefore: nat)
      requires Valid() && curBlocks > 0 && lastBefore == curStart
      modifies this`last, this`curBlocks
      ensures Valid() && curBlocks == 0 && last == lastBefore && (old(Intact()) ==> Intact())
    {
      EndAt(c, cpQueue, start);
      last, curBlocks := lastBefore, 0;
    }
  }

  /** Log blocks for a transaction while there is room for them. */
  method TakeBlocks(j: Checkpoint, k: nat)
    requires j.Valid() && Total(j.cpQueue) + j.curBlocks + k < j.c.Size()
    modifies j
    ensures j.Valid() && j.cpQueue == old(j.cpQueue) && j.curBlocks == old(j.curBlocks) + k && j.behind == old(j.behind)
    ensures j.transId == old(j.transId) && j.allocTransId == old(j.allocTransId)
  {
    for i := 0 to k
      invariant j.Valid() && j.cpQueue == old(j.cpQueue) && j.curBlocks == old(j.curBlocks) + i && j.behind == old(j.behind)
      invariant j.transId == old(j.transId) && j.allocTransId == old(j.allocTransId)
    {
      var _, _ := j.AllocBlock();
    }
  }

  lemma OneQueued(t: CpTrans)
    ensures Total([t]) == t.allocBlocks && MarkAll([t], [] + [t.transId]) == [t.(writtenCnt := t.writtenCnt + 1)]
  {
    assert [t][1..] == [];
    MarkNothing([t], t.transId);
  }

  /**
   A transaction of three blocks; one of two that only revokes the first one's block, with which the first one is done; then
   one of seven, in a log of eight.  The disk still names the second one as the start, and the third overwrites it.
   */
  method RevokesOverrunDisk() returns (j: Checkpoint)
    ensures fresh(j) && j.Valid() && j.cpQueue == [] && j.curBlocks + 1 == j.c.Size() && !j.Intact()
  {
    j := new Checkpoint(Circle(1, 9, 1), 0);
    NothingQueued(j.c, 1);
    TakeBlocks(j, 3);
    j.FinishCommit(1);
    ghost var t := j.cpQueue[0];
    OneQueued(t);
    TakeBlocks(j, 2);
    var _ := j.EndWrite(1, []);
    j.FinishCommit(0);
    TakeBlocks(j, 7);
  }

  /** Two transactions with one and the same block: when it is written home both are complete, but the second one stays. */
  method StaysQueued() returns (j: Checkpoint)
    ensures fresh(j) && j.Valid() && |j.cpQueue| == 1 && j.cpQueue[0].Complete()
  {
    hide Settled, AllComplete;
    j := new Checkpoint(Circle(1, 9, 1), 0);
    NothingQueued(j.c, 1);
    TakeBlocks(j, 3);
    j.FinishCommit(1);
    ghost var t := j.cpQueue[0];
    OneQueued(t);
    TakeBlocks(j, 3);
    j.FinishCommit(1);
    ghost var u := j.cpQueue[1];
    assert j.cpQueue == [t, u];
    BothMarked(t, u);
    BothComplete(t.(writtenCnt := 1), u.(writtenCnt := 1));
    assert t.transId == 1 && u.transId == 2 && t.writtenCnt == u.writtenCnt == 0 && t.dataCnt == u.dataCnt == 1;
    assert AllComplete(MarkAll(j.cpQueue, [1] + [2])[..2]);
    var _ := j.EndWrite(2, [1]);
  }

  lemma BothComplete(t: CpTrans, u: CpTrans)
    requires t.Complete() && u.Complete()
    ensures AllComplete([t, u][..2])
  {
    assert [t, u][..2] == [t, u];
  }

  lemma BothMarked(t: CpTrans, u: CpTrans)
    requires t.transId != u.transId
    ensures MarkAll([t, u], [t.transId] + [u.transId]) == [t.(writtenCnt := t.writtenCnt + 1), u.(writtenCnt := u.writtenCnt + 1)]
  {
    MarkSnoc([t, u], [t.transId], u.transId);
    MarkNothing([t, u], t.transId);
  }
}

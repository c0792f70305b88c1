/**
 The transactions that a recovery would find in the log, and what keeps log, cache and disk in
 step: a block that waits in the log is dirty in the cache or open, one that does not is at home.
 */
module LogQueue {
  import opened JournalFormat
  import opened BlockCache

  /** A committed transaction in the log: the contents of its blocks, and which of them are still to be written home. */
  datatype Queued = Queued(copies: map<nat, Block>, waiting: set<nat>)

  /** What the log says about blocks: later transactions count. */
  function All(q: seq<Queued>): map<nat, Block> { if q == [] then map[] else q[0].copies + All(q[1..]) }

  function Pending(q: seq<Queued>): set<nat> { if q == [] then {} else q[0].waiting + Pending(q[1..]) }

  /** A block that reaches its home from the cache is done in every transaction that had it. */
  function EndAll(q: seq<Queued>, done: set<nat>): seq<Queued> {
    if q == [] then [] else [q[0].(waiting := q[0].waiting - done)] + EndAll(q[1..], done)
  }

  predicate Unwritten(bufs: Bufs, open: set<nat>, lba: nat) { lba in open || (lba in bufs && bufs[lba].dirty) }

  /** The blocks that the cache has written since they were committed. */
  function Ended(bufs: Bufs, open: set<nat>, q: seq<Queued>): set<nat> { set x | x in Pending(q) && !Unwritten(bufs, open, x) }

  /** The queue when the open transaction has gone into the log. */
  ghost function Enqueued(q: seq<Queued>, open: set<nat>, seen: seq<Block>): seq<Queued> {
    if open == {} then q else q + [Queued(map x | x in open && x < |seen| :: seen[x], open)]
  }

  function Copies(bufs: Bufs, open: set<nat>): map<nat, Block> { map x | x in open && x in bufs :: bufs[x].data }

  /** A block that waits in one transaction waits in the later ones that have it. */
  ghost predicate QueueOk(q: seq<Queued>) {
    || q == []
    || (&& q[0].waiting <= q[0].copies.Keys && QueueOk(q[1..])
        && forall x :: x in q[0].waiting && x in All(q[1..]) ==> x in Pending(q[1..]))
  }

  ghost predicate PendOk(bufs: Bufs, n: nat, open: set<nat>, q: seq<Queued>) {
    && QueueOk(q) && (forall x :: x in All(q) ==> 0 < x < n)
    && (forall x :: x in bufs && bufs[x].dirty ==> x in open || x in Pending(q))
  }

  ghost predicate Awaited(bufs: Bufs, open: set<nat>, q: seq<Queued>) {
    forall x :: x in Pending(q) ==> Unwritten(bufs, open, x)
  }

  ghost function Users(users: map<nat, nat>, lba: nat): nat { if lba in users then users[lba] else 0 }

  /** What recovery makes of the disk when the log holds the given blocks. */
  ghost function Replayed(logged: map<nat, Block>, disk: seq<Block>): (r: seq<Block>)
    ensures |r| == |disk|
  {
    seq(|disk|, i requires 0 <= i < |disk| => if i in logged then logged[i] else disk[i])
  }

  /** Held(lba) counts the callers' references; the open transaction has one more on each of its blocks. */
  ghost predicate RefsOk(bufs: Bufs, open: set<nat>, users: map<nat, nat>) {
    && (forall lba :: lba in open ==> lba > 0 && lba in bufs && bufs[lba].dirty)
    && (forall lba :: lba in bufs ==> bufs[lba].refctr == Users(users, lba) + if lba in open then 1 else 0)
    && (forall lba :: lba in users && users[lba] > 0 ==> lba in bufs)
  }

  ghost predicate LogOk(bufs: Bufs, disk: seq<Block>, open: set<nat>, logged: map<nat, Block>, committed: seq<Block>) {
    && |committed| == |disk|
    && (forall lba :: lba in bufs ==> lba < |disk| && (bufs[lba].dirty ==> lba in open || lba in logged))
    && (forall lba :: 0 <= lba < |disk| ==> (if lba in logged then logged[lba] else disk[lba]) == committed[lba])
    && (forall lba :: 0 <= lba < |disk| && lba !in open ==> View(bufs, disk)[lba] == committed[lba])
  }

  lemma RefsSettled(bufs: Bufs, disk: seq<Block>, bufs': Bufs, disk': seq<Block>, open: set<nat>, users: map<nat, nat>)
    requires RefsOk(bufs, open, users) && Settled(bufs, disk, bufs', disk')
    ensures RefsOk(bufs', open, users)
  {
    hide View;
    forall lba | lba in open ensures lba in bufs' && bufs'[lba].dirty {
      assert bufs[lba].refctr > 0;
    }
  }

  /** Whatever the cache writes back by itself keeps the log in charge of what is committed. */
  lemma LogSettled(bufs: Bufs, disk: seq<Block>, bufs': Bufs, disk': seq<Block>, open: set<nat>, users: map<nat, nat>,
                   logged: map<nat, Block>, committed: seq<Block>)
    requires RefsOk(bufs, open, users) && LogOk(bufs, disk, open, logged, committed)
    requires Settled(bufs, disk, bufs', disk') && View(bufs', disk') == View(bufs, disk)
    ensures LogOk(bufs', disk', open, logged, committed)
    ensures forall lba :: lba in open ==> lba < |disk| && disk'[lba] == disk[lba]
  {
    hide View;
    forall lba | 0 <= lba < |disk|
      ensures (if lba in logged then logged[lba] else disk'[lba]) == committed[lba]
      ensures lba in open ==> disk'[lba] == disk[lba]
    {
      if lba in open {
        assert bufs[lba].refctr > 0;
      }
    }
    forall lba | lba in open ensures lba < |disk| {
      assert lba in bufs;
    }
  }

  lemma ReplaySame(bufs: Bufs, disk: seq<Block>, open: set<nat>, logged: map<nat, Block>, committed: seq<Block>)
    requires LogOk(bufs, disk, open, logged, committed)
    ensures Replayed(logged, disk) == committed
  {
    hide View;
  }

  /** One block went home although its last holder only just gave it back. */
  lemma LogReleased(bufs: Bufs, disk: seq<Block>, bufs': Bufs, disk': seq<Block>, open: set<nat>, open': set<nat>,
                    logged: map<nat, Block>, committed: seq<Block>, lba: nat)
    requires LogOk(bufs, disk, open, logged, committed) && lba in bufs && lba < |disk|
    requires View(bufs', disk') == View(bufs, disk) && bufs' - {lba} == bufs - {lba}
    requires disk' == disk || disk' == disk[lba := View(bufs, disk)[lba]]
    requires lba in bufs' && bufs'[lba].dirty ==> bufs[lba].dirty
    requires open' == open - {lba} && View(bufs, disk)[lba] == committed[lba] && (lba in open ==> lba in logged)
    ensures LogOk(bufs', disk', open', logged, committed)
  {
    hide View;
    forall x | x in bufs' ensures x < |disk| && (bufs'[x].dirty ==> x in open' || x in logged) {
      if x != lba {
        assert x in bufs - {lba} && (bufs' - {lba})[x] == (bufs - {lba})[x];
      }
    }
  }

  /** A caller takes a reference. */
  lemma OneMoreUser(mid: Bufs, disk: seq<Block>, bufs: Bufs, open: set<nat>, users: map<nat, nat>, logged: map<nat, Block>,
                    committed: seq<Block>, lba: nat)
    requires RefsOk(mid, open, users) && LogOk(mid, disk, open, logged, committed)
    requires lba in bufs && lba < |disk| && bufs == mid[lba := bufs[lba]] && View(bufs, disk) == View(mid, disk)
    requires bufs[lba].refctr == (if lba in mid then mid[lba].refctr else 0) + 1
    requires bufs[lba].dirty <==> lba in mid && mid[lba].dirty
    ensures RefsOk(bufs, open, users[lba := Users(users, lba) + 1]) && LogOk(bufs, disk, open, logged, committed)
  {
    hide View, RefsOk, LogOk;
    RefsMore(mid, bufs, open, users, lba);
    LogMore(mid, disk, bufs, open, logged, committed, lba);
  }

  lemma RefsMore(mid: Bufs, bufs: Bufs, open: set<nat>, users: map<nat, nat>, lba: nat)
    requires RefsOk(mid, open, users) && lba in bufs && bufs == mid[lba := bufs[lba]]
    requires bufs[lba].refctr == (if lba in mid then mid[lba].refctr else 0) + 1
    requires bufs[lba].dirty <==> lba in mid && mid[lba].dirty
    ensures RefsOk(bufs, open, users[lba := Users(users, lba) + 1])
  {
  }

  lemma LogMore(mid: Bufs, disk: seq<Block>, bufs: Bufs, open: set<nat>, logged: map<nat, Block>, committed: seq<Block>, lba: nat)
    requires LogOk(mid, disk, open, logged, committed) && lba in bufs && lba < |disk| && bufs == mid[lba := bufs[lba]]
    requires View(bufs, disk) == View(mid, disk) && (bufs[lba].dirty <==> lba in mid && mid[lba].dirty)
    ensures LogOk(bufs, disk, open, logged, committed)
  {
    hide View;
  }

  /** A caller, or the committed transaction, gives its reference back. */
  lemma OneLessRef(bufs: Bufs, bufs': Bufs, open: set<nat>, open': set<nat>, users: map<nat, nat>, users': map<nat, nat>, lba: nat)
    requires RefsOk(bufs, open, users) && lba in bufs && bufs[lba].refctr > 0 && bufs' - {lba} == bufs - {lba}
    requires lba in bufs' ==> bufs'[lba].refctr == bufs[lba].refctr - 1
    requires lba !in bufs' ==> bufs[lba].refctr == 1
    requires lba in open' ==> lba in bufs' && bufs'[lba].dirty
    requires forall x :: x != lba ==> (x in open' <==> x in open) && Users(users', x) == Users(users, x)
    requires Users(users', lba) + (if lba in open' then 1 else 0) == bufs[lba].refctr - 1
    requires lba in open' ==> lba in open
    ensures RefsOk(bufs', open', users')
  {
    forall x | x in bufs' && x != lba ensures x in bufs && bufs'[x] == bufs[x] {
      assert x in bufs - {lba} && (bufs' - {lba})[x] == (bufs - {lba})[x];
    }
    forall x | x in bufs && x != lba ensures x in bufs' && bufs'[x] == bufs[x] {
      assert x in bufs' - {lba} && (bufs' - {lba})[x] == (bufs - {lba})[x];
    }
    forall x | x in users' && users'[x] > 0 ensures x in bufs' {
      assert Users(users', x) > 0;
    }
  }

  lemma InBufs(bufs: Bufs, open: set<nat>, users: map<nat, nat>, lba: nat)
    requires RefsOk(bufs, open, users) && Users(users, lba) > 0
    ensures lba in bufs && bufs[lba].refctr == Users(users, lba) + if lba in open then 1 else 0
  {
  }

  lemma Pinned(bufs: Bufs, open: set<nat>, users: map<nat, nat>, lba: nat)
    requires RefsOk(bufs, open, users) && lba in open
    ensures lba > 0 && lba in bufs && bufs[lba].dirty && bufs[lba].refctr == Users(users, lba) + 1
  {
  }

  lemma OpenInDisk(bufs: Bufs, disk: seq<Block>, open: set<nat>, users: map<nat, nat>, logged: map<nat, Block>, committed: seq<Block>)
    requires LogOk(bufs, disk, open, logged, committed) && RefsOk(bufs, open, users)
    ensures forall lba :: lba in open ==> lba < |disk|
  {
  }

  lemma SeenCommitted(bufs: Bufs, disk: seq<Block>, open: set<nat>, logged: map<nat, Block>, committed: seq<Block>, lba: nat)
    requires LogOk(bufs, disk, open, logged, committed) && lba !in open && lba < |disk|
    ensures |committed| == |disk| && View(bufs, disk)[lba] == committed[lba]
  {
  }

  lemma LogSameDisk(bufs: Bufs, bufs': Bufs, disk: seq<Block>, open: set<nat>, logged: map<nat, Block>, committed: seq<Block>, lba: nat)
    requires LogOk(bufs, disk, open, logged, committed) && View(bufs', disk) == View(bufs, disk)
    requires lba in bufs && lba in bufs' && lba in open && bufs' == bufs[lba := bufs'[lba]]
    ensures LogOk(bufs', disk, open, logged, committed)
  {
    hide View;
  }

  /** A block joins the open transaction with new contents. */
  lemma Dirtied(bufs: Bufs, bufs': Bufs, disk: seq<Block>, open: set<nat>, logged: map<nat, Block>, committed: seq<Block>,
                lba: nat, data: Block)
    requires LogOk(bufs, disk, open, logged, committed) && lba in bufs && lba < |disk| && lba in bufs'
    requires bufs' == bufs[lba := bufs'[lba]] && View(bufs', disk) == View(bufs, disk)[lba := data]
    ensures LogOk(bufs', disk, open + {lba}, logged, committed)
  {
    hide View;
  }

  /** With the open transaction's blocks in the log what readers see is committed. */
  lemma Logged(bufs: Bufs, disk: seq<Block>, open: set<nat>, users: map<nat, nat>, logged: map<nat, Block>, committed: seq<Block>)
    requires RefsOk(bufs, open, users) && LogOk(bufs, disk, open, logged, committed)
    ensures forall lba :: lba in open ==> lba < |disk|
    ensures LogOk(bufs, disk, open, logged + map lba | lba in open && lba < |disk| :: View(bufs, disk)[lba], View(bufs, disk))
  {
    hide View;
    forall lba | lba in open ensures lba < |disk| {
      assert lba in bufs;
    }
  }

  lemma {:induction false} PendingInAll(q: seq<Queued>)
    requires QueueOk(q)
    ensures Pending(q) <= All(q).Keys
  {
    if q != [] {
      PendingInAll(q[1..]);
    }
  }

  lemma {:induction false} EndAllIs(q: seq<Queued>, done: set<nat>)
    ensures |EndAll(q, done)| == |q| && All(EndAll(q, done)) == All(q) && Pending(EndAll(q, done)) == Pending(q) - done
    ensures QueueOk(q) ==> QueueOk(EndAll(q, done))
  {
    if q != [] {
      EndAllIs(q[1..], done);
      assert EndAll(q, done)[1..] == EndAll(q[1..], done);
    }
  }

  lemma EndAllHead(q: seq<Queued>, done: set<nat>)
    requires q != []
    ensures EndAll(q, done) != [] && EndAll(q, done)[0].waiting == q[0].waiting - done
  {
  }

  lemma {:induction false} EndNone(q: seq<Queued>, done: set<nat>)
    requires forall x :: x in Pending(q) ==> x !in done
    ensures EndAll(q, done) == q
  {
    if q != [] {
      EndNone(q[1..], done);
      assert q[0].waiting - done == q[0].waiting;
      assert q == [q[0]] + q[1..];
    }
  }

  lemma {:induction false} EndAllAgain(q: seq<Queued>, done: set<nat>, more: set<nat>)
    ensures EndAll(EndAll(q, done), more) == EndAll(q, done + more)
  {
    if q != [] {
      EndAllAgain(q[1..], done, more);
      assert EndAll(q, done)[1..] == EndAll(q[1..], done);
      assert q[0].waiting - done - more == q[0].waiting - (done + more);
    }
  }

  lemma {:induction false} QueuedLast(q: seq<Queued>, t: Queued)
    ensures All(q + [t]) == All(q) + t.copies && Pending(q + [t]) == Pending(q) + t.waiting
  {
    if q == [] {
      assert q + [t] == [t] && [t][1..] == [];
    } else {
      QueuedLast(q[1..], t);
      assert (q + [t])[1..] == q[1..] + [t] && (q + [t])[0] == q[0];
      MapAssoc(q[0].copies, All(q[1..]), t.copies);
    }
  }

  lemma MapAssoc(a: map<nat, Block>, b: map<nat, Block>, c: map<nat, Block>)
    ensures a + (b + c) == a + b + c
  {
  }

  lemma {:induction false} LastOk(q: seq<Queued>, t: Queued)
    requires QueueOk(q) && t.waiting == t.copies.Keys
    ensures QueueOk(q + [t])
  {
    hide All, Pending;
    if q == [] {
      assert q + [t] == [t];
      NoneQueued();
    } else {
      LastOk(q[1..], t);
      QueuedLast(q[1..], t);
      assert (q + [t])[1..] == q[1..] + [t] && (q + [t])[0] == q[0];
    }
  }

  lemma NoneQueued()
    ensures All([]) == map[] && Pending([]) == {}
  {
  }

  /** What the first transactions of the queue leave to the others. */
  lemma {:induction false} QueueSplit(q: seq<Queued>, n: nat, x: nat)
    requires QueueOk(q) && n <= |q|
    ensures QueueOk(q[n..])
    ensures x in All(q[n..]) ==> x in All(q) && All(q)[x] == All(q[n..])[x]
    ensures x in Pending(q) && x !in All(q[n..]) ==> exists k: nat :: k < n && x in q[k].waiting
  {
    if n > 0 {
      QueueSplit(q[1..], n - 1, x);
      assert q[1..][n - 1..] == q[n..];
      if x in Pending(q) && x !in All(q[n..]) {
        if x in q[0].waiting {
          assert 0 < n && x in q[0].waiting;
        } else {
          var k: nat :| k < n - 1 && x in q[1..][k].waiting;
          assert x in q[k + 1].waiting;
        }
      }
    } else {
      assert q[0..] == q;
      PendingInAll(q);
    }
  }

  lemma PendSettled(bufs: Bufs, bufs': Bufs, n: nat, open: set<nat>, q: seq<Queued>)
    requires PendOk(bufs, n, open, q) && forall x :: x in bufs' && bufs'[x].dirty ==> x in bufs && bufs[x].dirty
    ensures PendOk(bufs', n, open, q)
  {
  }

  /** After the callbacks what waits is what the cache has not written. */
  lemma EndedOk(bufs: Bufs, n: nat, open: set<nat>, q: seq<Queued>)
    requires PendOk(bufs, n, open, q)
    ensures var q' := EndAll(q, Ended(bufs, open, q));
            && PendOk(bufs, n, open, q') && Awaited(bufs, open, q') && All(q') == All(q)
            && forall x :: x in open ==> (x in Pending(q') <==> x in Pending(q))
  {
    hide QueueOk;
    EndAllIs(q, Ended(bufs, open, q));
  }

  /** A block that is neither open nor waiting is clean, and so the disk has what readers see. */
  lemma AtHome(bufs: Bufs, disk: seq<Block>, open: set<nat>, q: seq<Queued>, restored: seq<Block>, x: nat)
    requires PendOk(bufs, |disk|, open, q) && LogOk(bufs, disk, open, All(q), restored)
    requires x < |disk| && x !in open && x !in Pending(q)
    ensures disk[x] == restored[x]
  {
    hide QueueOk, All, Pending;
    assert View(bufs, disk)[x] == restored[x];
  }

  lemma DroppedPend(bufs: Bufs, n: nat, open: set<nat>, q: seq<Queued>)
    requires PendOk(bufs, n, open, q) && Awaited(bufs, open, q) && q != [] && q[0].waiting == {}
    ensures PendOk(bufs, n, open, q[1..]) && Awaited(bufs, open, q[1..]) && Pending(q[1..]) == Pending(q) <= All(q[1..]).Keys
  {
    PendingInAll(q[1..]);
    assert Pending(q) == Pending(q[1..]);
    assert forall x :: x in All(q[1..]) ==> x in All(q);
  }

  /** The first transaction leaves the log: open blocks that are in it only are now what they are at home. */
  lemma Dropped(bufs: Bufs, disk: seq<Block>, open: set<nat>, q: seq<Queued>, restored: seq<Block>)
    requires PendOk(bufs, |disk|, open, q) && Awaited(bufs, open, q) && LogOk(bufs, disk, open, All(q), restored)
    requires q != [] && q[0].waiting == {}
    ensures LogOk(bufs, disk, open, All(q[1..]), Replayed(All(q[1..]), disk))
    ensures var r := Replayed(All(q[1..]), disk);
            forall x :: 0 <= x < |disk| ==> r[x] == if x in open && x in q[0].copies && x !in All(q[1..]) then disk[x] else restored[x]
  {
    hide View, Awaited, QueueOk, Pending;
    var rest := q[1..];
    DroppedPend(bufs, |disk|, open, q);
    var r := Replayed(All(rest), disk);
    forall x | 0 <= x < |disk|
      ensures r[x] == if x in open && x in q[0].copies && x !in All(rest) then disk[x] else restored[x]
    {
      if x !in All(rest) && x !in open {
        AtHome(bufs, disk, open, q, restored, x);
      }
    }
  }

  /** A buffer was written, or its block past it, and the reference taken for that is back. */
  lemma RefsTouched(bufs: Bufs, bufs': Bufs, open: set<nat>, users: map<nat, nat>, lba: nat)
    requires RefsOk(bufs, open, users) && lba in bufs && bufs' - {lba} == bufs - {lba}
    requires if lba in bufs' then bufs'[lba].refctr == bufs[lba].refctr else bufs[lba].refctr == 0
    requires lba in open ==> lba in bufs' && bufs'[lba].dirty
    ensures RefsOk(bufs', open, users)
  {
    forall x | x != lba && (x in bufs || x in bufs') ensures x in bufs && x in bufs' && bufs'[x] == bufs[x] {
      assert x in bufs - {lba} <==> x in bufs' - {lba};
      assert x in bufs ==> (bufs' - {lba})[x] == (bufs - {lba})[x];
    }
  }

  lemma LogTouched(bufs: Bufs, disk: seq<Block>, bufs': Bufs, disk': seq<Block>, open: set<nat>, logged: map<nat, Block>,
                   committed: seq<Block>, lba: nat)
    requires LogOk(bufs, disk, open, logged, committed) && lba in bufs && lba in logged && bufs' - {lba} == bufs - {lba}
    requires View(bufs', disk') == View(bufs, disk) && |disk'| == |disk| && forall x :: 0 <= x < |disk| && x != lba ==> disk'[x] == disk[x]
    ensures LogOk(bufs', disk', open, logged, committed)
  {
    hide View;
    forall x | x in bufs' ensures x < |disk'| && (bufs'[x].dirty ==> x in open || x in logged) {
      if x != lba {
        assert x in bufs - {lba} && (bufs' - {lba})[x] == (bufs - {lba})[x];
      }
    }
  }

  lemma PendTouched(bufs: Bufs, bufs': Bufs, n: nat, open: set<nat>, q: seq<Queued>, q': seq<Queued>, lba: nat)
    requires PendOk(bufs, n, open, q) && bufs' - {lba} == bufs - {lba}
    requires QueueOk(q') && All(q') == All(q) && Pending(q) <= Pending(q') + {lba}
    requires lba in bufs' && bufs'[lba].dirty ==> lba in open || lba in Pending(q')
    ensures PendOk(bufs', n, open, q')
  {
    hide QueueOk, All, Pending;
    forall x | x in bufs' && bufs'[x].dirty ensures x in open || x in Pending(q') {
      if x != lba {
        assert x in bufs - {lba} && (bufs' - {lba})[x] == (bufs - {lba})[x];
      }
    }
  }

  lemma CleanSettled(bufs: Bufs, disk: seq<Block>, bufs': Bufs, disk': seq<Block>)
    requires Settled(bufs, disk, bufs', disk')
    ensures |disk'| == |disk| && forall x :: x in bufs' && bufs'[x].dirty ==> x in bufs && bufs[x].dirty
  {
    hide View;
  }

  /** No buffer asks to be written at once, or to be dropped. */
  ghost predicate Unmarked(bufs: Bufs) { forall x :: x in bufs ==> !bufs[x].flush && !bufs[x].tmp }

  lemma UnmarkedAt(bufs: Bufs, lba: nat)
    requires Unmarked(bufs) && lba in bufs
    ensures !bufs[lba].flush && !bufs[lba].tmp
  {
  }

  lemma UnmarkedKept(bufs: Bufs, bufs': Bufs, lba: nat)
    requires Unmarked(bufs) && bufs' - {lba} == bufs - {lba} && (lba in bufs' ==> !bufs'[lba].flush && !bufs'[lba].tmp)
    ensures Unmarked(bufs')
  {
    SameButOne(bufs, bufs', lba);
  }

  lemma UnmarkedSettled(bufs: Bufs, disk: seq<Block>, bufs': Bufs, disk': seq<Block>)
    requires Unmarked(bufs) && Settled(bufs, disk, bufs', disk')
    ensures Unmarked(bufs')
  {
  }

  lemma UnmarkedPlus(bufs: Bufs, bufs': Bufs, lba: nat)
    requires Unmarked(bufs) && lba in bufs' && bufs' == bufs[lba := bufs'[lba]]
    requires (bufs'[lba].flush <==> lba in bufs && bufs[lba].flush) && (bufs'[lba].tmp <==> lba in bufs && bufs[lba].tmp)
    ensures Unmarked(bufs')
  {
  }

  lemma SameButOne(bufs: Bufs, bufs': Bufs, lba: nat)
    requires bufs' - {lba} == bufs - {lba}
    ensures forall x :: x != lba ==> (x in bufs' <==> x in bufs) && (x in bufs' ==> bufs'[x] == bufs[x])
  {
    forall x | x != lba ensures (x in bufs' <==> x in bufs) && (x in bufs' ==> bufs'[x] == bufs[x]) {
      assert x in bufs - {lba} <==> x in bufs' - {lba};
      assert x in bufs ==> (bufs' - {lba})[x] == (bufs - {lba})[x];
    }
  }

  ghost predicate HomeOk(disk: seq<Block>, open: set<nat>, q: seq<Queued>, restored: seq<Block>) {
    |restored| == |disk| && forall x :: x in open && x in All(q) && x !in Pending(q) && x < |disk| ==> disk[x] == restored[x]
  }

  lemma HomeKept(disk: seq<Block>, disk': seq<Block>, open: set<nat>, q: seq<Queued>, q': seq<Queued>, restored: seq<Block>)
    requires HomeOk(disk, open, q, restored) && |disk'| == |disk| && All(q') == All(q)
    requires forall x :: x in open && x < |disk| ==> disk'[x] == disk[x] && (x in Pending(q') <==> x in Pending(q))
    ensures HomeOk(disk', open, q', restored)
  {
  }

  /** A block that joins the open transaction either waits or is right at home. */
  lemma HomeDirtied(bufs: Bufs, disk: seq<Block>, open: set<nat>, q: seq<Queued>, restored: seq<Block>, lba: nat)
    requires HomeOk(disk, open, q, restored) && PendOk(bufs, |disk|, open, q) && LogOk(bufs, disk, open, All(q), restored)
    ensures HomeOk(disk, open + {lba}, q, restored)
  {
    hide View, PendOk, LogOk, All, Pending;
    if lba < |disk| && lba !in open && lba !in Pending(q) {
      AtHome(bufs, disk, open, q, restored, lba);
    }
  }

  lemma RefsDirtied(bufs: Bufs, bufs': Bufs, open: set<nat>, users: map<nat, nat>, lba: nat)
    requires RefsOk(bufs, open, users) && lba > 0 && lba in bufs && lba in bufs' && bufs' == bufs[lba := bufs'[lba]]
    requires bufs'[lba].dirty && bufs'[lba].refctr == bufs[lba].refctr + if lba in open then 0 else 1
    ensures RefsOk(bufs', open + {lba}, users)
  {
  }

  /** Once nobody holds a buffer and all that was dirty is written, nothing waits. */
  lemma NoneHeld(bufs: Bufs, open: set<nat>, users: map<nat, nat>, q: seq<Queued>)
    requires RefsOk(bufs, open, users) && Awaited(bufs, open, q)
    requires forall x :: x in bufs && bufs[x].dirty ==> bufs[x].refctr > 0
    ensures open == {} && (forall x :: Users(users, x) == 0) ==> Pending(q) == {} && forall x :: x in bufs ==> bufs[x].refctr == 0
  {
  }

  lemma PendDirtied(bufs: Bufs, bufs': Bufs, n: nat, open: set<nat>, q: seq<Queued>, lba: nat)
    requires PendOk(bufs, n, open, q) && lba in bufs' && bufs' == bufs[lba := bufs'[lba]] && bufs'[lba].dirty
    ensures PendOk(bufs', n, open + {lba}, q) && (Awaited(bufs, open, q) ==> Awaited(bufs', open + {lba}, q))
  {
    hide QueueOk, All, Pending;
  }

  lemma AwaitedKept(bufs: Bufs, bufs': Bufs, open: set<nat>, q: seq<Queued>)
    requires Awaited(bufs, open, q) && forall x :: x in bufs && bufs[x].dirty ==> x in bufs' && bufs'[x].dirty
    ensures Awaited(bufs', open, q)
  {
  }

  /** Nothing that the cache writes back by itself disturbs the log. */
  lemma AllSettled(bufs: Bufs, disk: seq<Block>, bufs': Bufs, disk': seq<Block>, open: set<nat>, users: map<nat, nat>, q: seq<Queued>,
                   restored: seq<Block>)
    requires RefsOk(bufs, open, users) && PendOk(bufs, |disk|, open, q) && LogOk(bufs, disk, open, All(q), restored)
    requires Settled(bufs, disk, bufs', disk') && View(bufs', disk') == View(bufs, disk)
    ensures RefsOk(bufs', open, users) && PendOk(bufs', |disk'|, open, q) && LogOk(bufs', disk', open, All(q), restored)
    ensures Replayed(All(q), disk') == restored && (HomeOk(disk, open, q, restored) ==> HomeOk(disk', open, q, restored))
    ensures forall x :: x in open ==> x < |disk'| == |disk| && disk'[x] == disk[x]
  {
    hide View, RefsOk, LogOk, PendOk, Settled, HomeOk, All, Pending;
    RefsSettled(bufs, disk, bufs', disk', open, users);
    LogSettled(bufs, disk, bufs', disk', open, users, All(q), restored);
    CleanSettled(bufs, disk, bufs', disk');
    PendSettled(bufs, bufs', |disk|, open, q);
    ReplaySame(bufs', disk', open, All(q), restored);
    if HomeOk(disk, open, q, restored) {
      HomeKept(disk, disk', open, q, q, restored);
    }
  }

  /** The open transaction is in the log. */
  lemma Entered(bufs: Bufs, disk: seq<Block>, open: set<nat>, users: map<nat, nat>, q: seq<Queued>, restored: seq<Block>)
    requires RefsOk(bufs, open, users) && PendOk(bufs, |disk|, open, q) && Awaited(bufs, open, q) && LogOk(bufs, disk, open, All(q), restored)
    ensures var q' := Enqueued(q, open, View(bufs, disk));
            && PendOk(bufs, |disk|, open, q') && LogOk(bufs, disk, open, All(q'), View(bufs, disk)) && open <= Pending(q')
            && Awaited(bufs, {}, q') && Replayed(All(q'), disk) == View(bufs, disk)
  {
    hide View, RefsOk, LogOk, QueueOk, All, Pending, Replayed;
    var seen := View(bufs, disk);
    var copies := map x | x in open && x < |seen| :: seen[x];
    Logged(bufs, disk, open, users, All(q), restored);
    assert copies.Keys == open;
    if open == {} {
      assert All(q) + copies == All(q);
    } else {
      QueuedLast(q, Queued(copies, open));
      LastOk(q, Queued(copies, open));
      AboveZero(bufs, open, users);
    }
    OpenDirty(bufs, open, users);
    ReplaySame(bufs, disk, open, All(Enqueued(q, open, seen)), seen);
  }

  lemma EnqueuedIs(bufs: Bufs, disk: seq<Block>, open: set<nat>, users: map<nat, nat>, q: seq<Queued>)
    requires RefsOk(bufs, open, users) && forall x :: x in open ==> x < |disk|
    ensures Enqueued(q, open, View(bufs, disk)) == if open == {} then q else q + [Queued(Copies(bufs, open), open)]
  {
    assert open != {} ==> Copies(bufs, open) == map x | x in open && x < |disk| :: View(bufs, disk)[x];
  }

  lemma WaitsInLog(bufs: Bufs, n: nat, open: set<nat>, q: seq<Queued>)
    requires PendOk(bufs, n, open, q)
    ensures Pending(q) <= All(q).Keys
  {
    PendingInAll(q);
  }

  lemma PendReleased(bufs: Bufs, bufs': Bufs, n: nat, open: set<nat>, q: seq<Queued>, lba: nat)
    requires PendOk(bufs, n, open, q) && lba in Pending(q) && forall x :: x in bufs' && bufs'[x].dirty ==> x in bufs && bufs[x].dirty
    ensures PendOk(bufs', n, open - {lba}, q)
  {
    hide QueueOk, All, Pending;
  }

  lemma OpenDirty(bufs: Bufs, open: set<nat>, users: map<nat, nat>)
    requires RefsOk(bufs, open, users)
    ensures forall x :: x in open ==> x in bufs && bufs[x].dirty
  {
  }

  lemma NothingOpen(disk: seq<Block>, q: seq<Queued>, restored: seq<Block>)
    requires |restored| == |disk|
    ensures HomeOk(disk, {}, q, restored)
  {
  }

  lemma AboveZero(bufs: Bufs, open: set<nat>, users: map<nat, nat>)
    requires RefsOk(bufs, open, users)
    ensures forall x :: x in open ==> x > 0
  {
  }

  /** The first transaction of the queue is done with a block. */
  function HeadWithout(q: seq<Queued>, lba: nat): seq<Queued>
    requires q != []
  {
    [q[0].(waiting := q[0].waiting - {lba})] + q[1..]
  }

  lemma HeadWithoutIs(q: seq<Queued>, lba: nat)
    requires QueueOk(q) && q != []
    ensures var q' := HeadWithout(q, lba);
            QueueOk(q') && All(q') == All(q) && Pending(q') <= Pending(q) <= Pending(q') + {lba} && Pending(q[1..]) <= Pending(q')
  {
    assert HeadWithout(q, lba)[1..] == q[1..];
  }

  lemma HeadDone(bufs: Bufs, bufs': Bufs, n: nat, open: set<nat>, q: seq<Queued>, lba: nat)
    requires PendOk(bufs, n, open, q) && q != [] && lba in q[0].waiting && bufs' - {lba} == bufs - {lba}
    requires lba in bufs' && bufs'[lba].dirty ==> lba in open || lba in All(q[1..])
    ensures PendOk(bufs', n, open, HeadWithout(q, lba)) && All(HeadWithout(q, lba)) == All(q)
  {
    hide All, Pending, HeadWithout;
    HeadWithoutIs(q, lba);
    PendTouched(bufs, bufs', n, open, q, HeadWithout(q, lba), lba);
  }

  /** Flushing one of the oldest transaction's blocks ends nothing else of it. */
  lemma HeadLeft(bufs: Bufs, bufs': Bufs, open: set<nat>, q: seq<Queued>, lba: nat)
    requires Awaited(bufs, open, q) && q != [] && bufs' - {lba} == bufs - {lba}
    ensures q[0].waiting - {lba} - Ended(bufs', open, HeadWithout(q, lba)) == q[0].waiting - {lba}
  {
    SameButOne(bufs, bufs', lba);
    forall x | x in q[0].waiting && x != lba ensures Unwritten(bufs', open, x) {
      assert x in Pending(q);
    }
  }

  /** What a block of the oldest transaction gets at home: the copy in the log, as it is there, once a later transaction has the block. */
  ghost function HomeOf(q: seq<Queued>, open: set<nat>, seen: seq<Block>, x: nat): Block
    requires q != [] && x in q[0].copies && x < |seen|
  {
    if x in open || x in All(q[1..]) then Escape(q[0].copies[x]) else seen[x]
  }

  /** The disk when the blocks in done have gone home. */
  ghost predicate Homed(q: seq<Queued>, open: set<nat>, seen: seq<Block>, disk: seq<Block>, disk': seq<Block>, done: set<nat>) {
    && q != [] && done <= q[0].copies.Keys && |seen| == |disk'| == |disk|
    && forall x :: 0 <= x < |disk| ==> disk'[x] == if x in done then HomeOf(q, open, seen, x) else disk[x]
  }

  lemma HomedNone(q: seq<Queued>, open: set<nat>, seen: seq<Block>, disk: seq<Block>)
    requires q != [] && |seen| == |disk|
    ensures Homed(q, open, seen, disk, disk, q[0].waiting - q[0].waiting)
  {
  }

  lemma HomedMore(q0: seq<Queued>, q: seq<Queued>, open: set<nat>, ended: set<nat>, seen: seq<Block>,
                  disk: seq<Block>, disk1: seq<Block>, disk': seq<Block>, lba: nat)
    requires q0 != [] && q != [] && q == [q0[0].(waiting := q[0].waiting)] + EndAll(q0[1..], ended)
    requires lba in q[0].waiting && q[0].waiting <= q0[0].waiting <= q0[0].copies.Keys
    requires Homed(q0, open, seen, disk, disk1, q0[0].waiting - q[0].waiting) && Homed(q, open, seen, disk1, disk', {lba})
    ensures Homed(q0, open, seen, disk, disk', q0[0].waiting - (q[0].waiting - {lba}))
  {
    hide All;
    EndAllIs(q0[1..], ended);
    assert q[1..] == EndAll(q0[1..], ended);
  }

  lemma EndedClosed(bufs: Bufs, open: set<nat>, q: seq<Queued>)
    ensures Ended(bufs, open, q) !! open
  {
  }

  lemma HeadIn(q: seq<Queued>, lba: nat)
    requires QueueOk(q) && q != [] && lba in q[0].waiting
    ensures lba in q[0].copies && lba in All(q) && lba in Pending(q) && (lba !in All(q[1..]) ==> All(q)[lba] == q[0].copies[lba])
  {
  }

  /** What it means that a block of the first transaction waits. */
  lemma HeadWaits(bufs: Bufs, disk: seq<Block>, open: set<nat>, q: seq<Queued>, users: map<nat, nat>, restored: seq<Block>, lba: nat)
    requires RefsOk(bufs, open, users) && PendOk(bufs, |disk|, open, q) && Awaited(bufs, open, q)
    requires LogOk(bufs, disk, open, All(q), restored) && q != [] && lba in q[0].waiting
    ensures lba in q[0].copies && lba in All(q) && 0 < lba < |disk| && lba in bufs && bufs[lba].dirty && (lba in open ==> bufs[lba].refctr > 0)
    ensures lba !in All(q[1..]) ==> |restored| == |disk| && q[0].copies[lba] == restored[lba]
  {
    hide View, All, Pending, QueueOk;
    HeadIn(q, lba);
  }

  lemma DroppedHome(bufs: Bufs, disk: seq<Block>, open: set<nat>, q: seq<Queued>, restored: seq<Block>)
    requires PendOk(bufs, |disk|, open, q) && q != [] && q[0].waiting == {}
    requires HomeOk(disk, open, q, restored) && Replayed(All(q), disk) == restored
    requires var r := Replayed(All(q[1..]), disk);
             forall x :: 0 <= x < |disk| ==> r[x] == if x in open && x in q[0].copies && x !in All(q[1..]) then disk[x] else restored[x]
    ensures Replayed(All(q[1..]), disk) == restored && HomeOk(disk, open, q[1..], restored)
  {
    PendingInAll(q[1..]);
    var r := Replayed(All(q[1..]), disk);
    assert Pending(q) == Pending(q[1..]);
    forall x | 0 <= x < |disk| ensures r[x] == restored[x] {}
  }

  /** One more turn of flushing the first transaction. */
  lemma FlushedMore(head: Queued, rest: seq<Queued>, waiting: set<nat>, ended: set<nat>, lba: nat, more: set<nat>)
    ensures EndAll(HeadWithout([head.(waiting := waiting)] + EndAll(rest, ended), lba), more)
         == [head.(waiting := waiting - {lba} - more)] + EndAll(rest, ended + more)
  {
    var q := HeadWithout([head.(waiting := waiting)] + EndAll(rest, ended), lba);
    EndAllAgain(rest, ended, more);
    assert q == [head.(waiting := waiting - {lba})] + EndAll(rest, ended);
    assert q[1..] == EndAll(rest, ended);
  }

  lemma FlushedNone(q: seq<Queued>)
    requires q != []
    ensures q == [q[0].(waiting := q[0].waiting)] + EndAll(q[1..], {})
  {
    EndNone(q[1..], {});
  }

  /** The other direction of SameButOne. */
  lemma ButOneSame(bufs: Bufs, bufs': Bufs, lba: nat)
    requires forall x :: x != lba ==> (x in bufs' <==> x in bufs) && (x in bufs' ==> bufs'[x] == bufs[x])
    ensures bufs' - {lba} == bufs - {lba}
  {
  }

  /** The queue when its first transaction has been flushed. */
  ghost predicate Flushed(q: seq<Queued>, q': seq<Queued>, open: set<nat>, ended: set<nat>) {
    q != [] && q' == [q[0].(waiting := {})] + EndAll(q[1..], ended) && ended !! open
  }

  ghost predicate FlushedDisk(q: seq<Queued>, disk: seq<Block>, disk': seq<Block>, open: set<nat>) {
    && q != [] && q[0].waiting <= q[0].copies.Keys && |disk'| == |disk|
    && forall x :: x in open && x < |disk| ==> disk'[x] == if x in q[0].waiting then Escape(q[0].copies[x]) else disk[x]
  }

  lemma FlushedQueue(q: seq<Queued>, q': seq<Queued>, open: set<nat>, ended: set<nat>)
    requires QueueOk(q) && Flushed(q, q', open, ended)
    ensures All(q') == All(q) && forall x :: x in open ==> (x in Pending(q') <==> x in Pending(q[1..]))
    ensures forall x :: x in q[0].waiting && x in All(q[1..]) ==> x in Pending(q[1..])
    ensures forall x :: x in Pending(q) <==> x in q[0].waiting || x in Pending(q[1..])
  {
    assert q'[1..] == EndAll(q[1..], ended);
    EndAllIs(q[1..], ended);
  }

  /** Flushing is right at home but for open blocks of no other transaction whose copies are escaped. */
  lemma FlushedHome(q: seq<Queued>, q': seq<Queued>, disk: seq<Block>, disk': seq<Block>, open: set<nat>, ended: set<nat>, restored: seq<Block>)
    requires QueueOk(q) && Flushed(q, q', open, ended) && FlushedDisk(q, disk, disk', open)
    requires HomeOk(disk, open, q, restored) && Replayed(All(q), disk) == restored && forall x :: x in All(q) ==> x < |disk|
    ensures HomeOk(disk', open, q', restored) <==>
            forall x :: x in open && x in q[0].waiting && x !in All(q[1..]) ==> !NeedsEscape(q[0].copies[x])
  {
    hide QueueOk, Pending, Flushed;
    FlushedQueue(q, q', open, ended);
    OnlyInHead(q);
    forall x | x in open && x in q[0].waiting && x !in All(q[1..])
      ensures x < |disk| && x !in Pending(q') && disk'[x] == Escape(restored[x]) && restored[x] == q[0].copies[x]
      ensures disk'[x] == restored[x] <==> !NeedsEscape(q[0].copies[x])
    {
      assert x in All(q);
      LogCopyIsData(q[0].copies[x]);
    }
    forall x | x in open && x in All(q) && x !in Pending(q') && !(x in q[0].waiting && x !in All(q[1..]))
      ensures disk'[x] == restored[x]
    {
    }
  }

  lemma OnlyInHead(q: seq<Queued>)
    requires QueueOk(q) && q != []
    ensures Pending(q[1..]) <= All(q[1..]).Keys
  {
    PendingInAll(q[1..]);
  }

  /** What the restored disk is to be when everything that waited has been flushed while some blocks are open. */
  ghost function Escaped(was: seq<Block>, open: set<nat>, pending: set<nat>, x: nat): Block
    requires x < |was|
  {
    if x in open && x in pending then Escape(was[x]) else was[x]
  }

  /** Halfway through flushing the whole queue. */
  ghost predicate Halfway(disk: seq<Block>, open: set<nat>, q: seq<Queued>, restored: seq<Block>, was: seq<Block>, pending: set<nat>) {
    && |restored| == |was| == |disk|
    && forall x: nat :: x < |was| ==>
      && (x !in open ==> restored[x] == was[x])
      && (x in open && x in Pending(q) ==> x in pending && restored[x] == was[x])
      && (x in open && x in All(q) && x !in Pending(q) ==> restored[x] == was[x] && disk[x] == Escaped(was, open, pending, x))
      && (x in open && x !in All(q) ==> restored[x] == Escaped(was, open, pending, x))
  }

  lemma HalfwayStart(disk: seq<Block>, open: set<nat>, q: seq<Queued>, was: seq<Block>)
    requires HomeOk(disk, open, q, was) && QueueOk(q)
    ensures Halfway(disk, open, q, was, was, Pending(q))
  {
    PendingInAll(q);
  }

  lemma HalfwayFlushed(q: seq<Queued>, q': seq<Queued>, disk: seq<Block>, disk': seq<Block>, open: set<nat>, ended: set<nat>,
                       restored: seq<Block>, was: seq<Block>, pending: set<nat>)
    requires QueueOk(q) && Flushed(q, q', open, ended) && FlushedDisk(q, disk, disk', open)
    requires Halfway(disk, open, q, restored, was, pending) && Replayed(All(q), disk) == restored
    ensures Halfway(disk', open, q', restored, was, pending)
  {
    hide QueueOk, Pending, Flushed;
    FlushedQueue(q, q', open, ended);
    OnlyInHead(q);
    forall x: nat | x < |was| && x in open && x in All(q) && x !in Pending(q')
      ensures restored[x] == was[x] && disk'[x] == Escaped(was, open, pending, x)
    {
      if x in q[0].waiting {
        assert x !in All(q[1..]) && x in Pending(q);
        assert q[0].copies[x] == restored[x];
      }
    }
  }

  lemma HalfwayDropped(disk: seq<Block>, open: set<nat>, q: seq<Queued>, restored: seq<Block>, restored': seq<Block>, was: seq<Block>,
                       pending: set<nat>)
    requires QueueOk(q) && q != [] && q[0].waiting == {} && Halfway(disk, open, q, restored, was, pending) && |restored'| == |disk|
    requires forall x :: 0 <= x < |disk| ==>
      restored'[x] == if x in open && x in q[0].copies && x !in All(q[1..]) then disk[x] else restored[x]
    ensures Halfway(disk, open, q[1..], restored', was, pending)
  {
    hide QueueOk;
    OnlyInHead(q);
    assert Pending(q) == Pending(q[1..]);
  }

  lemma HalfwayEnd(disk: seq<Block>, open: set<nat>, restored: seq<Block>, was: seq<Block>, pending: set<nat>)
    requires Halfway(disk, open, [], restored, was, pending)
    ensures forall x: nat :: x < |was| ==> restored[x] == Escaped(was, open, pending, x)
    ensures HomeOk(disk, open, [], restored)
    ensures restored == was <==> forall x :: x in open && x in pending && x < |was| ==> !NeedsEscape(was[x])
  {
    forall x: nat | x < |was|
      ensures restored[x] == Escaped(was, open, pending, x)
      ensures x in open && x in pending && NeedsEscape(was[x]) <==> restored[x] != was[x]
    {
      LogCopyIsData(was[x]);
    }
  }
}

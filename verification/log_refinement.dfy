/**
 Putting a transaction into the log is one step: at every moment of writing it, a recovery from
 the log brings back what the queue of transactions says, first without the new one and, once
 its last block is written, with it.
 */
module LogRefinement {
  import opened JournalFormat
  import opened JournalLog
  import opened JournalOutcome
  import opened JournalLayout
  import opened JournalAtomicity
  import opened JournalWriter
  import opened LogQueue

  /** A list of writes gives blocks these contents. */
  ghost predicate Gives(writes: seq<(nat, Block)>, copies: map<nat, Block>) {
    forall x: nat, data: Block :: (x, data) in writes <==> x in copies && copies[x] == data
  }

  /** The buffers of a transaction that were changed are these blocks. */
  ghost predicate Carries(bufs: seq<JbdBuf>, copies: map<nat, Block>) {
    forall x: nat, data: Block :: JbdBuf(x, data, true) in bufs <==> x in copies && copies[x] == data
  }

  /** The transactions in the log are those of the queue; none revokes a block. */
  ghost predicate InLog(txns: seq<Txn>, q: seq<Queued>) {
    |txns| == |q| && forall k :: 0 <= k < |txns| ==> txns[k].revokes == [] && Gives(txns[k].writes, q[k].copies)
  }

  ghost function Found(copies: map<nat, Block>, x: nat): Option<Block> { if x in copies then Some(copies[x]) else None }

  lemma {:induction false} LastWriteIn(writes: seq<(nat, Block)>, x: nat)
    ensures match LastWrite(writes, x)
            case Some(data) => (x, data) in writes
            case None => forall data: Block :: (x, data) !in writes
  {
    if writes != [] {
      var n := |writes| - 1;
      LastWriteIn(writes[..n], x);
      assert writes == writes[..n] + [writes[n]];
    }
  }

  lemma LastGiven(writes: seq<(nat, Block)>, copies: map<nat, Block>, x: nat)
    requires Gives(writes, copies)
    ensures LastWrite(writes, x) == Found(copies, x)
  {
    LastWriteIn(writes, x);
    if x in copies {
      assert (x, copies[x]) in writes;
    }
  }

  lemma {:induction false} DirtyIn(bufs: seq<JbdBuf>, x: nat, data: Block)
    ensures (x, data) in Dirty(bufs) <==> JbdBuf(x, data, true) in bufs
  {
    if bufs != [] {
      var n := |bufs| - 1;
      DirtyIn(bufs[..n], x, data);
      assert bufs == bufs[..n] + [bufs[n]];
    }
  }

  lemma CarriesGives(bufs: seq<JbdBuf>, copies: map<nat, Block>)
    requires Carries(bufs, copies)
    ensures Gives(Dirty(bufs), copies)
  {
    forall x: nat, data: Block ensures (x, data) in Dirty(bufs) <==> x in copies && copies[x] == data {
      DirtyIn(bufs, x, data);
    }
  }

  /** The last committed writer of a block is the last transaction of the queue that has it. */
  lemma {:induction false} SurvivorIsQueued(txns: seq<Txn>, q: seq<Queued>, x: nat)
    requires InLog(txns, q)
    ensures Survivor(txns, x) == Found(All(q), x)
  {
    hide All, Gives, LastWrite;
    if txns == [] {
      NoneQueued();
    } else {
      var n := |q| - 1;
      SurvivorIsQueued(txns[..n], q[..n], x);
      QueuedLast(q[..n], q[n]);
      assert q == q[..n] + [q[n]];
      LastGiven(txns[n].writes, q[n].copies, x);
    }
  }

  /** A recovery from the log over a disk is what the queue says. */
  lemma RecoveredIsReplayed(recs: seq<Record>, start: Word, q: seq<Queued>, disk: seq<Block>, home: map<nat, Block>, x: nat)
    requires AllValid(recs) && Commits(recs) < 0x8000_0000 && InLog(Transactions(recs), q)
    requires 0 < x < |disk| && x in home && home[x] == disk[x]
    ensures Lookup(Recovered(recs, start, home), x) == Some(Replayed(All(q), disk)[x])
  {
    hide Recovered, Survivor, Transactions, All, InLog;
    RecoveryOutcome(recs, start, home, x);
    SurvivorIsQueued(Transactions(recs), q, x);
  }
  /** The queue gains the transaction that the log gained. */
  lemma InLogLast(txns: seq<Txn>, q: seq<Queued>, bufs: seq<JbdBuf>, copies: map<nat, Block>, open: set<nat>)
    requires InLog(txns, q) && Carries(bufs, copies)
    ensures InLog(txns + [Txn(Dirty(bufs), [])], q + [Queued(copies, open)])
  {
    CarriesGives(bufs, copies);
  }

  /**
   The writing of a transaction without revokes.  Whatever number i of its blocks are in the log, a recovery gives
   every block what the queue said before or, when all are written, what it says with the new transaction.
   */
  method CommitToLog(journal: Journal, trans: Trans, ghost id0: Word, ghost recs0: seq<Record>, ghost q: seq<Queued>,
                     ghost copies: map<nat, Block>, ghost disk: seq<Block>, ghost home: map<nat, Block>)
    requires journal.Circ().Valid() && journal.cfg.Valid() && |journal.log| == journal.maxlen && BlocksOk(journal.cfg, journal.log)
    requires BufsOk(journal.cfg, trans.bufQueue) && trans.dataCnt == |trans.bufQueue| && trans.revokeRoot == []
    requires Parse(journal.cfg, journal.Circ().Turn(journal.log), 0, id0) == Some(recs0) && (recs0 != [] ==> recs0[|recs0| - 1].Commit?)
    requires journal.allocTransId == IdAfter(recs0, id0)
    requires FreeFrom(journal.Circ().Turn(journal.log), SizeOfRecords(recs0), journal.allocTransId)
    requires journal.last == journal.Circ().Pos(SizeOfRecords(recs0))
    requires SizeOfRecords(recs0) + 2 * |Dirty(trans.bufQueue)| + 1 < journal.Circ().Size()
    requires InLog(Transactions(recs0), q) && copies != map[] && Carries(trans.bufQueue, copies)
    requires forall x: nat :: x < |disk| ==> x in home && home[x] == disk[x]
    modifies journal, trans
    ensures forall i, x: nat :: 0 <= i <= |journal.trace| && 0 < x < |disk| ==>
      var L := Apply(journal.base, journal.trace[..i]);
      && BlocksOk(journal.cfg, L) && Parse(journal.cfg, L, 0, id0).Some?
      && Lookup(Recovered(Parse(journal.cfg, L, 0, id0).value, id0, home), x)
         == Some(Replayed(All(if i == |journal.trace| then q + [Queued(copies, copies.Keys)] else q), disk)[x])
  {
    hide Parse, Apply, Recovered, Transactions, InLog, Carries, All, Replayed, Dirty, BlocksOk, FreeFrom, Journal.Valid, Stored, BufsOk, SizeOf;
    ghost var bufs := trans.bufQueue;
    SomeDirty(bufs, copies);
    var committed;
    ghost var chunks;
    committed, chunks := journal.CommitTrans(trans, id0, recs0);
    InLogLast(Transactions(recs0), q, bufs, copies, copies.Keys);
    forall i, x: nat | 0 <= i <= |journal.trace| && 0 < x < |disk|
      ensures var L := Apply(journal.base, journal.trace[..i]);
              && BlocksOk(journal.cfg, L) && Parse(journal.cfg, L, 0, id0).Some?
              && Lookup(Recovered(Parse(journal.cfg, L, 0, id0).value, id0, home), x)
                 == Some(Replayed(All(if i == |journal.trace| then q + [Queued(copies, copies.Keys)] else q), disk)[x])
    {
      var L := Apply(journal.base, journal.trace[..i]);
      var recs := Parse(journal.cfg, L, 0, id0).value;
      var q' := if i == |journal.trace| then q + [Queued(copies, copies.Keys)] else q;
      assert InLog(Transactions(recs), q') by {
        assert Transactions(recs0) + [] == Transactions(recs0);
      }
      RecoveredIsReplayed(recs, id0, q', disk, home, x);
    }
  }

  lemma SomeDirty(bufs: seq<JbdBuf>, copies: map<nat, Block>)
    requires Carries(bufs, copies) && copies != map[]
    ensures Dirty(bufs) != []
  {
    CarriesGives(bufs, copies);
    var x :| x in copies;
    assert (x, copies[x]) in Dirty(bufs);
  }
}

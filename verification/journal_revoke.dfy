/**
 The life of one block among the transactions: when it is dirtied, freed, logged, written home, and which log copies of
 it a recovery would still replay.
 */
module JournalRevoke {
  import opened JournalFormat
  import opened JournalLog
  import opened JournalOutcome

  /** block_rec->trans: the transaction that the block's record belongs to, if it has a record. */
  datatype Holder = NoRecord | Holder(trans: nat)

  /** end_write and end_write_arg of the block's buffer: the transaction whose jbd_buf is told of the write. */
  datatype Callback = Unset | EndWrite(trans: nat)

  ghost predicate Copied(t: Txn, lba: nat) { LastWrite(t.writes, lba).Some? }

  class BlockLife {
    const lba: nat
    // The transactions in the log, of which the oldest has this id; the open one comes after them.
    var oldest: nat
    var log: seq<Txn>
    // The block's record and the transactions of its jbd_bufs that are not written home, oldest first.
    var holder: Holder
    var queue: seq<nat>
    // Whether the open transaction's revoke_root has the block.
    var revoking: bool
    // The buffer, and whether the block was freed since it was last dirtied.
    var callback: Callback
    var dirty: bool
    var free: bool

    constructor (lba: nat)
      ensures Sound() && this.lba == lba && oldest == 0 && log == [] && holder == NoRecord && !dirty && !free && queue == [] && !revoking
    {
      this.lba, oldest, log, holder, queue, revoking, callback, dirty, free := lba, 0, [], NoRecord, [], false, Unset, false, false;
    }

    /** The id that the open transaction will get. */
    function Cur(): nat
      reads this
    {
      oldest + |log|
    }

    /** No transaction after this one has a copy in the log. */
    ghost predicate NoneLater(id: nat)
      reads this
    {
      forall k :: 0 <= k < |log| && id < oldest + k ==> !Copied(log[k], lba)
    }

    /** The last copy in the log is the holder's, and from the first unwritten jbd_buf on each copy has one. */
    ghost predicate RecordOk()
      reads this
    {
      && (holder.Holder? ==> oldest <= holder.trans <= Cur() && NoneLater(holder.trans))
      && (queue != [] ==> forall k :: 0 <= k < |log| && queue[0] <= oldest + k && Copied(log[k], lba) ==> oldest + k in queue)
    }

    ghost predicate QueueOk()
      reads this
    {
      && (forall i :: 0 <= i < |queue| ==> oldest <= queue[i] <= Cur()) && (forall i, j :: 0 <= i < j < |queue| ==> queue[i] <= queue[j])
      && (holder == Holder(Cur()) ==> queue != [])
      && if queue == [] then true else holder == Holder(queue[|queue| - 1])
    }

    ghost predicate BufferOk()
      reads this
    {
      && (if callback.EndWrite? then dirty && queue != [] && holder == Holder(callback.trans) else !dirty)
      && (free ==> !dirty) && (revoking ==> free) && (queue != [] && !dirty ==> free)
      && (free && queue != [] ==> revoking || queue == [Cur()])
    }

    ghost predicate Valid()
      reads this
    {
      RecordOk() && QueueOk() && BufferOk()
    }

    /** Once the open transaction is in the log, no recovery will write an old copy over the block if it is free. */
    ghost predicate Sound()
      reads this
    {
      Valid() && (free ==> revoking || Survivor(log, lba) == None) && (holder == NoRecord ==> Survivor(log, lba) == None)
    }

    /** jbd_trans_set_block_dirty */
    method SetDirty()
      requires Sound()
      modifies this
      ensures Sound() && dirty && !free && !revoking && log == old(log) && oldest == old(oldest)
      ensures holder == Holder(Cur()) && callback == EndWrite(Cur())
      ensures queue == if old(callback) == EndWrite(Cur()) then old(queue) else old(queue) + [Cur()]
    {
      if callback == EndWrite(Cur()) {
        return;
      }
      holder, queue, callback, dirty, revoking, free := Holder(Cur()), queue + [Cur()], EndWrite(Cur()), true, false, false;
    }

    /** What is freed was dirtied in the same transaction, its older copies are home, and one of them is still in the log. */
    ghost predicate LeavesCopy()
      reads this
    {
      holder == Holder(Cur()) && |queue| == 1 && !revoking && Survivor(log, lba).Some?
    }

    /** ext4_trans_try_revoke_block and the invalidation of the buffer, as freeing a block calls them */
    method Free()
      requires Sound()
      modifies this
      ensures Valid() && free && log == old(log) && oldest == old(oldest) && holder == old(holder) && queue == old(queue)
      ensures Sound() <==> !old(LeavesCopy())
      ensures old(LeavesCopy()) ==> !revoking
    {
      hide Survivor, Copied;
      if holder.Holder? {
        if holder.trans == Cur() {
          if |queue| > 1 {
            revoking := true;
          }
        } else {
          revoking := true;
        }
      }
      callback, dirty, free := Unset, false, true;
    }

    /** The part of jbd_journal_prepare that drops a buffer which is clean again: an older transaction gets the record, or it goes. */
    method DropClean()
      requires Valid() && queue != [] && queue[|queue| - 1] == Cur() && !dirty && (|queue| > 1 ==> queue[|queue| - 2] < Cur())
      modifies this
      ensures Valid() && log == old(log) && oldest == old(oldest) && queue == old(queue)[..|old(queue)| - 1] && revoking == old(revoking)
      ensures holder == (if queue == [] then NoRecord else Holder(queue[|queue| - 1])) && free && !dirty
    {
      var cur := Cur();
      queue, callback := queue[..|queue| - 1], Unset;
      if holder == Holder(cur) && queue != [] {
        // The block is being revoked, so that its data is not rolled back.
        assert revoking;
        holder := Holder(queue[|queue| - 1]);
      }
      if holder == Holder(cur) {
        holder := NoRecord;
      }
    }

    /**
     jbd_journal_commit_trans, as far as the block goes: t is what the transaction writes to the log and revokes.  A block
     that was dirtied and freed twice within the transaction is excluded.
     */
    method Commit(t: Txn)
      requires Valid() && (!dirty && |queue| > 1 && queue[|queue| - 1] == Cur() ==> queue[|queue| - 2] < Cur())
      requires Copied(t, lba) <==> dirty && queue[|queue| - 1] == Cur()
      requires lba in t.revokes <==> revoking
      modifies this
      ensures Valid() && log == old(log) + [t] && oldest == old(oldest) && free == old(free) && dirty == old(dirty) && !revoking
      ensures free ==> queue == [] && Survivor(log, lba) == if old(revoking) then None else Survivor(old(log), lba)
      ensures Copied(t, lba) ==> Survivor(log, lba) == LastWrite(t.writes, lba)
      ensures old(Sound()) ==> Sound()
      ensures old(queue != [] && queue[|queue| - 1] == Cur() && !dirty) ==>
        holder == if |old(queue)| == 1 then NoRecord else Holder(old(queue)[|old(queue)| - 2])
      ensures old(dirty) ==> holder == old(holder) && queue == old(queue) && callback == old(callback)
    {
      hide LastWrite, Copied, Survivor;
      ghost var log0 := log;
      if queue != [] && queue[|queue| - 1] == Cur() && !dirty {
        DropClean();
      }
      log := log + [t];
      SurvivorNext(log0, t, lba);
      if revoking {
        // The last jbd_buf counts as written, and with it those before it.
        queue, callback := [], Unset;
      }
      revoking := false;
    }

    /** The buffer is written back: jbd_trans_end_write for its transaction, which has the older jbd_bufs counted as well. */
    method HomeWrite()
      requires Sound() && callback.EndWrite? && callback.trans < Cur()
      modifies `queue, `callback, `dirty
      ensures Sound() && queue == [] && !dirty
    {
      queue, callback, dirty := [], Unset, false;
    }

    /** jbd_journal_flush_trans writes the log copy of an older transaction: only its own jbd_buf goes. */
    method EndOlder()
      requires Sound() && |queue| > 1 && queue[0] < Cur() && holder != Holder(queue[0])
      modifies `queue
      ensures Sound() && queue == old(queue)[1..]
    {
      queue := queue[1..];
    }

    /** The oldest transaction leaves the log; it has no unwritten jbd_buf left. */
    method Purge()
      requires Sound() && log != [] && oldest !in queue
      modifies `log, `oldest, `holder
      ensures Sound() && log == old(log)[1..] && oldest == old(oldest) + 1
      ensures holder == if old(holder) == Holder(old(oldest)) then NoRecord else old(holder)
    {
      hide LastWrite, Copied, Survivor;
      ghost var log0 := log;
      SurvivorRest(log, lba);
      if holder == Holder(oldest) {
        holder := NoRecord;
        NoneSurvives(log[1..], lba);
      }
      log, oldest := log[1..], oldest + 1;
    }
  }

  lemma SurvivorNext(log: seq<Txn>, t: Txn, lba: nat)
    ensures Survivor(log + [t], lba) == if lba in t.revokes then None else if Copied(t, lba) then LastWrite(t.writes, lba) else Survivor(log, lba)
  {
    assert (log + [t])[..|log|] == log;
  }

  lemma {:induction false} NoneSurvives(log: seq<Txn>, lba: nat)
    requires forall k :: 0 <= k < |log| ==> !Copied(log[k], lba)
    ensures Survivor(log, lba) == None
  {
    if log != [] {
      NoneSurvives(log[..|log| - 1], lba);
    }
  }

  /** When the oldest transaction goes no hidden copy comes to light. */
  lemma {:induction false} SurvivorRest(log: seq<Txn>, lba: nat)
    requires log != []
    ensures Survivor(log, lba) == None ==> Survivor(log[1..], lba) == None
  {
    var n := |log| - 1;
    if n > 0 {
      SurvivorRest(log[..n], lba);
      assert log[..n][1..] == log[1..][..n - 1];
    }
  }

  /** A recovery leaves a free block alone whose copies are all hidden. */
  lemma FreedUntouched(recs: seq<Record>, start: Word, disk: map<nat, Block>, lba: nat)
    requires AllValid(recs) && Commits(recs) < 0x8000_0000 && lba != 0 && Survivor(Transactions(recs), lba) == None
    ensures Lookup(Recovered(recs, start, disk), lba) == Lookup(disk, lba)
  {
    RecoveryOutcome(recs, start, disk, lba);
  }

  lemma OneCopy(lba: nat, data: Block)
    ensures Copied(Txn([(lba, data)], []), lba) && !Copied(Txn([], []), lba) && Survivor([Txn([(lba, data)], [])], lba) == Some(data)
  {
    SurvivorNext([], Txn([(lba, data)], []), lba);
  }

  /**
   A run after which a recovery writes an old copy over a free block: the block is logged and written home, but its
   transaction stays in the log; then it is dirtied and freed again in one transaction.
   */
  method StaleCopy(lba: nat, data: Block) returns (b: BlockLife)
    ensures b.lba == lba && b.free && Survivor(b.log, lba) == Some(data)
  {
    hide Survivor;
    b := new BlockLife(lba);
    var t := Txn([(lba, data)], []);
    OneCopy(lba, data);
    b.SetDirty();
    b.Commit(t);
    b.HomeWrite();
    assert b.log == [t];
    b.SetDirty();
    assert b.LeavesCopy();
    b.Free();
    b.Commit(Txn([], []));
  }
}

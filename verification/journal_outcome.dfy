/**
 What a recovery restores, told in transactions rather than in records: a home block
 ends with the data of its last committed writer, unless that transaction or a later
 one revokes the block.
 */
module JournalOutcome {
  import opened JournalFormat
  import opened JournalLog

  /** A transaction: the home blocks it writes, in log order, and the blocks it revokes. */
  datatype Txn = Txn(writes: seq<(nat, Block)>, revokes: seq<nat>)

  const NoWork := Txn([], [])

  ghost function WritesOf(rec: Record): (w: seq<(nat, Block)>)
    requires rec.Descriptor? && rec.Valid()
    ensures |w| == |rec.tags|
  {
    seq(|rec.tags|, i requires 0 <= i < |rec.tags| => (rec.tags[i].block, Unescape(rec.data[i], rec.tags[i].isEscape)))
  }

  ghost function Extend(cur: Txn, rec: Record): Txn
    requires rec.Valid()
  {
    match rec
    case Commit => NoWork
    case Revoke(lbas) => Txn(cur.writes, cur.revokes + lbas)
    case Descriptor(_, _) => Txn(cur.writes + WritesOf(rec), cur.revokes)
  }

  /** The committed transactions of a log, of which cur is the part already read. */
  ghost function Group(recs: seq<Record>, cur: Txn): (txns: seq<Txn>)
    requires AllValid(recs)
    ensures |txns| == Commits(recs)
  {
    if recs == [] then []
    else (if recs[0].Commit? then [cur] else []) + Group(recs[1..], Extend(cur, recs[0]))
  }

  ghost function Transactions(recs: seq<Record>): seq<Txn>
    requires AllValid(recs)
  {
    Group(recs, NoWork)
  }

  /** The last data that a list of writes gives to a block. */
  ghost function LastWrite(writes: seq<(nat, Block)>, lba: nat): Option<Block> {
    if writes == [] then None
    else
      var w := writes[|writes| - 1];
      if w.0 == lba then Some(w.1) else LastWrite(writes[..|writes| - 1], lba)
  }

  /** The data of the last committed writer of lba that no revoke hides. */
  ghost function Survivor(txns: seq<Txn>, lba: nat): Option<Block> {
    if txns == [] then None
    else
      var t := txns[|txns| - 1];
      if lba in t.revokes then None
      else
        match LastWrite(t.writes, lba)
        case Some(data) => Some(data)
        case None => Survivor(txns[..|txns| - 1], lba)
  }

  ghost function Lookup(disk: map<nat, Block>, lba: nat): Option<Block> {
    if lba in disk then Some(disk[lba]) else None
  }

  ghost function OrElse(a: Option<Block>, b: Option<Block>): Option<Block> { if a.Some? then a else b }

  // ----- the passes, transaction by transaction -----

  ghost function ApplyWrites(writes: seq<(nat, Block)>, id: Word, tree: map<nat, Word>, disk: map<nat, Block>): map<nat, Block> {
    if writes == [] then disk
    else
      var w := writes[|writes| - 1];
      var d := ApplyWrites(writes[..|writes| - 1], id, tree, disk);
      if Revoked(tree, w.0, id) || w.0 == 0 then d else d[w.0 := w.1]
  }

  ghost function TreeOf(txns: seq<Txn>, start: Word): map<nat, Word> {
    if txns == [] then map[]
    else AddRevokes(TreeOf(txns[..|txns| - 1], start), txns[|txns| - 1].revokes, IdAt(start, |txns| - 1))
  }

  ghost function HomeAfter(txns: seq<Txn>, start: Word, tree: map<nat, Word>, disk: map<nat, Block>): map<nat, Block> {
    if txns == [] then disk
    else ApplyWrites(txns[|txns| - 1].writes, IdAt(start, |txns| - 1), tree,
                     HomeAfter(txns[..|txns| - 1], start, tree, disk))
  }

  lemma {:induction false} ApplyConcat(w1: seq<(nat, Block)>, w2: seq<(nat, Block)>, id: Word, tree: map<nat, Word>, disk: map<nat, Block>)
    ensures ApplyWrites(w1 + w2, id, tree, disk) == ApplyWrites(w2, id, tree, ApplyWrites(w1, id, tree, disk))
    decreases |w2|
  {
    if w2 == [] {
      assert w1 + w2 == w1;
    } else {
      var n := |w2| - 1;
      assert (w1 + w2)[..|w1 + w2| - 1] == w1 + w2[..n];
      ApplyConcat(w1, w2[..n], id, tree, disk);
    }
  }

  /** Replaying a descriptor is applying its writes. */
  lemma {:induction false} ReplayIsApply(rec: Record, n: nat, id: Word, tree: map<nat, Word>, disk: map<nat, Block>)
    requires rec.Descriptor? && rec.Valid() && n <= |rec.tags|
    ensures ReplayBlocks(rec, n, id, tree, disk) == ApplyWrites(WritesOf(rec)[..n], id, tree, disk)
  {
    if n > 0 {
      ReplayIsApply(rec, n - 1, id, tree, disk);
      assert WritesOf(rec)[..n][..n - 1] == WritesOf(rec)[..n - 1];
    }
  }

  lemma NoCommitsNoGroup(recs: seq<Record>, cur: Txn)
    requires AllValid(recs) && Commits(recs) == 0
    ensures Group(recs, cur) == []
  {
  }

  lemma AddRevokesConcat(tree: map<nat, Word>, l1: seq<nat>, l2: seq<nat>, id: Word)
    ensures AddRevokes(AddRevokes(tree, l1, id), l2, id) == AddRevokes(tree, l1 + l2, id)
  {
  }

  /** One record more, seen as part of the transaction being read. */
  lemma ReplayExtend(cur: Txn, rec: Record, id: Word, tree: map<nat, Word>, home: map<nat, Block>)
    requires rec.Valid() && !rec.Commit?
    ensures ApplyWrites(Extend(cur, rec).writes, id, tree, home)
         == var d := ApplyWrites(cur.writes, id, tree, home);
            if rec.Descriptor? then ReplayBlocks(rec, |rec.tags|, id, tree, d) else d
  {
    if rec.Descriptor? {
      ReplayIsApply(rec, |rec.tags|, id, tree, ApplyWrites(cur.writes, id, tree, home));
      assert WritesOf(rec)[..|rec.tags|] == WritesOf(rec);
      ApplyConcat(cur.writes, WritesOf(rec), id, tree, home);
    }
  }

  lemma RevokeExtend(cur: Txn, rec: Record, id: Word, tree: map<nat, Word>)
    requires rec.Valid() && !rec.Commit?
    ensures AddRevokes(tree, Extend(cur, rec).revokes, id)
         == var t := AddRevokes(tree, cur.revokes, id);
            if rec.Revoke? then AddRevokes(t, rec.lbas, id) else t
  {
    if rec.Revoke? {
      AddRevokesConcat(tree, cur.revokes, rec.lbas, id);
    }
  }

  lemma CloseTxn(done: seq<Txn>, cur: Txn, start: Word, tree: map<nat, Word>, disk: map<nat, Block>)
    ensures TreeOf(done + [cur], start) == AddRevokes(TreeOf(done, start), cur.revokes, IdAt(start, |done|))
    ensures HomeAfter(done + [cur], start, tree, disk)
         == ApplyWrites(cur.writes, IdAt(start, |done|), tree, HomeAfter(done, start, tree, disk))
  {
    assert (done + [cur])[..|done|] == done;
  }

  /** The revoke pass over records, of which the transactions done are read and cur is being read. */
  lemma {:induction false} RevokePassIsTree(recs: seq<Record>, start: Word, total: nat, done: seq<Txn>, cur: Txn)
    requires AllValid(recs) && |done| + Commits(recs) == total && 0 < total < 0x8000_0000
    requires |done| == total ==> cur == NoWork
    ensures RevokePass(recs, IdAt(start, |done|), IdAt(start, total - 1), AddRevokes(TreeOf(done, start), cur.revokes, IdAt(start, |done|)))
         == TreeOf(done + Group(recs, cur), start)
    decreases |recs|
  {
    hide IdAt, TransIdDiff, TreeOf;
    var k, tree := |done|, TreeOf(done, start);
    DiffOrders(start, k, total - 1);
    if k == total {
      NoCommitsNoGroup(recs, cur);
      assert done + [] == done;
      assert AddRevokes(tree, [], IdAt(start, k)) == tree;
    } else if recs[0].Commit? {
      IdSucc(start, k);
      CloseTxn(done, cur, start, map[], map[]);
      assert AddRevokes(TreeOf(done + [cur], start), [], IdAt(start, k + 1)) == TreeOf(done + [cur], start);
      RevokePassIsTree(recs[1..], start, total, done + [cur], NoWork);
      assert done + [cur] + Group(recs[1..], NoWork) == done + Group(recs, cur);
    } else {
      RevokeExtend(cur, recs[0], IdAt(start, k), tree);
      RevokePassIsTree(recs[1..], start, total, done, Extend(cur, recs[0]));
      assert Group(recs, cur) == Group(recs[1..], Extend(cur, recs[0]));
    }
  }

  /** The same for the replay pass. */
  lemma {:induction false} ReplayPassIsHome(recs: seq<Record>, start: Word, total: nat, done: seq<Txn>, cur: Txn,
                                            tree: map<nat, Word>, disk: map<nat, Block>)
    requires AllValid(recs) && |done| + Commits(recs) == total && 0 < total < 0x8000_0000
    requires |done| == total ==> cur == NoWork
    ensures ReplayPass(recs, IdAt(start, |done|), IdAt(start, total - 1), tree,
                       ApplyWrites(cur.writes, IdAt(start, |done|), tree, HomeAfter(done, start, tree, disk)))
         == HomeAfter(done + Group(recs, cur), start, tree, disk)
    decreases |recs|
  {
    hide IdAt, TransIdDiff, HomeAfter, ReplayBlocks;
    var k, home := |done|, HomeAfter(done, start, tree, disk);
    DiffOrders(start, k, total - 1);
    if k == total {
      NoCommitsNoGroup(recs, cur);
      assert done + [] == done;
      PassEnds(recs, IdAt(start, k), IdAt(start, total - 1), tree, home);
    } else if recs[0].Commit? {
      IdSucc(start, k);
      CloseTxn(done, cur, start, tree, disk);
      ReplayPassIsHome(recs[1..], start, total, done + [cur], NoWork, tree, disk);
      assert done + [cur] + Group(recs[1..], NoWork) == done + Group(recs, cur);
    } else {
      ReplayExtend(cur, recs[0], IdAt(start, k), tree, home);
      ReplayPassIsHome(recs[1..], start, total, done, Extend(cur, recs[0]), tree, disk);
      assert Group(recs, cur) == Group(recs[1..], Extend(cur, recs[0]));
    }
  }

  // ----- block by block -----

  /** The last transaction that revokes lba, or -1. */
  ghost function LastRevoke(txns: seq<Txn>, lba: nat): (r: int)
    ensures -1 <= r < |txns|
  {
    if txns == [] then -1
    else if lba in txns[|txns| - 1].revokes then |txns| - 1
    else LastRevoke(txns[..|txns| - 1], lba)
  }

  lemma {:induction false} TreeHasLastRevoke(txns: seq<Txn>, start: Word, lba: nat)
    ensures var r := LastRevoke(txns, lba);
            if r < 0 then lba !in TreeOf(txns, start) else lba in TreeOf(txns, start) && TreeOf(txns, start)[lba] == IdAt(start, r)
  {
    if txns != [] {
      TreeHasLastRevoke(txns[..|txns| - 1], start, lba);
    }
  }

  /** The last write to lba by a transaction younger than r. */
  ghost function WriteAfter(txns: seq<Txn>, r: int, lba: nat): Option<Block> {
    if txns == [] || |txns| - 1 <= r then None
    else OrElse(LastWrite(txns[|txns| - 1].writes, lba), WriteAfter(txns[..|txns| - 1], r, lba))
  }

  lemma {:induction false} SurvivorIsWriteAfter(txns: seq<Txn>, lba: nat)
    ensures Survivor(txns, lba) == WriteAfter(txns, LastRevoke(txns, lba), lba)
  {
    if txns != [] {
      SurvivorIsWriteAfter(txns[..|txns| - 1], lba);
    }
  }

  lemma {:induction false} ApplyLookup(writes: seq<(nat, Block)>, id: Word, tree: map<nat, Word>, disk: map<nat, Block>, lba: nat)
    requires lba != 0
    ensures Lookup(ApplyWrites(writes, id, tree, disk), lba)
         == if Revoked(tree, lba, id) then Lookup(disk, lba) else OrElse(LastWrite(writes, lba), Lookup(disk, lba))
  {
    if writes != [] {
      ApplyLookup(writes[..|writes| - 1], id, tree, disk, lba);
    }
  }

  lemma {:induction false} HomeLookup(txns: seq<Txn>, start: Word, tree: map<nat, Word>, disk: map<nat, Block>, r: int, lba: nat)
    requires lba != 0 && |txns| < 0x8000_0000 && -1 <= r < 0x8000_0000
    requires if r < 0 then lba !in tree else lba in tree && tree[lba] == IdAt(start, r)
    ensures Lookup(HomeAfter(txns, start, tree, disk), lba) == OrElse(WriteAfter(txns, r, lba), Lookup(disk, lba))
  {
    hide TransIdDiff, IdAt;
    if txns != [] {
      var k := |txns| - 1;
      HomeLookup(txns[..k], start, tree, disk, r, lba);
      ApplyLookup(txns[k].writes, IdAt(start, k), tree, HomeAfter(txns[..k], start, tree, disk), lba);
      if r >= 0 {
        DiffOrders(start, k, r);
      }
      if k <= r {
        NothingAfter(txns[..k], r, lba);
      }
    }
  }

  lemma NothingAfter(txns: seq<Txn>, r: int, lba: nat)
    requires |txns| - 1 <= r
    ensures WriteAfter(txns, r, lba) == None
  {
  }

  /**
   The outcome of a recovery: every home block other than the superblock's ends with the data of
   its last committed writer that no revoke hides, and is untouched when there is none.
   */
  lemma RecoveryOutcome(recs: seq<Record>, start: Word, disk: map<nat, Block>, lba: nat)
    requires AllValid(recs) && Commits(recs) < 0x8000_0000 && lba != 0
    ensures Lookup(Recovered(recs, start, disk), lba) == OrElse(Survivor(Transactions(recs), lba), Lookup(disk, lba))
  {
    hide IdAt, TransIdDiff;
    var total := Commits(recs);
    var txns := Transactions(recs);
    if total > 0 {
      IdSucc(start, 0);
      var tree := TreeOf(txns, start);
      RevokePassIsTree(recs, start, total, [], NoWork);
      assert AddRevokes(map[], [], IdAt(start, 0)) == map[];
      assert [] + txns == txns;
      ReplayPassIsHome(recs, start, total, [], NoWork, tree, disk);
      TreeHasLastRevoke(txns, start, lba);
      HomeLookup(txns, start, tree, disk, LastRevoke(txns, lba), lba);
      SurvivorIsWriteAfter(txns, lba);
    }
  }
}

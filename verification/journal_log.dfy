/**
 What a journal log means: the records that a scan meets, in order, and what the
 three passes of a recovery make of them.  L is the circular log turned so that
 the journal's start block is L[0].
 */
module JournalLog {
  import opened JournalFormat

  datatype Record =
    | Descriptor(tags: seq<TagInfo>, data: seq<Block>)
    | Revoke(lbas: seq<nat>)
    | Commit
  {
    function Size(): nat { if Descriptor? then 1 + |tags| else 1 }

    ghost predicate Valid() {
      Descriptor? ==> |tags| == |data| && forall i :: 0 <= i < |data| ==> |data[i]| > 0
    }
  }

  ghost predicate BlocksOk(cfg: Config, L: seq<Block>) {
    cfg.Valid() && forall i :: 0 <= i < |L| ==> |L[i]| == cfg.blockWords
  }

  /** The block is a control block of transaction id; anything else ends the log. */
  predicate IsControl(b: Block, id: Word)
    requires |b| >= HEADER_WORDS
  {
    && Magic(b) == JBD_MAGIC_NUMBER
    && Sequence(b) == id
    && BlockType(b) in {JBD_DESCRIPTOR_BLOCK, JBD_COMMIT_BLOCK, JBD_REVOKE_BLOCK}
  }

  /** The record whose control block is L[p]; None when its blocks overrun the log. */
  ghost function RecordAt(cfg: Config, L: seq<Block>, p: nat): (rec: Option<Record>)
    requires BlocksOk(cfg, L) && p < |L|
    ensures rec.Some? ==> rec.value.Valid() && p + rec.value.Size() <= |L|
  {
    if BlockType(L[p]) == JBD_DESCRIPTOR_BLOCK then
      var tags := Tags(cfg, L[p], HEADER_WORDS);
      if p + 1 + |tags| > |L| then None else Some(Descriptor(tags, L[p + 1..p + 1 + |tags|]))
    else if BlockType(L[p]) == JBD_REVOKE_BLOCK then
      if RevokeTableFits(L[p]) then Some(Revoke(RevokeEntries(cfg, L[p]))) else None
    else Some(Commit)
  }

  function After(rec: Record, id: Word): Word { if rec.Commit? then NextId(id) else id }

  /** All records from L[p] to the end of the log. */
  ghost function Parse(cfg: Config, L: seq<Block>, p: nat, id: Word): (recs: Option<seq<Record>>)
    requires BlocksOk(cfg, L) && p <= |L|
    ensures recs.Some? ==> |recs.value| <= |L| - p && forall i :: 0 <= i < |recs.value| ==> recs.value[i].Valid()
    decreases |L| - p
  {
    if p == |L| || !IsControl(L[p], id) then Some([])
    else
      match RecordAt(cfg, L, p)
      case None => None
      case Some(rec) =>
        match Parse(cfg, L, p + rec.Size(), After(rec, id))
        case None => None
        case Some(rest) => Some([rec] + rest)
  }

  lemma ParseStep(cfg: Config, L: seq<Block>, p: nat, id: Word, rem: seq<Record>)
    requires BlocksOk(cfg, L) && p < |L| && Parse(cfg, L, p, id) == Some(rem)
    ensures if !IsControl(L[p], id) then rem == []
            else
              && rem != [] && RecordAt(cfg, L, p) == Some(rem[0])
              && Parse(cfg, L, p + rem[0].Size(), After(rem[0], id)) == Some(rem[1..])
  {
  }

  // ----- the circle -----

  /** Log blocks first..maxlen form the circle; recovery walks it from start. */
  datatype Circle = Circle(first: nat, maxlen: nat, start: nat) {
    ghost predicate Valid() { 1 <= first <= start < maxlen < 0x8000_0000 }

    function Size(): int { maxlen - first }

    /** The wrap macro. */
    function Wrap(v: nat): nat { if v >= maxlen && first <= maxlen then v - (maxlen - first) else v }

    /** The log block that lies p blocks after the start. */
    function Pos(p: nat): nat { Wrap(start + p) }

    lemma PosStep(p: nat)
      requires Valid() && p < Size()
      ensures first <= Pos(p) < maxlen && Wrap(Pos(p) + 1) == Pos(p + 1)
    {
    }

    /** The log turned to begin at the start block. */
    ghost function Turn(log: seq<Block>): (L: seq<Block>)
      requires Valid() && |log| == maxlen
      ensures |L| == Size()
      ensures forall p :: 0 <= p < |L| ==> L[p] == log[Pos(p)]
    {
      seq(Size(), p requires 0 <= p < Size() => log[Pos(p)])
    }
  }

  /** Where a walk stands when it is about to look at log block thisBlock, p blocks after the start. */
  ghost predicate Standing(cfg: Config, c: Circle, L: seq<Block>, p: nat, thisBlock: nat, id: Word, rem: seq<Record>)
    requires BlocksOk(cfg, L)
  {
    p < |L| && thisBlock == c.Pos(p) && Parse(cfg, L, p, id) == Some(rem)
  }

  // ----- the passes -----

  ghost function Commits(recs: seq<Record>): (n: nat)
    ensures n <= |recs|
  {
    if recs == [] then 0 else (if recs[0].Commit? then 1 else 0) + Commits(recs[1..])
  }

  ghost function AddRevokes(tree: map<nat, Word>, lbas: seq<nat>, id: Word): map<nat, Word> {
    tree + map lba | lba in lbas :: id
  }

  lemma AddRevokesSnoc(tree: map<nat, Word>, lbas: seq<nat>, i: nat, id: Word)
    requires i < |lbas|
    ensures AddRevokes(tree, lbas[..i], id)[lbas[i] := id] == AddRevokes(tree, lbas[..i + 1], id)
  {
    assert lbas[..i + 1] == lbas[..i] + [lbas[i]];
  }

  /** The revoke tree after the records of the transactions up to last. */
  ghost function RevokePass(recs: seq<Record>, id: Word, last: Word, tree: map<nat, Word>): map<nat, Word> {
    if recs == [] || TransIdDiff(id, last) > 0 then tree
    else RevokePass(recs[1..], After(recs[0], id), last,
                    if recs[0].Revoke? then AddRevokes(tree, recs[0].lbas, id) else tree)
  }

  predicate Revoked(tree: map<nat, Word>, lba: nat, id: Word) {
    lba in tree && TransIdDiff(id, tree[lba]) <= 0
  }

  /** One logged block goes home, unless revoked; block 0 holds the superblock and is handled apart. */
  function ReplayBlock(tag: TagInfo, data: Block, id: Word, tree: map<nat, Word>, disk: map<nat, Block>): map<nat, Block>
    requires |data| > 0
  {
    if Revoked(tree, tag.block, id) || tag.block == 0 then disk
    else disk[tag.block := Unescape(data, tag.isEscape)]
  }

  /** The home blocks after the first n blocks of a descriptor. */
  ghost function ReplayBlocks(rec: Record, n: nat, id: Word, tree: map<nat, Word>, disk: map<nat, Block>): map<nat, Block>
    requires rec.Descriptor? && rec.Valid() && n <= |rec.tags|
  {
    if n == 0 then disk
    else ReplayBlock(rec.tags[n - 1], rec.data[n - 1], id, tree, ReplayBlocks(rec, n - 1, id, tree, disk))
  }

  ghost predicate AllValid(recs: seq<Record>) { forall i :: 0 <= i < |recs| ==> recs[i].Valid() }

  /** The home blocks after the transactions up to last have been replayed. */
  ghost function ReplayPass(recs: seq<Record>, id: Word, last: Word, tree: map<nat, Word>, disk: map<nat, Block>): map<nat, Block>
    requires AllValid(recs)
  {
    if recs == [] || TransIdDiff(id, last) > 0 then disk
    else ReplayPass(recs[1..], After(recs[0], id), last, tree,
                    if recs[0].Descriptor? then ReplayBlocks(recs[0], |recs[0].tags|, id, tree, disk) else disk)
  }

  lemma PassEnds(rem: seq<Record>, id: Word, last: Word, tree: map<nat, Word>, disk: map<nat, Block>)
    requires AllValid(rem) && (rem == [] || TransIdDiff(id, last) > 0)
    ensures RevokePass(rem, id, last, tree) == tree && ReplayPass(rem, id, last, tree, disk) == disk
  {
  }

  /** The records that the passes after the scan look at: none when no transaction is complete. */
  ghost function Live(recs: seq<Record>): seq<Record> { if Commits(recs) == 0 then [] else recs }

  /** The id of the last complete transaction, or the start id when there is none. */
  ghost function LastId(start: Word, commits: nat): Word { IdAt(start, if commits > 0 then commits - 1 else 0) }

  lemma IdStored(start: Word, commits: nat)
    ensures LastId(start, commits) == if commits == 0 then start else IdAt(start, commits - 1)
  {
    IdSucc(start, 0);
  }

  /**
   The next session begins with the id after the one stored.  Blocks of transactions that were complete cannot pass for
   its own, nor can those of an unfinished first one; those of one that was unfinished behind complete ones do.
   */
  lemma StaleBlock(start: Word, commits: nat, k: nat, b: Block)
    requires |b| >= HEADER_WORDS && k <= commits < 0x8000_0000 && IsControl(b, IdAt(start, k))
    ensures IsControl(b, NextId(LastId(start, commits))) <==> k == commits > 0
  {
    hide TransIdDiff;
    IdStored(start, commits);
    IdSucc(start, 0);
    var n := if commits == 0 then 1 else commits;
    IdSucc(start, n - 1);
    assert NextId(LastId(start, commits)) == IdAt(start, n);
    IdsDiffer(start, k, n);
  }

  /** The home blocks after the three passes over a log. */
  ghost function Recovered(recs: seq<Record>, start: Word, disk: map<nat, Block>): map<nat, Block>
    requires AllValid(recs)
  {
    var last := LastId(start, Commits(recs));
    ReplayPass(Live(recs), start, last, RevokePass(Live(recs), start, last, map[]), disk)
  }
}

module JournalRecovery {
  import opened JournalFormat
  import opened JournalLog

  datatype Action = ScanLog | RevokeLog | ReplayLog

  datatype Error = EOK | EIO

  class RecoverInfo {
    var startTransId: Word
    var lastTransId: Word
    var thisTransId: Word
    var transCnt: nat
    var revokeRoot: map<nat, Word>

    constructor ()
      ensures revokeRoot == map[]
    {
      startTransId, lastTransId, thisTransId, transCnt, revokeRoot := 0, 0, 0, 0, map[];
    }

    method AddRevokeBlockTags(block: nat)
      modifies this`revokeRoot
      ensures revokeRoot == old(revokeRoot)[block := thisTransId]
    {
      revokeRoot := revokeRoot[block := thisTransId];
    }

    /** jbd_build_revoke_tree */
    method BuildRevokeTree(cfg: Config, b: Block)
      requires RevokeTableFits(b)
      modifies this`revokeRoot
      ensures revokeRoot == AddRevokes(old(revokeRoot), RevokeEntries(cfg, b), thisTransId)
    {
      var nrEntries := RevokeEntryCount(cfg, b);
      ghost var lbas := RevokeEntries(cfg, b);
      ghost var tree := revokeRoot;
      for i := 0 to nrEntries
        invariant revokeRoot == AddRevokes(tree, lbas[..i], thisTransId)
      {
        RevokeEntryInside(cfg, b, i);
        AddRevokesSnoc(tree, lbas, i, thisTransId);
        AddRevokeBlockTags(RevokeEntry(cfg, b, i));
      }
      assert lbas[..nrEntries] == lbas;
    }
  }

  class JournalFs {
    const cfg: Config
    const first: nat
    const maxlen: nat
    var start: nat
    var sequence: Word
    var log: seq<Block>
    var disk: map<nat, Block>

    function Circ(): Circle
      reads this`start
    {
      Circle(first, maxlen, start)
    }

    ghost predicate Valid()
      reads this`start, this`log
    {
      && 1 <= first < maxlen < 0x8000_0000
      && |log| == maxlen
      && BlocksOk(cfg, log)
      && (start == 0 || first <= start < maxlen)
    }

    constructor (cfg: Config, first: nat, maxlen: nat, start: nat, sequence: Word, log: seq<Block>, disk: map<nat, Block>)
      requires 1 <= first < maxlen < 0x8000_0000 && |log| == maxlen && BlocksOk(cfg, log)
      requires start == 0 || first <= start < maxlen
      ensures Valid() && this.cfg == cfg && this.first == first && this.maxlen == maxlen
      ensures this.start == start && this.sequence == sequence && this.log == log && this.disk == disk
    {
      this.cfg, this.first, this.maxlen := cfg, first, maxlen;
      this.start, this.sequence, this.log, this.disk := start, sequence, log, disk;
    }

    /** The records of the log, None when some record overruns it. */
    ghost function Records(): (recs: Option<seq<Record>>)
      reads this`start, this`log, this`sequence
      requires Valid() && start != 0
      ensures recs.Some? ==> AllValid(recs.value)
    {
      Parse(cfg, Circ().Turn(log), 0, sequence)
    }

    /** jbd_debug_descriptor_block: steps over the logged blocks of a descriptor. */
    method DebugDescriptorBlock(b: Block, iblock: nat, ghost p: nat) returns (r: nat)
      requires Circ().Valid() && |b| == cfg.blockWords && cfg.Valid()
      requires iblock == Circ().Pos(p) && p + 1 + |Tags(cfg, b, HEADER_WORDS)| <= maxlen - first
      ensures r == Circ().Pos(p + |Tags(cfg, b, HEADER_WORDS)|)
    {
      r := iblock;
      var ptr := HEADER_WORDS;
      ghost var i := 0;
      ghost var tags := Tags(cfg, b, HEADER_WORDS);
      while ptr < |b|
        invariant ptr <= |b| && i <= |tags| && Tags(cfg, b, ptr) == tags[i..]
        invariant r == Circ().Pos(p + i)
        decreases |b| - ptr
      {
        TagsStep(cfg, b, ptr, tags, i);
        var tag := ExtractBlockTag(cfg, b, ptr);
        if tag.None? { break; }
        Circ().PosStep(p + i);
        r := Circ().Wrap(r + 1);
        i := i + 1;
        if tag.value.lastTag { break; }
        ptr := ptr + tag.value.Words(cfg);
      }
    }

    /** jbd_replay_block_tags */
    method ReplayBlockTags(info: RecoverInfo, tag: TagInfo, thisBlock: nat, thisTransId: Word) returns (r: nat)
      requires Circ().Wrap(thisBlock + 1) < |log| && |log[Circ().Wrap(thisBlock + 1)]| > 0
      modifies this`disk
      ensures r == Circ().Wrap(thisBlock + 1)
      ensures disk == ReplayBlock(tag, log[r], thisTransId, info.revokeRoot, old(disk))
    {
      r := Circ().Wrap(thisBlock + 1);
      if tag.block in info.revokeRoot && TransIdDiff(thisTransId, info.revokeRoot[tag.block]) <= 0 {
        return;
      }
      if tag.block != 0 {
        var data := log[r];
        if tag.isEscape {
          data := data[0 := JBD_MAGIC_NUMBER];
        }
        disk := disk[tag.block := data];
      }
    }

    /** jbd_replay_descriptor_block */
    method ReplayDescriptorBlock(info: RecoverInfo, b: Block, iblock: nat, thisTransId: Word, ghost p: nat, ghost rec: Record)
      returns (r: nat)
      requires Circ().Valid() && |log| == maxlen && iblock == Circ().Pos(p)
      requires rec.Descriptor? && rec.Valid() && HEADER_WORDS <= |b| && rec.tags == Tags(cfg, b, HEADER_WORDS)
      requires p + rec.Size() <= maxlen - first
      requires forall i {:trigger rec.data[i]} :: 0 <= i < |rec.data| ==> rec.data[i] == log[Circ().Pos(p + 1 + i)]
      modifies this`disk
      ensures r == Circ().Pos(p + |rec.tags|)
      ensures disk == ReplayBlocks(rec, |rec.tags|, thisTransId, info.revokeRoot, old(disk))
    {
      hide ReplayBlock, Tags, ExtractBlockTag;
      r := iblock;
      var ptr := HEADER_WORDS;
      ghost var i, tags, c, tree := 0, rec.tags, Circ(), info.revokeRoot;
      ghost var home := disk;
      while ptr < |b|
        invariant ptr <= |b| && i <= |tags| && Tags(cfg, b, ptr) == tags[i..]
        invariant r == c.Pos(p + i)
        invariant disk == ReplayBlocks(rec, i, thisTransId, tree, home)
        decreases |b| - ptr
      {
        TagsStep(cfg, b, ptr, tags, i);
        var tag := ExtractBlockTag(cfg, b, ptr);
        if tag.None? { break; }
        c.PosStep(p + i);
        assert |rec.data[i]| > 0 && rec.data[i] == log[c.Wrap(r + 1)];
        r := ReplayBlockTags(info, tag.value, r, thisTransId);
        i := i + 1;
        if tag.value.lastTag { break; }
        ptr := ptr + tag.value.Words(cfg);
      }
    }

    /** The switch of jbd_iterate_log on a control block of the expected transaction: one record, in one pass. */
    method ProcessRecord(info: RecoverInfo, action: Action, iblock: nat, transId: Word, ghost p: nat, ghost rec: Record)
      returns (thisBlock: nat, thisTransId: Word)
      requires Valid() && start != 0 && p < maxlen - first && iblock == Circ().Pos(p)
      requires IsControl(log[iblock], transId) && RecordAt(cfg, Circ().Turn(log), p) == Some(rec)
      modifies this`disk, info
      ensures thisBlock == Circ().Pos(p + rec.Size() - 1) && thisTransId == After(rec, transId)
      ensures info.transCnt == old(info.transCnt) + (if action == ScanLog && rec.Commit? then 1 else 0)
      ensures info.lastTransId == old(info.lastTransId)
      ensures info.revokeRoot ==
        if action == RevokeLog && rec.Revoke? then AddRevokes(old(info.revokeRoot), rec.lbas, transId) else old(info.revokeRoot)
      ensures disk ==
        if action == ReplayLog && rec.Descriptor? then ReplayBlocks(rec, |rec.tags|, transId, old(info.revokeRoot), old(disk))
        else old(disk)
    {
      thisBlock, thisTransId := iblock, transId;
      var block := log[iblock];
      ghost var L := Circ().Turn(log);
      assert block == L[p];
      if BlockType(block) == JBD_DESCRIPTOR_BLOCK {
        assert forall i {:trigger rec.data[i]} :: 0 <= i < |rec.data| ==> rec.data[i] == L[p + 1 + i];
        if action == ReplayLog {
          thisBlock := ReplayDescriptorBlock(info, block, thisBlock, thisTransId, p, rec);
        } else {
          thisBlock := DebugDescriptorBlock(block, thisBlock, p);
        }
      } else if BlockType(block) == JBD_COMMIT_BLOCK {
        thisTransId := NextId(thisTransId);
        if action == ScanLog {
          info.transCnt := info.transCnt + 1;
        }
      } else {
        if action == RevokeLog {
          info.thisTransId := thisTransId;
          info.BuildRevokeTree(cfg, block);
        }
      }
    }

    /** What one pass over the log computes. */
    twostate predicate PassDone(info: RecoverInfo, action: Action, recs: seq<Record>)
      requires AllValid(recs)
      reads this, info
    {
      match action
      case ScanLog =>
        && info.transCnt == Commits(recs)
        && info.startTransId == sequence
        && info.lastTransId == LastId(sequence, Commits(recs))
        && info.revokeRoot == old(info.revokeRoot)
        && disk == old(disk)
      case RevokeLog =>
        && info.revokeRoot == RevokePass(Live(recs), sequence, info.lastTransId, old(info.revokeRoot))
        && info.transCnt == old(info.transCnt) && info.lastTransId == old(info.lastTransId)
        && disk == old(disk)
      case ReplayLog =>
        && info.revokeRoot == old(info.revokeRoot)
        && info.transCnt == old(info.transCnt) && info.lastTransId == old(info.lastTransId)
        && disk == ReplayPass(Live(recs), sequence, info.lastTransId, info.revokeRoot, old(disk))
    }

    /** How far a pass has come: what is done equals the whole once the remaining records rem are processed. */
    ghost predicate Progress(action: Action, info: RecoverInfo, recs: seq<Record>, rem: seq<Record>, start: Word, id: Word,
                             last: Word, tree: map<nat, Word>, home: map<nat, Block>)
      requires AllValid(recs) && AllValid(rem)
      reads this`disk, info
    {
      match action
      case ScanLog => info.transCnt + Commits(rem) == Commits(recs) && info.revokeRoot == tree && disk == home
      case RevokeLog =>
        disk == home && RevokePass(recs, start, last, tree) == RevokePass(rem, id, last, info.revokeRoot)
      case ReplayLog =>
        info.revokeRoot == tree && ReplayPass(recs, start, last, tree, home) == ReplayPass(rem, id, last, tree, disk)
    }

    /** One turn of the loop of jbd_iterate_log on a control block: process it and move to the next one. */
    method Advance(info: RecoverInfo, action: Action, iblock: nat, transId: Word,
                   ghost L: seq<Block>, ghost p: nat, ghost recs: seq<Record>, ghost rem: seq<Record>, ghost id0: Word, ghost last: Word,
                   ghost tree: map<nat, Word>, ghost home: map<nat, Block>)
      returns (thisBlock: nat, thisTransId: Word)
      requires Valid() && start != 0 && L == Circ().Turn(log)
      requires Standing(cfg, Circ(), L, p, iblock, transId, rem) && IsControl(log[iblock], transId)
      requires AllValid(recs) && AllValid(rem) && Progress(action, info, recs, rem, id0, transId, last, tree, home)
      requires action != ScanLog ==> TransIdDiff(transId, last) <= 0
      modifies this`disk, info
      ensures rem != [] && thisTransId == After(rem[0], transId)
      ensures if thisBlock == start then rem[1..] == [] else Standing(cfg, Circ(), L, p + rem[0].Size(), thisBlock, thisTransId, rem[1..])
      ensures Progress(action, info, recs, rem[1..], id0, thisTransId, last, tree, home)
      ensures info.lastTransId == old(info.lastTransId) && (action != ScanLog ==> info.transCnt == old(info.transCnt))
    {
      hide Parse, RecordAt, Tags;
      assert log[iblock] == L[p];
      ParseStep(cfg, L, p, transId, rem);
      thisBlock, thisTransId := ProcessRecord(info, action, iblock, transId, p, rem[0]);
      Circ().PosStep(p + rem[0].Size() - 1);
      thisBlock := Circ().Wrap(thisBlock + 1);
    }

    /** The tests with which jbd_iterate_log decides that the log ends at this block. */
    method LogEnds(info: RecoverInfo, action: Action, thisBlock: nat, thisTransId: Word,
                   ghost L: seq<Block>, ghost p: nat, ghost k: nat, ghost rem: seq<Record>)
      returns (logEnd: bool, r: Error)
      requires Valid() && start != 0 && L == Circ().Turn(log) && Standing(cfg, Circ(), L, p, thisBlock, thisTransId, rem)
      requires thisTransId == IdAt(sequence, k) && k + Commits(rem) < 0x8000_0000
      requires action != ScanLog ==> 0 < info.transCnt == k + Commits(rem) && info.lastTransId == IdAt(sequence, info.transCnt - 1)
      ensures r == EOK
      ensures logEnd ==> rem == [] || (action != ScanLog && k == info.transCnt)
      ensures !logEnd ==> IsControl(log[thisBlock], thisTransId) && (action != ScanLog ==> k < info.transCnt)
    {
      r := EOK;
      if action != ScanLog {
        DiffOrders(sequence, k, info.transCnt - 1);
        if TransIdDiff(thisTransId, info.lastTransId) > 0 {
          return true, r;
        }
      }
      var block := log[thisBlock];
      assert block == L[p];
      if Magic(block) != JBD_MAGIC_NUMBER {
        return true, r;
      }
      if Sequence(block) != thisTransId {
        if action != ScanLog {
          r := EIO;
        }
        return true, r;
      }
      logEnd := BlockType(block) !in {JBD_DESCRIPTOR_BLOCK, JBD_COMMIT_BLOCK, JBD_REVOKE_BLOCK};
    }

    /** Where jbd_iterate_log stands before a turn of its loop, k transactions from the start; when it has ended, nothing is left to do. */
    ghost predicate Walking(action: Action, info: RecoverInfo, logEnd: bool, thisBlock: nat, thisTransId: Word, L: seq<Block>,
                            recs: seq<Record>, start: Word, last: Word, tree: map<nat, Word>, home: map<nat, Block>,
                            p: nat, k: nat, total: nat, rem: seq<Record>)
      requires BlocksOk(cfg, L)
      reads this`disk, this`start, info
    {
      && AllValid(recs) && AllValid(rem) && k + Commits(rem) == total && thisTransId == IdAt(start, k)
      && (!logEnd ==> Standing(cfg, Circ(), L, p, thisBlock, thisTransId, rem))
      && (action != ScanLog ==> info.transCnt == total && info.lastTransId == last)
      && Progress(action, info, recs, rem, start, thisTransId, last, tree, home)
      && (logEnd ==> rem == [] || (action != ScanLog && k == total))
    }

    /** One turn of the loop of jbd_iterate_log. */
    method Turn(info: RecoverInfo, action: Action, thisBlock: nat, thisTransId: Word, ghost L: seq<Block>, ghost recs: seq<Record>,
                ghost last: Word, ghost tree: map<nat, Word>, ghost home: map<nat, Block>, ghost p: nat, ghost k: nat, ghost total: nat,
                ghost rem: seq<Record>)
      returns (logEnd: bool, r: Error, thisBlock': nat, thisTransId': Word, ghost p': nat, ghost k': nat, ghost rem': seq<Record>)
      requires Valid() && start != 0 && L == Circ().Turn(log) && total < 0x8000_0000
      requires Walking(action, info, false, thisBlock, thisTransId, L, recs, sequence, last, tree, home, p, k, total, rem)
      requires action != ScanLog ==> total > 0 && last == IdAt(sequence, total - 1)
      modifies this`disk, info
      ensures Walking(action, info, logEnd, thisBlock', thisTransId', L, recs, sequence, last, tree, home, p', k', total, rem') && r == EOK
      ensures !logEnd ==> |rem'| < |rem|
    {
      hide Parse, RecordAt, IsControl, Tags, TransIdDiff, IdAt, RevokePass, ReplayPass;
      thisBlock', thisTransId', p', k', rem' := thisBlock, thisTransId, p, k, rem;
      logEnd, r := LogEnds(info, action, thisBlock, thisTransId, L, p, k, rem);
      if !logEnd {
        IdSucc(sequence, k);
        if action != ScanLog { DiffOrders(sequence, k, total - 1); }
        thisBlock', thisTransId' := Advance(info, action, thisBlock, thisTransId, L, p, recs, rem, sequence, last, tree, home);
        p', k', rem' := p + rem[0].Size(), if rem[0].Commit? then k + 1 else k, rem[1..];
        logEnd := thisBlock' == start;
      }
    }

    /** jbd_iterate_log */
    method IterateLog(info: RecoverInfo, action: Action) returns (r: Error)
      requires Valid() && start != 0 && Records().Some?
      requires action != ScanLog ==>
        info.transCnt == Commits(Records().value) && info.lastTransId == LastId(sequence, info.transCnt)
      modifies this`disk, info
      ensures r == EOK && PassDone(info, action, Records().value)
    {
      hide Parse, RecordAt, IsControl, Tags, TransIdDiff, IdAt, RevokePass, ReplayPass;
      r := EOK;
      var logEnd := false;
      var startTransId, thisTransId := sequence, sequence;
      var thisBlock := start;
      ghost var L, tree, home := Circ().Turn(log), info.revokeRoot, disk;
      ghost var recs := if action == ScanLog then Records().value else Live(Records().value);
      ghost var total: nat, p: nat, k: nat, rem := Commits(Records().value), 0, 0, recs;
      ghost var last := LastId(sequence, total);
      IdSucc(startTransId, 0);
      if action == ScanLog {
        info.transCnt := 0;
      } else if info.transCnt == 0 {
        logEnd := true;
      }
      while !logEnd
        invariant Walking(action, info, logEnd, thisBlock, thisTransId, L, recs, startTransId, last, tree, home, p, k, total, rem)
        invariant r == EOK && (!logEnd && action != ScanLog ==> total > 0)
        decreases !logEnd, |rem|
      {
        logEnd, r, thisBlock, thisTransId, p, k, rem :=
          Turn(info, action, thisBlock, thisTransId, L, recs, last, tree, home, p, k, total, rem);
      }
      if action != ScanLog {
        if k == total > 0 { DiffOrders(startTransId, k, total - 1); }
        PassEnds(rem, thisTransId, last, info.revokeRoot, disk);
      }
      if r == EOK && action == ScanLog {
        info.startTransId := startTransId;
        info.lastTransId := LastScanned(startTransId, thisTransId, k);
      }
    }

    /** The last complete transaction, from the id the scan expected when it stopped. */
    static method LastScanned(startTransId: Word, thisTransId: Word, ghost k: nat) returns (last: Word)
      requires thisTransId == IdAt(startTransId, k) && k < 0x8000_0000
      ensures last == LastId(startTransId, k)
    {
      hide TransIdDiff, IdAt, NextId;
      DiffOrders(startTransId, k, 0);
      IdSucc(startTransId, 0);
      if k > 0 {
        IdSucc(startTransId, k - 1);
        IdBefore(IdAt(startTransId, k - 1));
      }
      if TransIdDiff(thisTransId, startTransId) > 0 {
        last := (thisTransId - 1) % TWO32;
      } else {
        last := thisTransId;
      }
    }

    /** jbd_recover */
    method Recover() returns (r: Error)
      requires Valid() && (start != 0 ==> Records().Some?)
      modifies this
      ensures Valid() && r == EOK && log == old(log) && start == 0
      ensures old(start) == 0 ==> disk == old(disk) && sequence == old(sequence)
      ensures old(start) != 0 ==>
        && disk == Recovered(old(Records().value), old(sequence), old(disk))
        && sequence == (if Commits(old(Records().value)) == 0 then old(sequence) else IdAt(old(sequence), Commits(old(Records().value)) - 1))
      ensures old(start) != 0 ==> forall b: Block, k: nat {:trigger IsControl(b, IdAt(old(sequence), k))} ::
        |b| >= HEADER_WORDS && k <= Commits(old(Records().value)) && IsControl(b, IdAt(old(sequence), k)) ==>
        (IsControl(b, NextId(sequence)) <==> k == Commits(old(Records().value)) > 0)
    {
      hide Parse, RevokePass, ReplayPass, IdAt, IsControl, Commits;
      r := EOK;
      if start == 0 {
        return;
      }
      var info := new RecoverInfo();
      r := IterateLog(info, ScanLog);
      if r != EOK { return; }
      r := IterateLog(info, RevokeLog);
      if r != EOK { return; }
      r := IterateLog(info, ReplayLog);
      if r == EOK {
        start := 0;
        sequence := info.lastTransId;
        IdStored(old(sequence), Commits(old(Records().value)));
        forall b: Block, k: nat {:trigger IsControl(b, IdAt(old(sequence), k))} |
          |b| >= HEADER_WORDS && k <= Commits(old(Records().value)) && IsControl(b, IdAt(old(sequence), k))
          ensures IsControl(b, NextId(sequence)) <==> k == Commits(old(Records().value)) > 0
        {
          StaleBlock(old(sequence), Commits(old(Records().value)), k, b);
        }
      }
    }
  }
}

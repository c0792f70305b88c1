/**
 jbd_journal_prepare, jbd_journal_prepare_revoke and jbd_trans_write_commit_block: what a
 commit puts into the log, block by block, when the log has room for it.
 */
module JournalWriter {
  import opened JournalFormat
  import opened JournalLog
  import opened JournalOutcome
  import opened JournalLayout
  import opened JournalAtomicity

  /** A buffer on a transaction's queue; it is clean when nothing was written to it after all. */
  datatype JbdBuf = JbdBuf(lba: nat, data: Block, dirty: bool)

  ghost predicate BufsOk(cfg: Config, bufs: seq<JbdBuf>) {
    cfg.Valid() && forall i :: 0 <= i < |bufs| ==> |bufs[i].data| == cfg.blockWords && cfg.Fits(bufs[i].lba)
  }

  lemma BufsPrefix(cfg: Config, bufs: seq<JbdBuf>, prefix: seq<JbdBuf>)
    requires BufsOk(cfg, bufs) && prefix <= bufs
    ensures BufsOk(cfg, prefix)
  {
  }

  /** The writes that a queue of buffers stands for. */
  ghost function Dirty(bufs: seq<JbdBuf>): (w: seq<(nat, Block)>)
    ensures |w| <= |bufs|
  {
    if bufs == [] then []
    else
      var b := bufs[|bufs| - 1];
      Dirty(bufs[..|bufs| - 1]) + if b.dirty then [(b.lba, b.data)] else []
  }

  lemma NothingDirty()
    ensures Dirty([]) == []
  {
  }

  lemma DirtySnoc(bufs: seq<JbdBuf>, b: JbdBuf)
    ensures Dirty(bufs + [b]) == Dirty(bufs) + if b.dirty then [(b.lba, b.data)] else []
  {
    assert (bufs + [b])[..|bufs|] == bufs;
  }

  lemma {:induction false} DirtyStep(bufs: seq<JbdBuf>, j: nat)
    requires j < |bufs|
    ensures Dirty(bufs[..j + 1]) == Dirty(bufs[..j]) + if bufs[j].dirty then [(bufs[j].lba, bufs[j].data)] else []
    ensures |Dirty(bufs[..j + 1])| <= |Dirty(bufs)|
    decreases |bufs|
  {
    assert bufs[..j + 1] == bufs[..j] + [bufs[j]];
    DirtySnoc(bufs[..j], bufs[j]);
    if j + 1 == |bufs| {
      assert bufs[..j + 1] == bufs;
    } else {
      var k := |bufs| - 1;
      DirtyStep(bufs[..k], j);
      assert bufs[..k][..j + 1] == bufs[..j + 1];
    }
  }

  class Trans {
    var transId: Word
    var startIblock: nat
    var allocBlocks: nat
    var dataCnt: nat
    var bufQueue: seq<JbdBuf>
    var revokeRoot: seq<nat>

    constructor (bufs: seq<JbdBuf>, revokes: seq<nat>)
      ensures bufQueue == bufs && revokeRoot == revokes && dataCnt == |bufs| && startIblock == 0 && allocBlocks == 0
    {
      transId, startIblock, allocBlocks, dataCnt, bufQueue, revokeRoot := 0, 0, 0, |bufs|, bufs, revokes;
    }
  }

  /** The descriptor that is being filled: its place, its tags so far and their data. */
  datatype Open = Open(tags: seq<TagInfo>, data: seq<Block>) {
    ghost predicate Valid() { |tags| == |data| && forall i :: 0 <= i < |data| ==> |data[i]| > 0 }

    ghost function Blocks(): nat { if tags == [] then 0 else 1 + |tags| }
  }

  ghost function AsRecord(o: Open): Record { Descriptor(o.tags, o.data) }

  /** The home writes that the closed chunks and the open descriptor carry so far. */
  ghost function Carried(recs: seq<Record>, o: Open): seq<(nat, Block)>
    requires AllValid(recs) && o.Valid()
  {
    Accumulate(recs, NoWork).writes + WritesOf(AsRecord(o))
  }

  lemma {:induction false} AccumulateSnoc(recs: seq<Record>, rec: Record, cur: Txn)
    requires AllValid(recs) && rec.Valid()
    ensures AllValid(recs + [rec]) && Accumulate(recs + [rec], cur) == Extend(Accumulate(recs, cur), rec)
    decreases |recs|
  {
    if recs == [] {
      assert recs + [rec] == [rec] && [rec][1..] == [];
    } else {
      assert (recs + [rec])[1..] == recs[1..] + [rec];
      AccumulateSnoc(recs[1..], rec, Extend(cur, recs[0]));
    }
  }

  /** Closing the open descriptor moves its writes to the closed ones. */
  lemma CarriedClosed(recs: seq<Record>, o: Open)
    requires AllValid(recs) && o.Valid()
    ensures AllValid(recs + [AsRecord(o)]) && Carried(recs + [AsRecord(o)], Open([], [])) == Carried(recs, o)
    ensures Accumulate(recs + [AsRecord(o)], NoWork).revokes == Accumulate(recs, NoWork).revokes
  {
    AccumulateSnoc(recs, AsRecord(o), NoWork);
    assert WritesOf(AsRecord(Open([], []))) == [];
  }

  /** One more tag and its data block carry one more write. */
  lemma CarriedMore(recs: seq<Record>, o: Open, b: JbdBuf, tag: TagInfo)
    requires AllValid(recs) && o.Valid() && |b.data| > 0 && tag.block == b.lba && tag.isEscape == NeedsEscape(b.data)
    ensures Open(o.tags + [tag], o.data + [Escape(b.data)]).Valid()
    ensures Carried(recs, Open(o.tags + [tag], o.data + [Escape(b.data)])) == Carried(recs, o) + [(b.lba, b.data)]
  {
    EscapeRoundTrip(b.data);
    assert WritesOf(AsRecord(Open(o.tags + [tag], o.data + [Escape(b.data)])))
        == WritesOf(AsRecord(o)) + [(b.lba, b.data)];
  }

  ghost predicate OnlyDescriptors(recs: seq<Record>) { forall i :: 0 <= i < |recs| ==> recs[i].Descriptor? }

  lemma {:induction false} NoRevokes(recs: seq<Record>, cur: Txn)
    requires AllValid(recs) && OnlyDescriptors(recs)
    ensures Accumulate(recs, cur).revokes == cur.revokes
  {
    if recs != [] {
      NoRevokes(recs[1..], Extend(cur, recs[0]));
    }
  }

  /** Whole chunks lie in the log from distance n on. */
  ghost predicate Stored(cfg: Config, trace: seq<Write>, n: nat, t0: seq<Write>, chunks: seq<Chunk>, recs: seq<Record>, id: Word) {
    ChunksAre(cfg, chunks, recs, id) && AllValid(recs) && trace == t0 + Writes(chunks, n)
  }

  lemma LaidIsStored(cfg: Config, trace: seq<Write>, n: nat, t0: seq<Write>, chunks: seq<Chunk>, recs: seq<Record>, id: Word)
    requires Laid(cfg, trace, n, t0, chunks, recs, Open([], []), id)
    ensures Stored(cfg, trace, n, t0, chunks, recs, id) && NoCommit(recs)
  {
    assert DataWrites([], n + SizeOf(chunks) + 1) == [];
  }

  /** A control block without data is written behind the stored chunks. */
  lemma StoredMore(cfg: Config, trace: seq<Write>, n: nat, t0: seq<Write>, chunks: seq<Chunk>, recs: seq<Record>, id: Word,
                   header: Block, rec: Record)
    requires Stored(cfg, trace, n, t0, chunks, recs, id) && ChunkIs(cfg, Chunk(header, []), rec, id) && !rec.Descriptor?
    ensures Stored(cfg, trace + [(n + SizeOf(chunks), header)], n, t0, chunks + [Chunk(header, [])], recs + [rec], id)
    ensures SizeOf(chunks + [Chunk(header, [])]) == SizeOf(chunks) + 1
  {
    hide ChunkIs;
    var c := Chunk(header, []);
    WritesSnoc(chunks, c, n);
    assert ChunkWrites(c, n + SizeOf(chunks)) == [(n + SizeOf(chunks), header)];
  }

  lemma NothingStored(cfg: Config, trace: seq<Write>, n: nat, chunks: seq<Chunk>, recs: seq<Record>, id: Word)
    requires Stored(cfg, trace, n, [], chunks, recs, id) && SizeOf(chunks) == 0
    ensures trace == [] == Writes(chunks, n)
  {
  }

  /** The writes of a commit, cut off anywhere, leave the old transactions and, if complete, the new one. */
  lemma CommitSafe(cfg: Config, L: seq<Block>, id0: Word, recs0: seq<Record>, trace: seq<Write>,
                   chunks: seq<Chunk>, body: seq<Record>, txn: Txn)
    requires BlocksOk(cfg, L) && Parse(cfg, L, 0, id0) == Some(recs0) && (recs0 != [] ==> recs0[|recs0| - 1].Commit?)
    requires FreeFrom(L, SizeOfRecords(recs0), IdAfter(recs0, id0))
    requires Stored(cfg, trace, SizeOfRecords(recs0), [], chunks, body + [Commit], IdAfter(recs0, id0))
    requires NoCommit(body) && AllValid(body) && Accumulate(body, NoWork) == txn
    requires SizeOfRecords(recs0) + SizeOf(chunks) < |L|
    ensures trace == Writes(chunks, SizeOfRecords(recs0))
    ensures forall i :: 0 <= i <= |trace| ==>
      && BlocksOk(cfg, Apply(L, trace[..i])) && Parse(cfg, Apply(L, trace[..i]), 0, id0).Some?
      && Transactions(Parse(cfg, Apply(L, trace[..i]), 0, id0).value)
      == Transactions(recs0) + if i == |trace| then [txn] else []
  {
    hide Parse, Apply, Transactions, Accumulate, FreeFrom, BlocksOk, Writes, SizeOf, ChunkIs, IdAfter, SizeOfRecords;
    var newRecs := body + [Commit];
    var n := SizeOfRecords(recs0);
    assert newRecs[..|newRecs| - 1] == body;
    assert trace == Writes(chunks, n) && |trace| == SizeOf(chunks);
    assert IsTransaction(cfg, chunks, newRecs, IdAfter(recs0, id0)) && TxnOf(newRecs) == txn;
    forall i | 0 <= i <= |trace|
      ensures BlocksOk(cfg, Apply(L, trace[..i])) && Parse(cfg, Apply(L, trace[..i]), 0, id0).Some?
      ensures Transactions(Parse(cfg, Apply(L, trace[..i]), 0, id0).value)
           == Transactions(recs0) + if i == |trace| then [txn] else []
    {
      CrashAtomicity(cfg, L, id0, recs0, chunks, newRecs, i);
    }
  }

  /** What lies in the log from distance n on: the closed chunks, and the data of the open descriptor. */
  ghost predicate Laid(cfg: Config, trace: seq<Write>, n: nat, t0: seq<Write>,
                       chunks: seq<Chunk>, recs: seq<Record>, o: Open, id: Word)
  {
    && ChunksAre(cfg, chunks, recs, id) && OnlyDescriptors(recs) && AllValid(recs) && o.Valid()
    && (forall i :: 0 <= i < |o.data| ==> |o.data[i]| == cfg.blockWords)
    && trace == t0 + Writes(chunks, n) + DataWrites(o.data, n + SizeOf(chunks) + 1)
  }

  lemma LaidClosed(cfg: Config, trace: seq<Write>, n: nat, t0: seq<Write>,
                   chunks: seq<Chunk>, recs: seq<Record>, o: Open, id: Word, header: Block)
    requires Laid(cfg, trace, n, t0, chunks, recs, o, id)
    requires cfg.Valid() && |header| == cfg.blockWords && IsControl(header, id) && BlockType(header) == JBD_DESCRIPTOR_BLOCK
    requires HoldsTags(cfg, header, o.tags) && TableEnds(cfg, header, o.tags)
    ensures SizeOf(chunks + [Chunk(header, o.data)]) == SizeOf(chunks) + o.Blocks()
    ensures Laid(cfg, trace + [(n + SizeOf(chunks), header)], n, t0,
                 chunks + [Chunk(header, o.data)], recs + [AsRecord(o)], Open([], []), id)
  {
    hide Writes, SizeOf, Tags, IsControl, BlockType, HoldsTags;
    var ch := Chunk(header, o.data);
    var t1 := trace + [(n + SizeOf(chunks), header)];
    DescriptorRoundTrip(cfg, header, o.tags);
    WritesSnoc(chunks, ch, n);
    assert ChunkIs(cfg, ch, AsRecord(o), id);
    assert t1 == t0 + (Writes(chunks, n) + ChunkWrites(ch, n + SizeOf(chunks))) + [];
    assert DataWrites([], n + SizeOf(chunks + [ch]) + 1) == [];
  }

  lemma LaidMore(cfg: Config, trace: seq<Write>, n: nat, t0: seq<Write>,
                 chunks: seq<Chunk>, recs: seq<Record>, o: Open, id: Word, tag: TagInfo, data: Block)
    requires Laid(cfg, trace, n, t0, chunks, recs, o, id) && |data| == cfg.blockWords > 0
    ensures Laid(cfg, trace + [(n + SizeOf(chunks) + 1 + |o.data|, data)], n, t0,
                 chunks, recs, Open(o.tags + [tag], o.data + [data]), id)
  {
    hide Writes, SizeOf, ChunksAre;
    var p := n + SizeOf(chunks) + 1;
    assert DataWrites(o.data + [data], p) == DataWrites(o.data, p) + [(p + |o.data|, data)];
  }

  lemma LaidValid(cfg: Config, trace: seq<Write>, n: nat, t0: seq<Write>,
                  chunks: seq<Chunk>, recs: seq<Record>, o: Open, id: Word)
    requires Laid(cfg, trace, n, t0, chunks, recs, o, id)
    ensures AllValid(recs) && o.Valid()
  {
  }

  /** desc_iblock, desc_block and tag_ptr of jbd_journal_prepare; iblock 0 means no descriptor is open. */
  class DescBlock {
    var iblock: nat
    var tagPtr: nat
    const data: array<Word>

    constructor (words: nat)
      ensures iblock == 0 && data.Length == words && fresh(data)
    {
      iblock, tagPtr := 0, 0;
      data := new Word[words];
    }

    ghost predicate Holds(cfg: Config, id: Word, o: Open)
      reads this, data
    {
      && iblock != 0 && data.Length == cfg.blockWords && cfg.Valid()
      && data[0] == JBD_MAGIC_NUMBER && data[1] == JBD_DESCRIPTOR_BLOCK && data[2] == id
      && tagPtr == TagPtr(cfg, |o.tags|) && HoldsTags(cfg, data[..], o.tags)
      && forall i :: 0 <= i < |o.tags| - 1 ==> !o.tags[i].lastTag
    }
  }

  /** desc_iblock, desc_block and tag_tbl_size of jbd_journal_prepare_revoke; count entries are in the table. */
  class RevokeBlock {
    var iblock: nat
    var count: nat
    const data: array<Word>

    constructor (words: nat)
      ensures iblock == 0 && data.Length == words && fresh(data)
    {
      iblock, count := 0, 0;
      data := new Word[words];
    }

    ghost predicate Holds(cfg: Config, id: Word, lbas: seq<nat>)
      reads this, data
    {
      && iblock != 0 && data.Length == cfg.blockWords && cfg.Valid()
      && data[0] == JBD_MAGIC_NUMBER && data[1] == JBD_REVOKE_BLOCK && data[2] == id
      && count == |lbas| && HoldsEntries(cfg, data[..], lbas)
    }

    /** tag_tbl_size, in words */
    function Room(cfg: Config): int
      reads this`count
    {
      data.Length - REVOKE_HEADER_WORDS - count * cfg.RecordWords()
    }

    /** Appends an entry to a table that has room for it. */
    method Put(cfg: Config, lba: nat, ghost id: Word, ghost lbas: seq<nat>)
      requires Holds(cfg, id, lbas) && cfg.Fits(lba) && Room(cfg) >= cfg.RecordWords()
      modifies this`count, data
      ensures Holds(cfg, id, lbas + [lba])
      ensures var p := 4 + |lbas| * cfg.RecordWords();
              if cfg.is64 then data[p] == lba / TWO32 && data[p + 1] == lba % TWO32 else data[p] == lba
    {
      hide RevokeEntry, HoldsEntries;
      ghost var before := data[..];
      var p := REVOKE_HEADER_WORDS + count * cfg.RecordWords();
      if cfg.is64 {
        data[p], data[p + 1] := lba / TWO32, lba % TWO32;
      } else {
        data[p] := lba;
      }
      count := count + 1;
      ghost var after := data[..];
      assert forall k :: REVOKE_HEADER_WORDS <= k < p ==> after[k] == before[k];
      EntryMore(cfg, before, after, lbas, lba);
    }
  }

  class Journal {
    const cfg: Config
    const first: nat
    const maxlen: nat
    const start: nat
    var last: nat
    var allocTransId: Word
    var log: seq<Block>

    // The turned log when the commit began, and the writes since then in their order.
    ghost var base: seq<Block>
    ghost var trace: seq<Write>
    // What the transaction said about its place in the log when the commit began.
    ghost var startIblock0: nat
    ghost var allocBlocks0: nat

    constructor (cfg: Config, first: nat, maxlen: nat, start: nat, last: nat, allocTransId: Word, log: seq<Block>)
      ensures this.cfg == cfg && Circ() == Circle(first, maxlen, start)
      ensures this.last == last && this.allocTransId == allocTransId && this.log == log
    {
      this.cfg, this.first, this.maxlen, this.start := cfg, first, maxlen, start;
      this.last, this.allocTransId, this.log := last, allocTransId, log;
    }

    function Circ(): Circle { Circle(first, maxlen, start) }

    ghost predicate Valid()
      reads this`log, this`base, this`trace
    {
      && Circ().Valid() && |log| == maxlen && BlocksOk(cfg, log)
      && Circ().Turn(log) == Apply(base, trace)
    }

    /** The transaction has taken some blocks of the log, from distance n on, and knows where they begin. */
    ghost predicate Begun(trans: Trans, n: nat, blocks: nat)
      reads this`startIblock0, this`allocBlocks0, trans`startIblock, trans`allocBlocks
    {
      && trans.allocBlocks == allocBlocks0 + blocks
      && trans.startIblock == if blocks == 0 || startIblock0 != 0 then startIblock0 else Circ().Pos(n)
    }

    /** The part of jbd_journal_alloc_block for a log that does not run full. */
    method AllocBlock(trans: Trans, ghost p: nat) returns (startBlock: nat)
      requires Circ().Valid() && last == Circ().Pos(p) && p + 1 < Circ().Size()
      modifies this`last, trans`allocBlocks
      ensures startBlock == Circ().Pos(p) && last == Circ().Pos(p + 1) && last != start
      ensures trans.allocBlocks == old(trans.allocBlocks) + 1
    {
      Circ().PosStep(p);
      startBlock := last;
      last := last + 1;
      trans.allocBlocks := trans.allocBlocks + 1;
      last := Circ().Wrap(last);
    }

    /** jbd_block_set on a dirty log block: it goes to the disk at once. */
    method SetBlock(iblock: nat, b: Block, ghost p: nat)
      requires Valid() && p < Circ().Size() && iblock == Circ().Pos(p) && |b| == cfg.blockWords
      modifies this`log, this`trace
      ensures Valid() && log == old(log)[iblock := b] && trace == old(trace) + [(p, b)]
    {
      hide Apply, BlocksOk;
      Circ().PosStep(p);
      ghost var L := Circ().Turn(log);
      log := log[iblock := b];
      trace := trace + [(p, b)];
      SetKeeps(old(log), iblock, b);
      TurnUpdate(old(log), p, b);
      OneMoreWrite(base, old(trace), p, b);
    }

    lemma SetKeeps(log: seq<Block>, iblock: nat, b: Block)
      requires BlocksOk(cfg, log) && iblock < |log| && |b| == cfg.blockWords
      ensures BlocksOk(cfg, log[iblock := b])
    {
    }

    lemma TurnUpdate(log: seq<Block>, p: nat, b: Block)
      requires Circ().Valid() && |log| == maxlen && p < Circ().Size()
      ensures Circ().Pos(p) < maxlen && Circ().Turn(log[Circ().Pos(p) := b]) == Circ().Turn(log)[p := b]
    {
    }

    /** Opens a descriptor at the end of the log; its table is empty. */
    method OpenDescriptor(trans: Trans, d: DescBlock, ghost n: nat, ghost k: nat)
      requires Circ().Valid() && cfg.Valid() && last == Circ().Pos(n + k) && n + k + 1 < Circ().Size()
      requires d.data.Length == cfg.blockWords && Begun(trans, n, k)
      modifies this`last, trans`allocBlocks, trans`startIblock, d, d.data
      ensures Begun(trans, n, k + 1)
      ensures last == Circ().Pos(n + k + 1) && d.iblock == Circ().Pos(n + k) && d.iblock != 0
      ensures d.Holds(cfg, trans.transId, Open([], [])) && d.data[..3] == [0xc03b3998, 1, trans.transId]
    {
      d.iblock := AllocBlock(trans, n + k);
      Circ().PosStep(n + k);
      Circ().PosStep(n);
      d.data[0], d.data[1], d.data[2] := JBD_MAGIC_NUMBER, JBD_DESCRIPTOR_BLOCK, trans.transId;
      d.tagPtr := HEADER_WORDS;
      if trans.startIblock == 0 {
        trans.startIblock := d.iblock;
      }
    }

    /** Tries to put a tag into the open descriptor. */
    method PutTag(d: DescBlock, info: TagInfo, ghost id: Word, ghost o: Open) returns (ok: bool)
      requires d.Holds(cfg, id, o) && cfg.Fits(info.block) && info.uuidExist == (o.tags == [])
      requires o.tags != [] ==> !o.tags[|o.tags| - 1].lastTag
      modifies d, d.data
      ensures d.iblock == old(d.iblock)
      ensures ok ==> forall data :: d.Holds(cfg, id, Open(o.tags + [info], data))
      ensures !ok ==> o.tags != [] && d.Holds(cfg, id, o) && TableEnds(cfg, d.data[..], o.tags)
    {
      hide ExtractBlockTag, HasFlag;
      TagsParity(cfg, o.tags);
      ghost var before := d.data[..];
      assert before[..d.tagPtr] == d.data[..d.tagPtr];
      ok := WriteBlockTag(cfg, d.data, d.tagPtr, info);
      ghost var after := d.data[..];
      assert after[..d.tagPtr] == d.data[..d.tagPtr];
      assert forall k :: 0 <= k < d.tagPtr ==> after[k] == d.data[..d.tagPtr][k] == before[k];
      if ok {
        HoldsOneMore(cfg, before, after, o.tags, info);
        d.tagPtr := d.tagPtr + info.Words(cfg);
      }
    }

    /** Writes out the open descriptor, whose table is full or carries the last tag. */
    method CloseDescriptor(d: DescBlock, ghost n: nat, ghost t0: seq<Write>, ghost chunks: seq<Chunk>, ghost recs: seq<Record>,
                           ghost o: Open, ghost id: Word)
      returns (ghost chunks': seq<Chunk>, ghost recs': seq<Record>)
      requires Valid() && Laid(cfg, trace, n, t0, chunks, recs, o, id)
      requires d.Holds(cfg, id, o) && TableEnds(cfg, d.data[..], o.tags)
      requires d.iblock == Circ().Pos(n + SizeOf(chunks)) && n + SizeOf(chunks) < Circ().Size()
      modifies this`log, this`trace, d`iblock
      ensures Valid() && Laid(cfg, trace, n, t0, chunks', recs', Open([], []), id) && d.iblock == 0
      ensures AllValid(recs') && recs' == recs + [AsRecord(o)] && SizeOf(chunks') == SizeOf(chunks) + o.Blocks()
    {
      hide Laid, Writes, SizeOf, TableEnds, HoldsTags;
      chunks', recs' := chunks + [Chunk(d.data[..], o.data)], recs + [AsRecord(o)];
      LaidValid(cfg, trace, n, t0, chunks, recs, o, id);
      LaidClosed(cfg, trace, n, t0, chunks, recs, o, id, d.data[..]);
      SetBlock(d.iblock, d.data[..], n + SizeOf(chunks));
      d.iblock := 0;
    }

    /** The open descriptor, if there is one, stands behind the closed chunks. */
    ghost predicate Filling(d: DescBlock, n: nat, t0: seq<Write>, chunks: seq<Chunk>, recs: seq<Record>, o: Open, id: Word)
      reads this`trace, d, d.data
    {
      && Laid(cfg, trace, n, t0, chunks, recs, o, id)
      && if d.iblock == 0 then o.tags == []
         else o.tags != [] && d.Holds(cfg, id, o) && d.iblock == Circ().Pos(n + SizeOf(chunks))
    }

    /** Puts a buffer's tag into the open descriptor, or closes that one and puts it into a new one. */
    method PlaceTag(trans: Trans, d: DescBlock, lba: nat, isEscape: bool, lastTag: bool,
                    ghost n: nat, ghost t0: seq<Write>, ghost chunks: seq<Chunk>, ghost recs: seq<Record>, ghost o: Open)
      returns (ghost chunks': seq<Chunk>, ghost recs': seq<Record>, ghost o': Open, ghost tag: TagInfo)
      requires Valid() && Circ().Valid() && cfg.Valid() && d.data.Length == cfg.blockWords && cfg.Fits(lba)
      requires Filling(d, n, t0, chunks, recs, o, trans.transId) && Begun(trans, n, SizeOf(chunks) + o.Blocks())
      requires o.tags != [] ==> !o.tags[|o.tags| - 1].lastTag
      requires last == Circ().Pos(n + SizeOf(chunks) + o.Blocks()) && n + SizeOf(chunks) + o.Blocks() + 1 < Circ().Size()
      modifies this`last, this`log, this`trace, trans`allocBlocks, trans`startIblock, d, d.data
      ensures Valid() && Laid(cfg, trace, n, t0, chunks', recs', o', trans.transId)
      ensures Begun(trans, n, SizeOf(chunks') + 1 + |o'.tags|)
      ensures d.iblock == Circ().Pos(n + SizeOf(chunks')) && d.iblock != 0
      ensures forall data :: d.Holds(cfg, trans.transId, Open(o'.tags + [tag], data))
      ensures tag.block == lba && tag.isEscape == isEscape && tag.lastTag == lastTag
      ensures last == Circ().Pos(n + SizeOf(chunks') + 1 + |o'.tags|)
      ensures SizeOf(chunks') + 1 + |o'.tags| <= SizeOf(chunks) + o.Blocks() + 1
      ensures AllValid(recs) && AllValid(recs') && o.Valid() && o'.Valid() && Carried(recs', o') == Carried(recs, o)
    {
      hide Writes, SizeOf, TableEnds, HoldsTags, Laid, Carried, Circle.Pos, DescBlock.Holds, Valid, Begun;
      ghost var id := trans.transId;
      LaidValid(cfg, trace, n, t0, chunks, recs, o, id);
      chunks', recs', o' := chunks, recs, o;
      var uuidExist, placed := false, false;
      tag := TagInfo(lba, isEscape, false, lastTag);
      while !placed
        invariant Valid() && Laid(cfg, trace, n, t0, chunks', recs', o', id) && AllValid(recs') && o'.Valid()
        invariant SizeOf(chunks') + o'.Blocks() <= SizeOf(chunks) + o.Blocks()
        invariant Carried(recs', o') == Carried(recs, o)
        invariant !placed ==> last == Circ().Pos(n + SizeOf(chunks') + o'.Blocks()) && !uuidExist
        invariant Begun(trans, n, SizeOf(chunks') + if placed then 1 + |o'.tags| else o'.Blocks())
        invariant !placed ==> o'.tags != [] ==> !o'.tags[|o'.tags| - 1].lastTag
        invariant !placed ==> if d.iblock == 0 then o'.tags == []
                              else o'.tags != [] && d.Holds(cfg, id, o') && d.iblock == Circ().Pos(n + SizeOf(chunks'))
        invariant placed ==> d.iblock != 0 && d.iblock == Circ().Pos(n + SizeOf(chunks'))
        invariant placed ==> last == Circ().Pos(n + SizeOf(chunks') + 1 + |o'.tags|)
        invariant placed ==> forall data :: d.Holds(cfg, id, Open(o'.tags + [tag], data))
        invariant tag.block == lba && tag.isEscape == isEscape && tag.lastTag == lastTag
        decreases !placed, d.iblock != 0
      {
        if d.iblock == 0 {
          OpenDescriptor(trans, d, n, SizeOf(chunks'));
          uuidExist := true;
        }
        tag := TagInfo(lba, isEscape, uuidExist, lastTag);
        placed := PutTag(d, TagInfo(lba, isEscape, uuidExist, lastTag), id, o');
        if !placed {
          CarriedClosed(recs', o');
          chunks', recs' := CloseDescriptor(d, n, t0, chunks', recs', o', id);
          o' := Open([], []);
        }
      }
    }

    /** One dirty buffer: its tag, and its data in the log block behind. */
    method PlaceBuffer(trans: Trans, d: DescBlock, b: JbdBuf, lastTag: bool,
                       ghost n: nat, ghost t0: seq<Write>, ghost chunks: seq<Chunk>, ghost recs: seq<Record>, ghost o: Open)
      returns (ghost chunks': seq<Chunk>, ghost recs': seq<Record>, ghost o': Open)
      requires Valid() && Circ().Valid() && cfg.Valid() && d.data.Length == cfg.blockWords
      requires Filling(d, n, t0, chunks, recs, o, trans.transId) && Begun(trans, n, SizeOf(chunks) + o.Blocks())
      requires o.tags != [] ==> !o.tags[|o.tags| - 1].lastTag
      requires last == Circ().Pos(n + SizeOf(chunks) + o.Blocks()) && n + SizeOf(chunks) + o.Blocks() + 2 < Circ().Size()
      requires |b.data| == cfg.blockWords && cfg.Fits(b.lba)
      modifies this`last, this`log, this`trace, trans`allocBlocks, trans`startIblock, d, d.data
      ensures Valid() && Filling(d, n, t0, chunks', recs', o', trans.transId) && d.iblock != 0
      ensures Begun(trans, n, SizeOf(chunks') + o'.Blocks())
      ensures o'.tags != [] && o'.tags[|o'.tags| - 1].lastTag == lastTag
      ensures last == Circ().Pos(n + SizeOf(chunks') + o'.Blocks())
      ensures SizeOf(chunks') + o'.Blocks() <= SizeOf(chunks) + o.Blocks() + 2
      ensures AllValid(recs) && AllValid(recs') && o.Valid() && o'.Valid()
      ensures Carried(recs', o') == Carried(recs, o) + [(b.lba, b.data)]
    {
      hide Writes, SizeOf, Laid, Carried, Valid, Circle.Pos, DescBlock.Holds;
      var isEscape := NeedsEscape(b.data);
      ghost var tag;
      chunks', recs', o', tag := PlaceTag(trans, d, b.lba, isEscape, lastTag, n, t0, chunks, recs, o);
      ghost var p := n + SizeOf(chunks') + 1 + |o'.tags|;
      var dataIblock := AllocBlock(trans, p);
      var data := b.data;
      if isEscape {
        data := data[0 := 0];
      }
      LaidMore(cfg, trace, n, t0, chunks', recs', o', trans.transId, tag, data);
      CarriedMore(recs', o', b, tag);
      SetBlock(dataIblock, data, p);
      o' := Open(o'.tags + [tag], o'.data + [data]);
    }

    /** Drops the clean buffers at the tail of the queue. */
    method DropCleanTail(trans: Trans)
      requires trans.dataCnt == |trans.bufQueue|
      modifies trans`bufQueue, trans`dataCnt
      ensures trans.bufQueue <= old(trans.bufQueue) && trans.dataCnt == |trans.bufQueue|
      ensures trans.bufQueue != [] ==> trans.bufQueue[|trans.bufQueue| - 1].dirty
      ensures Dirty(trans.bufQueue) == Dirty(old(trans.bufQueue))
    {
      while trans.bufQueue != [] && !trans.bufQueue[|trans.bufQueue| - 1].dirty
        invariant trans.bufQueue <= old(trans.bufQueue) && trans.dataCnt == |trans.bufQueue|
        invariant Dirty(trans.bufQueue) == Dirty(old(trans.bufQueue))
        decreases |trans.bufQueue|
      {
        trans.dataCnt := trans.dataCnt - 1;
        trans.bufQueue := trans.bufQueue[..|trans.bufQueue| - 1];
      }
    }

    /** The loop of jbd_journal_prepare: clean buffers leave the queue, dirty ones go into the log. */
    method PlaceAll(trans: Trans, d: DescBlock, ghost n: nat) returns (ghost chunks: seq<Chunk>, ghost recs: seq<Record>, ghost o: Open)
      requires Valid() && Circ().Valid() && BufsOk(cfg, trans.bufQueue) && trans.dataCnt == |trans.bufQueue|
      requires trans.bufQueue != [] ==> trans.bufQueue[|trans.bufQueue| - 1].dirty
      requires last == Circ().Pos(n) && n + 2 * |Dirty(trans.bufQueue)| < Circ().Size()
      requires d.iblock == 0 && d.data.Length == cfg.blockWords && Begun(trans, n, 0)
      modifies this`last, this`log, this`trace, trans, d, d.data
      ensures Begun(trans, n, SizeOf(chunks) + o.Blocks())
      ensures Valid() && Filling(d, n, old(trace), chunks, recs, o, trans.transId) && AllValid(recs) && o.Valid()
      ensures last == Circ().Pos(n + SizeOf(chunks) + o.Blocks())
      ensures SizeOf(chunks) + o.Blocks() <= 2 * |Dirty(old(trans.bufQueue))|
      ensures o.tags != [] ==> o.tags[|o.tags| - 1].lastTag
      ensures Carried(recs, o) == Dirty(old(trans.bufQueue)) == Dirty(trans.bufQueue)
      ensures trans.dataCnt == |trans.bufQueue| == |Dirty(old(trans.bufQueue))|
      ensures trans.transId == old(trans.transId) && trans.revokeRoot == old(trans.revokeRoot)
    {
      hide Laid, Carried, Filling, Valid, Begun, Circle.Pos, Circle.Valid, SizeOf, Dirty;
      var bufs := trans.bufQueue;
      var kept := [];
      var i := 0;
      ghost var t0, id := trace, trans.transId;
      chunks, recs, o := [], [], Open([], []);
      NothingFilled(d, n, id);
      NothingDirty();
      assert bufs[..0] == [];
      for j := 0 to |bufs|
        invariant Valid() && Filling(d, n, t0, chunks, recs, o, id) && AllValid(recs) && o.Valid()
        invariant trans.transId == id && trans.revokeRoot == old(trans.revokeRoot) && Begun(trans, n, SizeOf(chunks) + o.Blocks())
        invariant last == Circ().Pos(n + SizeOf(chunks) + o.Blocks()) && SizeOf(chunks) + o.Blocks() <= 2 * i
        invariant i == |kept| == |Dirty(bufs[..j])| && trans.dataCnt == i + |bufs| - j
        invariant Carried(recs, o) == Dirty(bufs[..j]) == Dirty(kept)
        invariant o.tags != [] ==> (o.tags[|o.tags| - 1].lastTag <==> j == |bufs|)
      {
        DirtyStep(bufs, j);
        if !bufs[j].dirty {
          trans.dataCnt := trans.dataCnt - 1;
        } else {
          var lastTag := i == trans.dataCnt - 1;
          DirtySnoc(kept, bufs[j]);
          chunks, recs, o := PlaceBuffer(trans, d, bufs[j], lastTag, n, t0, chunks, recs, o);
          kept := kept + [bufs[j]];
          i := i + 1;
        }
      }
      assert bufs[..|bufs|] == bufs;
      trans.bufQueue := kept;
    }

    /** jbd_journal_prepare */
    method Prepare(trans: Trans, ghost n: nat) returns (ghost chunks: seq<Chunk>, ghost recs: seq<Record>)
      requires Valid() && Circ().Valid() && BufsOk(cfg, trans.bufQueue) && trans.dataCnt == |trans.bufQueue|
      requires last == Circ().Pos(n) && n + 2 * |Dirty(trans.bufQueue)| < Circ().Size() && Begun(trans, n, 0)
      modifies this`last, this`log, this`trace, trans
      ensures Begun(trans, n, SizeOf(chunks))
      ensures Valid() && Stored(cfg, trace, n, old(trace), chunks, recs, trans.transId) && NoCommit(recs)
      ensures last == Circ().Pos(n + SizeOf(chunks)) && SizeOf(chunks) <= 2 * |Dirty(old(trans.bufQueue))|
      ensures AllValid(recs) && Accumulate(recs, NoWork) == Txn(Dirty(old(trans.bufQueue)), [])
      ensures Dirty(trans.bufQueue) == Dirty(old(trans.bufQueue))
      ensures trans.dataCnt == |trans.bufQueue| == |Dirty(old(trans.bufQueue))|
      ensures trans.transId == old(trans.transId) && trans.revokeRoot == old(trans.revokeRoot)
    {
      hide Laid, Carried, Filling, Valid, Begun, Circle.Pos, Circle.Valid, Accumulate, Writes, Stored, TableEnds, BufsOk, SizeOf, Dirty;
      ghost var bufs := trans.bufQueue;
      DropCleanTail(trans);
      BufsPrefix(cfg, bufs, trans.bufQueue);
      var d := new DescBlock(cfg.blockWords);
      ghost var t0, o, id := trace, Open([], []), trans.transId;
      chunks, recs, o := PlaceAll(trans, d, n);
      if d.iblock != 0 {
        FillingEnds(d, n, t0, chunks, recs, o, id);
        CarriedClosed(recs, o);
        chunks, recs := CloseDescriptor(d, n, t0, chunks, recs, o, id);
      } else {
        FillingEmpty(d, n, t0, chunks, recs, o, id);
      }
      PreparedAll(d, n, t0, chunks, recs, id);
    }

    lemma NothingFilled(d: DescBlock, n: nat, id: Word)
      requires d.iblock == 0
      ensures Filling(d, n, trace, [], [], Open([], []), id) && AllValid([]) && Open([], []).Valid()
      ensures SizeOf([]) == 0 && Carried([], Open([], [])) == []
    {
      assert DataWrites([], n + 1) == [];
    }

    lemma FillingEmpty(d: DescBlock, n: nat, t0: seq<Write>, chunks: seq<Chunk>, recs: seq<Record>, o: Open, id: Word)
      requires Filling(d, n, t0, chunks, recs, o, id) && d.iblock == 0
      ensures o == Open([], []) && Laid(cfg, trace, n, t0, chunks, recs, o, id)
    {
    }

    lemma FillingEnds(d: DescBlock, n: nat, t0: seq<Write>, chunks: seq<Chunk>, recs: seq<Record>, o: Open, id: Word)
      requires Filling(d, n, t0, chunks, recs, o, id) && d.iblock != 0
      requires o.tags != [] ==> o.tags[|o.tags| - 1].lastTag
      ensures Laid(cfg, trace, n, t0, chunks, recs, o, id) && d.Holds(cfg, id, o) && TableEnds(cfg, d.data[..], o.tags)
      ensures d.iblock == Circ().Pos(n + SizeOf(chunks))
    {
    }

    lemma PreparedAll(d: DescBlock, n: nat, t0: seq<Write>, chunks: seq<Chunk>, recs: seq<Record>, id: Word)
      requires Laid(cfg, trace, n, t0, chunks, recs, Open([], []), id)
      ensures Stored(cfg, trace, n, t0, chunks, recs, id) && NoCommit(recs) && AllValid(recs) && Open([], []).Valid()
      ensures Accumulate(recs, NoWork) == Txn(Carried(recs, Open([], [])), [])
    {
      LaidIsStored(cfg, trace, n, t0, chunks, recs, id);
      NoRevokes(recs, NoWork);
      assert WritesOf(AsRecord(Open([], []))) == [];
    }

    /** Opens a revoke block at the end of the log; its table is empty. */
    method OpenRevoke(trans: Trans, d: RevokeBlock, ghost n: nat, ghost k: nat)
      requires Circ().Valid() && cfg.Valid() && last == Circ().Pos(n + k) && n + k + 1 < Circ().Size()
      requires d.data.Length == cfg.blockWords && Begun(trans, n, k)
      modifies this`last, trans`allocBlocks, trans`startIblock, d, d.data
      ensures Begun(trans, n, k + 1)
      ensures last == Circ().Pos(n + k + 1) && d.iblock == Circ().Pos(n + k)
      ensures d.Holds(cfg, trans.transId, []) && d.data[..3] == [0xc03b3998, 5, trans.transId]
    {
      d.iblock := AllocBlock(trans, n + k);
      Circ().PosStep(n + k);
      Circ().PosStep(n);
      d.data[0], d.data[1], d.data[2] := JBD_MAGIC_NUMBER, JBD_REVOKE_BLOCK, trans.transId;
      d.count := 0;
      if trans.startIblock == 0 {
        trans.startIblock := d.iblock;
      }
    }

    /** Sets the byte count of a revoke block and writes it out. */
    method CloseRevoke(d: RevokeBlock, ghost n: nat, ghost t0: seq<Write>, ghost chunks: seq<Chunk>, ghost recs: seq<Record>,
                       ghost lbas: seq<nat>, ghost id: Word)
      returns (ghost chunks': seq<Chunk>, ghost recs': seq<Record>)
      requires Valid() && Stored(cfg, trace, n, t0, chunks, recs, id) && NoCommit(recs) && AllValid(recs)
      requires d.Holds(cfg, id, lbas)
      requires d.iblock == Circ().Pos(n + SizeOf(chunks)) && n + SizeOf(chunks) < Circ().Size()
      modifies this`log, this`trace, d`iblock, d.data
      ensures Valid() && Stored(cfg, trace, n, t0, chunks', recs', id) && NoCommit(recs') && AllValid(recs') && d.iblock == 0
      ensures recs' == recs + [Record.Revoke(lbas)] && SizeOf(chunks') == SizeOf(chunks) + 1
      ensures d.data[3] == 4 * (4 + |lbas| * cfg.RecordWords())
      ensures AllValid(recs) && Accumulate(recs', NoWork) ==
        Txn(Accumulate(recs, NoWork).writes, Accumulate(recs, NoWork).revokes + lbas)
    {
      hide Valid, Stored, SizeOf, Circle.Pos, Accumulate;
      ghost var before := d.data[..];
      d.data[3] := 4 * (REVOKE_HEADER_WORDS + d.count * cfg.RecordWords());
      ghost var header, rec := d.data[..], Record.Revoke(lbas);
      EntriesKept(cfg, before, header, lbas);
      RevokeRoundTrip(cfg, header, lbas);
      StoredMore(cfg, trace, n, t0, chunks, recs, id, header, rec);
      AccumulateSnoc(recs, rec, NoWork);
      SetBlock(d.iblock, d.data[..], n + SizeOf(chunks));
      d.iblock := 0;
      chunks', recs' := chunks + [Chunk(header, [])], recs + [rec];
    }

    lemma EntriesKept(cfg: Config, b: Block, b': Block, lbas: seq<nat>)
      requires |b| == |b'| && HoldsEntries(cfg, b, lbas) && forall k :: REVOKE_HEADER_WORDS <= k < |b| ==> b'[k] == b[k]
      ensures HoldsEntries(cfg, b', lbas)
    {
      forall i | 0 <= i < |lbas| ensures RevokeEntry(cfg, b', i) == lbas[i] {
        assert RevokeEntry(cfg, b, i) == lbas[i];
      }
    }

    /** jbd_journal_prepare_revoke, behind the chunks that jbd_journal_prepare has written */
    method PrepareRevoke(trans: Trans, ghost n: nat, ghost t0: seq<Write>, ghost chunks0: seq<Chunk>, ghost recs0: seq<Record>)
      returns (ghost chunks: seq<Chunk>, ghost recs: seq<Record>)
      requires Valid() && Circ().Valid() && cfg.Valid() && AllValid(recs0)
      requires Stored(cfg, trace, n, t0, chunks0, recs0, trans.transId) && NoCommit(recs0)
      requires forall i :: 0 <= i < |trans.revokeRoot| ==> cfg.Fits(trans.revokeRoot[i])
      requires last == Circ().Pos(n + SizeOf(chunks0)) && n + SizeOf(chunks0) + |trans.revokeRoot| < Circ().Size()
      requires Begun(trans, n, SizeOf(chunks0))
      modifies this`last, this`log, this`trace, trans`allocBlocks, trans`startIblock
      ensures Begun(trans, n, SizeOf(chunks))
      ensures Valid() && Stored(cfg, trace, n, t0, chunks, recs, trans.transId) && NoCommit(recs) && AllValid(recs)
      ensures last == Circ().Pos(n + SizeOf(chunks)) && SizeOf(chunks) <= SizeOf(chunks0) + |trans.revokeRoot|
      ensures Accumulate(recs, NoWork) ==
        Txn(Accumulate(recs0, NoWork).writes, Accumulate(recs0, NoWork).revokes + trans.revokeRoot)
    {
      hide Valid, Begun, Stored, SizeOf, Circle.Pos, Circle.Valid, Accumulate, RevokeBlock.Holds;
      chunks, recs := chunks0, recs0;
      var d := new RevokeBlock(cfg.blockWords);
      var lbas := trans.revokeRoot;
      ghost var id, done, table := trans.transId, 0, [];
      for j := 0 to |lbas|
        invariant Valid() && Stored(cfg, trace, n, t0, chunks, recs, id) && NoCommit(recs) && AllValid(recs)
        invariant done <= j && lbas[done..j] == table && (d.iblock == 0 <==> table == [])
        invariant d.iblock != 0 ==> d.Holds(cfg, id, table) && d.iblock == Circ().Pos(n + SizeOf(chunks))
        invariant SizeOf(chunks) <= SizeOf(chunks0) + done && Begun(trans, n, SizeOf(chunks) + if table == [] then 0 else 1)
        invariant last == Circ().Pos(n + SizeOf(chunks) + if table == [] then 0 else 1)
        invariant Accumulate(recs, NoWork) ==
          Txn(Accumulate(recs0, NoWork).writes, Accumulate(recs0, NoWork).revokes + lbas[..done])
      {
        if d.iblock != 0 && d.Room(cfg) < cfg.RecordWords() {
          chunks, recs := CloseRevoke(d, n, t0, chunks, recs, table, id);
          assert lbas[..done] + table == lbas[..j];
          done, table := j, [];
        }
        if d.iblock == 0 {
          OpenRevoke(trans, d, n, SizeOf(chunks));
        }
        d.Put(cfg, lbas[j], id, table);
        table := table + [lbas[j]];
      }
      assert lbas[..done] + table == lbas;
      if d.iblock != 0 {
        chunks, recs := CloseRevoke(d, n, t0, chunks, recs, table, id);
      }
    }

    /** jbd_trans_write_commit_block */
    method WriteCommitBlock(trans: Trans, ghost n: nat, ghost t0: seq<Write>, ghost chunks: seq<Chunk>, ghost recs: seq<Record>)
      returns (ghost chunks': seq<Chunk>)
      requires Valid() && Circ().Valid() && cfg.Valid() && Stored(cfg, trace, n, t0, chunks, recs, trans.transId)
      requires last == Circ().Pos(n + SizeOf(chunks)) && n + SizeOf(chunks) + 1 < Circ().Size()
      requires SizeOf(chunks) > 0 && Begun(trans, n, SizeOf(chunks))
      modifies this`last, this`log, this`trace, trans`allocBlocks
      ensures Begun(trans, n, SizeOf(chunks'))
      ensures Valid() && Stored(cfg, trace, n, t0, chunks', recs + [Record.Commit], trans.transId)
      ensures last == Circ().Pos(n + SizeOf(chunks')) && SizeOf(chunks') == SizeOf(chunks) + 1
      ensures chunks' == chunks + [Chunk([0xc03b3998, 2, trans.transId] + seq(cfg.blockWords - 3, _ => 0), [])]
    {
      hide Valid, Stored, SizeOf, Circle.Pos, Circle.Valid;
      var commitIblock := AllocBlock(trans, n + SizeOf(chunks));
      var block: Block := [JBD_MAGIC_NUMBER, JBD_COMMIT_BLOCK, trans.transId] + seq(cfg.blockWords - HEADER_WORDS, _ => 0);
      StoredMore(cfg, trace, n, t0, chunks, recs, trans.transId, block, Record.Commit);
      SetBlock(commitIblock, block, n + SizeOf(chunks));
      chunks' := chunks + [Chunk(block, [])];
    }

    /**
     The writing part of __jbd_journal_commit_trans.  The log holds the records recs0 of whole
     transactions, n blocks of them.  Whatever number i of the writes have reached the disk, a
     scan finds the old transactions, and the new one only when all have.
     */
    method CommitTrans(trans: Trans, ghost id0: Word, ghost recs0: seq<Record>)
      returns (committed: bool, ghost chunks: seq<Chunk>)
      requires Circ().Valid() && cfg.Valid() && |log| == maxlen && BlocksOk(cfg, log)
      requires BufsOk(cfg, trans.bufQueue) && trans.dataCnt == |trans.bufQueue|
      requires forall i :: 0 <= i < |trans.revokeRoot| ==> cfg.Fits(trans.revokeRoot[i])
      requires Parse(cfg, Circ().Turn(log), 0, id0) == Some(recs0) && (recs0 != [] ==> recs0[|recs0| - 1].Commit?)
      requires allocTransId == IdAfter(recs0, id0) && FreeFrom(Circ().Turn(log), SizeOfRecords(recs0), allocTransId)
      requires last == Circ().Pos(SizeOfRecords(recs0))
      requires SizeOfRecords(recs0) + 2 * |Dirty(trans.bufQueue)| + |trans.revokeRoot| + 1 < Circ().Size()
      modifies this, trans
      ensures Valid() && base == old(Circ().Turn(log)) && trace == Writes(chunks, SizeOfRecords(recs0))
      ensures committed <==> Dirty(old(trans.bufQueue)) != [] || old(trans.revokeRoot) != []
      ensures last == Circ().Pos(SizeOfRecords(recs0) + SizeOf(chunks))
      ensures !committed ==> trace == [] && allocTransId == old(allocTransId)
      ensures committed ==> allocTransId == NextId(old(allocTransId)) && trans.transId == old(allocTransId)
      ensures committed ==> trans.allocBlocks == old(trans.allocBlocks) + SizeOf(chunks)
      ensures committed ==>
        trans.startIblock == if old(trans.startIblock) != 0 then old(trans.startIblock) else Circ().Pos(SizeOfRecords(recs0))
      ensures Dirty(trans.bufQueue) == Dirty(old(trans.bufQueue)) && trans.dataCnt == |trans.bufQueue| == |Dirty(old(trans.bufQueue))|
      ensures committed ==> forall i :: 0 <= i <= |trace| ==>
        && BlocksOk(cfg, Apply(base, trace[..i])) && Parse(cfg, Apply(base, trace[..i]), 0, id0).Some?
        && Transactions(Parse(cfg, Apply(base, trace[..i]), 0, id0).value)
        == Transactions(recs0) + if i == |trace| then [Txn(Dirty(old(trans.bufQueue)), old(trans.revokeRoot))] else []
    {
      hide Valid, Begun, Stored, SizeOf, Circle.Pos, Circle.Valid, Circle.Turn, Accumulate, Parse, FreeFrom, Apply, Dirty,
        Transactions, BufsOk, BlocksOk;
      ghost var n, L := SizeOfRecords(recs0), Circ().Turn(log);
      base, trace := L, [];
      startIblock0, allocBlocks0 := trans.startIblock, trans.allocBlocks;
      StartTrace(trans, n);
      trans.transId := allocTransId;
      ghost var txn := Txn(Dirty(trans.bufQueue), trans.revokeRoot);
      ghost var body;
      committed, chunks, body := WriteOut(trans, n);
      if committed {
        allocTransId := NextId(allocTransId);
        BegunIs(trans, n, SizeOf(chunks));
        CommitSafe(cfg, L, id0, recs0, trace, chunks, body, txn);
      }
    }

    /** All blocks of a transaction, its commit block last; there is none when the transaction is empty. */
    method WriteOut(trans: Trans, ghost n: nat) returns (committed: bool, ghost chunks: seq<Chunk>, ghost body: seq<Record>)
      requires Valid() && Circ().Valid() && cfg.Valid() && trace == [] && Begun(trans, n, 0)
      requires BufsOk(cfg, trans.bufQueue) && trans.dataCnt == |trans.bufQueue|
      requires forall i :: 0 <= i < |trans.revokeRoot| ==> cfg.Fits(trans.revokeRoot[i])
      requires last == Circ().Pos(n) && n + 2 * |Dirty(trans.bufQueue)| + |trans.revokeRoot| + 1 < Circ().Size()
      modifies this`last, this`log, this`trace, trans
      ensures Valid() && Begun(trans, n, SizeOf(chunks)) && trans.transId == old(trans.transId)
      ensures committed <==> Dirty(old(trans.bufQueue)) != [] || old(trans.revokeRoot) != []
      ensures last == Circ().Pos(n + SizeOf(chunks)) && n + SizeOf(chunks) < Circ().Size() && trace == Writes(chunks, n)
      ensures !committed ==> trace == []
      ensures committed ==> SizeOf(chunks) > 0 && Stored(cfg, trace, n, [], chunks, body + [Commit], trans.transId)
      ensures committed ==> NoCommit(body) && AllValid(body)
      ensures committed ==> Accumulate(body, NoWork) == Txn(Dirty(old(trans.bufQueue)), old(trans.revokeRoot))
      ensures Dirty(trans.bufQueue) == Dirty(old(trans.bufQueue)) && trans.dataCnt == |trans.bufQueue| == |Dirty(old(trans.bufQueue))|
    {
      hide Valid, Begun, Stored, SizeOf, Circle.Pos, Circle.Valid, Circle.Turn, Accumulate, Dirty, BufsOk, Writes;
      ghost var id, recs := trans.transId, [];
      ghost var writes, revokes := Dirty(trans.bufQueue), trans.revokeRoot;
      chunks, recs := Prepare(trans, n);
      chunks, recs := PrepareRevoke(trans, n, [], chunks, recs);
      body := recs;
      if trans.bufQueue == [] && trans.revokeRoot == [] {
        committed := false;
        NothingStored(cfg, trace, n, chunks, recs, id);
        return;
      }
      SomeStored(cfg, trace, n, chunks, body, id, Txn(writes, revokes));
      chunks := WriteCommitBlock(trans, n, [], chunks, body);
      StoredWrites(cfg, trace, n, chunks, body + [Record.Commit], id);
      committed := true;
    }

    lemma StoredWrites(cfg: Config, trace: seq<Write>, n: nat, chunks: seq<Chunk>, recs: seq<Record>, id: Word)
      requires Stored(cfg, trace, n, [], chunks, recs, id)
      ensures trace == Writes(chunks, n)
    {
    }

    lemma SomeStored(cfg: Config, trace: seq<Write>, n: nat, chunks: seq<Chunk>, recs: seq<Record>, id: Word, txn: Txn)
      requires Stored(cfg, trace, n, [], chunks, recs, id) && AllValid(recs) && Accumulate(recs, NoWork) == txn != NoWork
      ensures SizeOf(chunks) > 0
    {
    }

    lemma BegunIs(trans: Trans, n: nat, blocks: nat)
      requires Begun(trans, n, blocks) && blocks > 0
      ensures trans.allocBlocks == allocBlocks0 + blocks
      ensures trans.startIblock == if startIblock0 != 0 then startIblock0 else Circ().Pos(n)
    {
    }

    lemma StartTrace(trans: Trans, n: nat)
      requires trans.startIblock == startIblock0 && trans.allocBlocks == allocBlocks0
      requires Circ().Valid() && |log| == maxlen && BlocksOk(cfg, log) && base == Circ().Turn(log) && trace == []
      ensures Valid() && BlocksOk(cfg, base) && Begun(trans, n, 0)
    {
    }
  }
}
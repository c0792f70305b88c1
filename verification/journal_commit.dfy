/**
 The commit of a transaction: its descriptor, data, revoke and commit blocks are written
 one by one into the free part of the log, and every crash in between is harmless.
 */
module JournalLayout {
  import opened JournalFormat
  import opened JournalLog
  import opened JournalOutcome

  /** A control block together with the data blocks that follow it in the log. */
  datatype Chunk = Chunk(header: Block, data: seq<Block>) {
    function Size(): nat { 1 + |data| }
  }

  /** A write of a block at a distance from the log's start. */
  type Write = (nat, Block)

  ghost function DataWrites(data: seq<Block>, p: nat): (w: seq<Write>)
    ensures |w| == |data|
  {
    seq(|data|, i requires 0 <= i < |data| => (p + i, data[i]))
  }

  /** The order in which a chunk reaches the disk: the data first, its control block last. */
  ghost function ChunkWrites(c: Chunk, p: nat): (w: seq<Write>)
    ensures |w| == c.Size()
  {
    DataWrites(c.data, p + 1) + [(p, c.header)]
  }

  ghost function SizeOf(chunks: seq<Chunk>): nat {
    if chunks == [] then 0 else chunks[0].Size() + SizeOf(chunks[1..])
  }

  /** All writes of a run of chunks laid from distance p on. */
  ghost function Writes(chunks: seq<Chunk>, p: nat): (w: seq<Write>)
    ensures |w| == SizeOf(chunks)
  {
    if chunks == [] then [] else ChunkWrites(chunks[0], p) + Writes(chunks[1..], p + chunks[0].Size())
  }

  lemma {:induction false} WritesSnoc(chunks: seq<Chunk>, c: Chunk, p: nat)
    ensures SizeOf(chunks + [c]) == SizeOf(chunks) + c.Size()
    ensures Writes(chunks + [c], p) == Writes(chunks, p) + ChunkWrites(c, p + SizeOf(chunks))
    decreases |chunks|
  {
    if chunks == [] {
      assert chunks + [c] == [c] && [c][1..] == [];
    } else {
      assert (chunks + [c])[1..] == chunks[1..] + [c];
      WritesSnoc(chunks[1..], c, p + chunks[0].Size());
    }
  }

  /** The log after some writes. */
  ghost function Apply(L: seq<Block>, w: seq<Write>): (L': seq<Block>)
    ensures |L'| == |L|
  {
    if w == [] then L
    else
      var prev := Apply(L, w[..|w| - 1]);
      var (p, b) := w[|w| - 1];
      if p < |L| then prev[p := b] else prev
  }

  /** The chunk reads back as the record, as part of transaction id. */
  ghost predicate ChunkIs(cfg: Config, c: Chunk, rec: Record, id: Word) {
    && cfg.Valid() && |c.header| == cfg.blockWords && IsControl(c.header, id)
    && (forall i :: 0 <= i < |c.data| ==> |c.data[i]| == cfg.blockWords)
    && match rec
       case Descriptor(tags, data) =>
         && BlockType(c.header) == JBD_DESCRIPTOR_BLOCK && Tags(cfg, c.header, HEADER_WORDS) == tags
         && data == c.data && |tags| == |data|
       case Revoke(lbas) =>
         && BlockType(c.header) == JBD_REVOKE_BLOCK && RevokeTableFits(c.header)
         && RevokeEntries(cfg, c.header) == lbas && c.data == []
       case Commit => BlockType(c.header) == JBD_COMMIT_BLOCK && c.data == []
  }

  ghost predicate ChunksAre(cfg: Config, chunks: seq<Chunk>, recs: seq<Record>, id: Word) {
    |chunks| == |recs| && forall i :: 0 <= i < |chunks| ==> ChunkIs(cfg, chunks[i], recs[i], id)
  }

  // ----- writes and the parts of the log they leave alone -----

  ghost predicate Outside(w: seq<Write>, q: nat) { forall i :: 0 <= i < |w| ==> w[i].0 != q }

  lemma {:induction false} ApplyOutside(L: seq<Block>, w: seq<Write>, q: nat)
    requires q < |L| && Outside(w, q)
    ensures Apply(L, w)[q] == L[q]
  {
    if w != [] {
      assert Outside(w[..|w| - 1], q);
      ApplyOutside(L, w[..|w| - 1], q);
    }
  }

  lemma {:induction false} RunConcat(L: seq<Block>, w1: seq<Write>, w2: seq<Write>)
    ensures Apply(L, w1 + w2) == Apply(Apply(L, w1), w2)
    decreases |w2|
  {
    if w2 == [] {
      assert w1 + w2 == w1;
    } else {
      assert (w1 + w2)[..|w1 + w2| - 1] == w1 + w2[..|w2| - 1];
      RunConcat(L, w1, w2[..|w2| - 1]);
    }
  }

  /** Data written on its own stretch of the log can be read there afterwards. */
  lemma {:induction false} ApplyData(L: seq<Block>, data: seq<Block>, p: nat, n: nat, i: nat)
    requires n <= |data| && i < n && p + |data| <= |L|
    ensures Apply(L, DataWrites(data, p)[..n])[p + i] == data[i]
  {
    var w := DataWrites(data, p)[..n];
    assert w[..n - 1] == DataWrites(data, p)[..n - 1];
    if i < n - 1 {
      ApplyData(L, data, p, n - 1, i);
    }
  }

  lemma OneMoreWrite(L: seq<Block>, w: seq<Write>, p: nat, b: Block)
    requires p < |L|
    ensures Apply(L, w + [(p, b)]) == Apply(L, w)[p := b]
  {
    assert (w + [(p, b)])[..|w|] == w;
  }

  lemma ChunkApplied(L: seq<Block>, c: Chunk, p: nat)
    requires p + c.Size() <= |L|
    ensures var L' := Apply(L, ChunkWrites(c, p));
            && L'[p] == c.header
            && (forall i :: 0 <= i < |c.data| ==> L'[p + 1 + i] == c.data[i])
            && (forall q :: 0 <= q < |L| && !(p <= q < p + c.Size()) ==> L'[q] == L[q])
  {
    hide Apply;
    var d := DataWrites(c.data, p + 1);
    var w := ChunkWrites(c, p);
    OneMoreWrite(L, d, p, c.header);
    assert d[..|d|] == d;
    forall i | 0 <= i < |c.data| ensures Apply(L, w)[p + 1 + i] == c.data[i] {
      ApplyData(L, c.data, p + 1, |d|, i);
    }
    forall q | 0 <= q < |L| && !(p <= q < p + c.Size()) ensures Apply(L, w)[q] == L[q] {
      ApplyOutside(L, w, q);
    }
  }

  /** A chunk in the log is the record it stands for. */
  lemma ChunkRead(cfg: Config, L: seq<Block>, p: nat, c: Chunk, rec: Record, id: Word)
    requires BlocksOk(cfg, L) && p + c.Size() <= |L| && ChunkIs(cfg, c, rec, id)
    requires L[p] == c.header && forall i :: 0 <= i < |c.data| ==> L[p + 1 + i] == c.data[i]
    ensures IsControl(L[p], id) && RecordAt(cfg, L, p) == Some(rec) && rec.Size() == c.Size()
  {
    if rec.Descriptor? {
      assert L[p + 1..p + 1 + |c.data|] == c.data;
    }
  }

  lemma BlocksStayOk(cfg: Config, L: seq<Block>, w: seq<Write>)
    requires BlocksOk(cfg, L) && forall i :: 0 <= i < |w| ==> |w[i].1| == cfg.blockWords
    ensures BlocksOk(cfg, Apply(L, w))
  {
    if w != [] {
      BlocksStayOk(cfg, L, w[..|w| - 1]);
    }
  }

  lemma {:induction false} WritesInside(cfg: Config, chunks: seq<Chunk>, recs: seq<Record>, id: Word, p: nat)
    requires ChunksAre(cfg, chunks, recs, id)
    ensures forall i :: 0 <= i < |Writes(chunks, p)| ==>
              |Writes(chunks, p)[i].1| == cfg.blockWords && p <= Writes(chunks, p)[i].0 < p + SizeOf(chunks)
    decreases |chunks|
  {
    if chunks != [] {
      assert ChunkIs(cfg, chunks[0], recs[0], id);
      WritesInside(cfg, chunks[1..], recs[1..], id, p + chunks[0].Size());
    }
  }

  // ----- reading a log whose tail has changed -----

  ghost function SizeOfRecords(recs: seq<Record>): nat {
    if recs == [] then 0 else recs[0].Size() + SizeOfRecords(recs[1..])
  }

  ghost function IdAfter(recs: seq<Record>, id: Word): Word {
    if recs == [] then id else IdAfter(recs[1..], After(recs[0], id))
  }

  ghost function Prefixed(recs: seq<Record>, rest: Option<seq<Record>>): Option<seq<Record>> {
    match rest case None => None case Some(r) => Some(recs + r)
  }

  lemma SameRecord(cfg: Config, L: seq<Block>, L': seq<Block>, p: nat, rec: Record)
    requires BlocksOk(cfg, L) && BlocksOk(cfg, L') && |L| == |L'| && p < |L| && RecordAt(cfg, L, p) == Some(rec)
    requires forall q :: p <= q < p + rec.Size() ==> L'[q] == L[q]
    ensures RecordAt(cfg, L', p) == Some(rec)
  {
    if rec.Descriptor? {
      assert L'[p + 1..p + 1 + |rec.tags|] == L[p + 1..p + 1 + |rec.tags|];
    }
  }

  lemma PrefixedTwice(a: seq<Record>, b: seq<Record>, rest: Option<seq<Record>>)
    ensures Prefixed(a, Prefixed(b, rest)) == Prefixed(a + b, rest)
  {
    if rest.Some? {
      assert a + (b + rest.value) == a + b + rest.value;
    }
  }

  lemma KeptRecord(cfg: Config, L: seq<Block>, L': seq<Block>, p: nat, id: Word, rec: Record)
    requires BlocksOk(cfg, L) && BlocksOk(cfg, L') && |L| == |L'| && p < |L|
    requires IsControl(L[p], id) && RecordAt(cfg, L, p) == Some(rec)
    requires forall q :: p <= q < p + rec.Size() ==> L'[q] == L[q]
    ensures p + rec.Size() <= |L|
    ensures Parse(cfg, L', p, id) == Prefixed([rec], Parse(cfg, L', p + rec.Size(), After(rec, id)))
  {
    SameRecord(cfg, L, L', p, rec);
  }

  /** The records of the unchanged part are read as before; then comes whatever the tail holds. */
  lemma {:induction false} ParseSplice(cfg: Config, L: seq<Block>, L': seq<Block>, p: nat, id: Word, recs: seq<Record>)
    requires BlocksOk(cfg, L) && BlocksOk(cfg, L') && |L| == |L'| && p <= |L| && Parse(cfg, L, p, id) == Some(recs)
    requires forall q :: p <= q < p + SizeOfRecords(recs) && q < |L| ==> L'[q] == L[q]
    ensures p + SizeOfRecords(recs) <= |L|
    ensures Parse(cfg, L', p, id) == Prefixed(recs, Parse(cfg, L', p + SizeOfRecords(recs), IdAfter(recs, id)))
    decreases |recs|
  {
    if recs == [] {
      var rest := Parse(cfg, L', p, id);
      assert rest.Some? ==> [] + rest.value == rest.value;
    } else {
      ParseSpliceMore(cfg, L, L', p, id, recs);
    }
  }

  lemma {:induction false} ParseSpliceMore(cfg: Config, L: seq<Block>, L': seq<Block>, p: nat, id: Word, recs: seq<Record>)
    requires BlocksOk(cfg, L) && BlocksOk(cfg, L') && |L| == |L'| && p <= |L| && Parse(cfg, L, p, id) == Some(recs)
    requires forall q :: p <= q < p + SizeOfRecords(recs) && q < |L| ==> L'[q] == L[q]
    requires recs != [] && p < |L|
    ensures p + SizeOfRecords(recs) <= |L|
    ensures Parse(cfg, L', p, id) == Prefixed(recs, Parse(cfg, L', p + SizeOfRecords(recs), IdAfter(recs, id)))
    decreases |recs|, 0
  {
    hide Parse, RecordAt, Prefixed, IsControl;
    ParseStep(cfg, L, p, id, recs);
    var rec := recs[0];
    KeptRecord(cfg, L, L', p, id, rec);
    ParseSplice(cfg, L, L', p + rec.Size(), After(rec, id), recs[1..]);
    PrefixedTwice([rec], recs[1..], Parse(cfg, L', p + SizeOfRecords(recs), IdAfter(recs, id)));
    assert [rec] + recs[1..] == recs;
  }

  ghost predicate ChunkAt(L: seq<Block>, c: Chunk, p: nat) {
    p + c.Size() <= |L| && L[p] == c.header && forall i :: 0 <= i < |c.data| ==> L[p + 1 + i] == c.data[i]
  }

  ghost predicate NoCommit(recs: seq<Record>) { forall i :: 0 <= i < |recs| ==> !recs[i].Commit? }

  lemma ReadOne(cfg: Config, L: seq<Block>, p: nat, id: Word, c: Chunk, rec: Record)
    requires BlocksOk(cfg, L) && ChunkAt(L, c, p) && ChunkIs(cfg, c, rec, id)
    ensures Parse(cfg, L, p, id) == Prefixed([rec], Parse(cfg, L, p + c.Size(), After(rec, id)))
  {
    ChunkRead(cfg, L, p, c, rec, id);
  }

  // ----- grouping -----

  ghost function Accumulate(recs: seq<Record>, cur: Txn): Txn
    requires AllValid(recs)
  {
    if recs == [] then cur else Accumulate(recs[1..], Extend(cur, recs[0]))
  }

  lemma {:induction false} GroupConcat(r1: seq<Record>, r2: seq<Record>, cur: Txn)
    requires AllValid(r1) && AllValid(r2)
    ensures AllValid(r1 + r2) && Group(r1 + r2, cur) == Group(r1, cur) + Group(r2, Accumulate(r1, cur))
    decreases |r1|
  {
    if r1 == [] {
      assert r1 + r2 == r2;
    } else {
      assert (r1 + r2)[1..] == r1[1..] + r2;
      GroupConcat(r1[1..], r2, Extend(cur, r1[0]));
    }
  }

  lemma {:induction false} GroupOfBody(recs: seq<Record>, cur: Txn)
    requires AllValid(recs) && NoCommit(recs)
    ensures Group(recs, cur) == []
  {
    if recs != [] {
      GroupOfBody(recs[1..], Extend(cur, recs[0]));
    }
  }

  lemma {:induction false} CleanEnd(recs: seq<Record>, cur: Txn)
    requires AllValid(recs) && recs != [] && recs[|recs| - 1].Commit?
    ensures Accumulate(recs, cur) == NoWork
  {
    if |recs| > 1 {
      CleanEnd(recs[1..], Extend(cur, recs[0]));
    }
  }
}

module JournalAtomicity {
  import opened JournalFormat
  import opened JournalLog
  import opened JournalOutcome
  import opened JournalLayout

  /** The chunks of one transaction: descriptors and revoke blocks, then the commit block. */
  ghost predicate IsTransaction(cfg: Config, chunks: seq<Chunk>, recs: seq<Record>, id: Word) {
    && ChunksAre(cfg, chunks, recs, id)
    && recs != [] && recs[|recs| - 1].Commit? && NoCommit(recs[..|recs| - 1])
  }

  ghost function TxnOf(recs: seq<Record>): Txn
    requires AllValid(recs) && recs != []
  {
    Accumulate(recs[..|recs| - 1], NoWork)
  }

  lemma ChunkRecordsValid(cfg: Config, chunks: seq<Chunk>, recs: seq<Record>, id: Word)
    requires ChunksAre(cfg, chunks, recs, id)
    ensures AllValid(recs)
  {
    forall i | 0 <= i < |recs| ensures recs[i].Valid() {
      assert ChunkIs(cfg, chunks[i], recs[i], id);
    }
  }

  /** A free log: nothing from distance p on passes for a control block of this or the next transaction. */
  ghost predicate FreeFrom(L: seq<Block>, p: nat, id: Word)
    requires forall i :: 0 <= i < |L| ==> |L[i]| >= HEADER_WORDS
  {
    forall q :: p <= q < |L| ==> !IsControl(L[q], id) && !IsControl(L[q], NextId(id))
  }

  /** Without its control block a chunk hides itself and all that follows. */
  lemma HalfChunk(cfg: Config, L: seq<Block>, p: nat, id: Word, chunks: seq<Chunk>, i: nat)
    requires BlocksOk(cfg, L) && chunks != [] && p < |L| && !IsControl(L[p], id) && i < chunks[0].Size()
    requires forall k :: 0 <= k < i ==> |chunks[0].data[k]| == cfg.blockWords
    ensures var L' := Apply(L, Writes(chunks, p)[..i]);
            BlocksOk(cfg, L') && Parse(cfg, L', p, id) == Some([]) && forall q :: 0 <= q < p ==> L'[q] == L[q]
  {
    var w := Writes(chunks, p)[..i];
    assert w == ChunkWrites(chunks[0], p)[..i] == DataWrites(chunks[0].data, p + 1)[..i];
    BlocksStayOk(cfg, L, w);
    forall q | 0 <= q <= p ensures Apply(L, w)[q] == L[q] {
      ApplyOutside(L, w, q);
    }
  }

  lemma WritesSplit(cfg: Config, chunks: seq<Chunk>, recs: seq<Record>, id: Word, p: nat, i: nat)
    requires ChunksAre(cfg, chunks, recs, id) && chunks != [] && chunks[0].Size() <= i <= SizeOf(chunks)
    ensures var s := chunks[0].Size();
            var w1, w2 := ChunkWrites(chunks[0], p), Writes(chunks[1..], p + s)[..i - s];
            && Writes(chunks, p)[..i] == w1 + w2
            && (forall k :: 0 <= k < |w1| ==> |w1[k].1| == cfg.blockWords)
            && (forall k :: 0 <= k < |w2| ==> |w2[k].1| == cfg.blockWords && w2[k].0 >= p + s)
  {
    hide ChunkIs, ChunkWrites, Writes, SizeOf;
    WritesHead(chunks, p);
    WritesInside(cfg, chunks[..1], recs[..1], id, p);
    WritesInside(cfg, chunks[1..], recs[1..], id, p + chunks[0].Size());
    WritesOne(chunks[0], p);
    assert chunks[..1] == [chunks[0]];
  }

  lemma WritesHead(chunks: seq<Chunk>, p: nat)
    requires chunks != []
    ensures Writes(chunks, p) == ChunkWrites(chunks[0], p) + Writes(chunks[1..], p + chunks[0].Size())
    ensures SizeOf(chunks) == chunks[0].Size() + SizeOf(chunks[1..])
  {
  }

  lemma WritesOne(c: Chunk, p: nat)
    ensures Writes([c], p) == ChunkWrites(c, p)
  {
    assert [c][1..] == [];
  }

  lemma ChunkStays(L: seq<Block>, w: seq<Write>, c: Chunk, p: nat)
    requires ChunkAt(L, c, p) && forall k :: 0 <= k < |w| ==> w[k].0 >= p + c.Size()
    ensures ChunkAt(Apply(L, w), c, p)
  {
    forall q | p <= q < p + c.Size() ensures Apply(L, w)[q] == L[q] {
      ApplyOutside(L, w, q);
    }
  }

  /** With its control block a chunk is in the log (L1), and the rest of the run is written behind it (L2). */
  lemma WholeChunk(cfg: Config, L: seq<Block>, L1: seq<Block>, L2: seq<Block>, p: nat, id: Word,
                   chunks: seq<Chunk>, recs: seq<Record>, i: nat)
    requires BlocksOk(cfg, L) && ChunksAre(cfg, chunks, recs, id) && chunks != [] && p + SizeOf(chunks) < |L|
    requires chunks[0].Size() <= i <= SizeOf(chunks) && L1 == Apply(L, ChunkWrites(chunks[0], p))
    requires L2 == Apply(L1, Writes(chunks[1..], p + chunks[0].Size())[..i - chunks[0].Size()])
    ensures BlocksOk(cfg, L1) && BlocksOk(cfg, L2) && L2 == Apply(L, Writes(chunks, p)[..i])
    ensures Parse(cfg, L2, p, id) == Prefixed([recs[0]], Parse(cfg, L2, p + chunks[0].Size(), After(recs[0], id)))
    ensures forall q :: 0 <= q < |L| && !(p <= q < p + chunks[0].Size()) ==> L1[q] == L[q]
  {
    hide Parse, Apply, ChunkWrites, Writes, ChunkIs;
    var c, s := chunks[0], chunks[0].Size();
    var w1, w2 := ChunkWrites(c, p), Writes(chunks[1..], p + s)[..i - s];
    WritesSplit(cfg, chunks, recs, id, p, i);
    RunConcat(L, w1, w2);
    ChunkApplied(L, c, p);
    BlocksStayOk(cfg, L, w1);
    BlocksStayOk(cfg, L1, w2);
    ChunkStays(L1, w2, c, p);
    assert ChunkIs(cfg, chunks[0], recs[0], id);
    ReadOne(cfg, L2, p, id, c, recs[0]);
  }

  /** After any number i of the writes of a transaction, a scan finds its first c chunks: all of them only if i is all. */
  lemma {:induction false} CrashParse(cfg: Config, L: seq<Block>, p: nat, id: Word, chunks: seq<Chunk>, recs: seq<Record>, i: nat)
    returns (c: nat)
    requires BlocksOk(cfg, L) && IsTransaction(cfg, chunks, recs, id)
    requires p + SizeOf(chunks) < |L| && FreeFrom(L, p, id) && i <= SizeOf(chunks)
    ensures c <= |recs| && (c == |recs| <==> i == SizeOf(chunks))
    ensures var L' := Apply(L, Writes(chunks, p)[..i]);
            BlocksOk(cfg, L') && Parse(cfg, L', p, id) == Some(recs[..c]) && forall q :: 0 <= q < p ==> L'[q] == L[q]
    decreases |chunks|
  {
    if i < chunks[0].Size() {
      assert ChunkIs(cfg, chunks[0], recs[0], id);
      HalfChunk(cfg, L, p, id, chunks, i);
      c := 0;
    } else {
      c := CrashParseOn(cfg, L, p, id, chunks, recs, i);
    }
  }

  lemma {:induction false} CrashParseOn(cfg: Config, L: seq<Block>, p: nat, id: Word, chunks: seq<Chunk>, recs: seq<Record>, i: nat)
    returns (c: nat)
    requires BlocksOk(cfg, L) && IsTransaction(cfg, chunks, recs, id)
    requires p + SizeOf(chunks) < |L| && FreeFrom(L, p, id) && chunks[0].Size() <= i <= SizeOf(chunks)
    ensures c <= |recs| && (c == |recs| <==> i == SizeOf(chunks))
    ensures var L' := Apply(L, Writes(chunks, p)[..i]);
            BlocksOk(cfg, L') && Parse(cfg, L', p, id) == Some(recs[..c]) && forall q :: 0 <= q < p ==> L'[q] == L[q]
    decreases |chunks|, 0
  {
    hide Apply, Writes, ChunkWrites, ChunkIs, Parse;
    var s := chunks[0].Size();
    var L1 := Apply(L, ChunkWrites(chunks[0], p));
    var L' := Apply(L1, Writes(chunks[1..], p + s)[..i - s]);
    WholeChunk(cfg, L, L1, L', p, id, chunks, recs, i);
    if |chunks| == 1 {
      assert chunks[1..] == [] && Writes([], p + s)[..0] == [];
      LastChunk(L1, p + s, i - s, chunks[1..]);
      ParseFree(cfg, L', p + s, NextId(id));
      assert recs[..1] == [recs[0]] + [];
      c := 1;
    } else {
      assert recs[1..][..|recs| - 2] == recs[..|recs| - 1][1..];
      assert !recs[..|recs| - 1][0].Commit?;
      var c' := CrashParse(cfg, L1, p + s, id, chunks[1..], recs[1..], i - s);
      assert [recs[0]] + recs[1..][..c'] == recs[..c' + 1];
      c := c' + 1;
    }
  }

  lemma ParseFree(cfg: Config, L: seq<Block>, p: nat, id: Word)
    requires BlocksOk(cfg, L) && p < |L| && !IsControl(L[p], id)
    ensures Parse(cfg, L, p, id) == Some([])
  {
  }

  lemma LastChunk(L: seq<Block>, p: nat, i: nat, chunks: seq<Chunk>)
    requires chunks == [] && i == 0
    ensures Apply(L, Writes(chunks, p)[..i]) == L
  {
  }

  /**
   Crash atomicity of a commit.  The log L holds the records recs of whole transactions; a new
   transaction is written behind them, one block after the other.  After any number i of these
   writes, a scan finds the old transactions and, only when every block is on disk, the new one.
   */
  lemma CrashAtomicity(cfg: Config, L: seq<Block>, start: Word, recs: seq<Record>, chunks: seq<Chunk>, newRecs: seq<Record>, i: nat)
    requires BlocksOk(cfg, L) && Parse(cfg, L, 0, start) == Some(recs) && (recs != [] ==> recs[|recs| - 1].Commit?)
    requires FreeFrom(L, SizeOfRecords(recs), IdAfter(recs, start))
    requires IsTransaction(cfg, chunks, newRecs, IdAfter(recs, start))
    requires SizeOfRecords(recs) + SizeOf(chunks) < |L| && i <= SizeOf(chunks)
    ensures AllValid(newRecs)
    ensures var L' := Apply(L, Writes(chunks, SizeOfRecords(recs))[..i]);
            && BlocksOk(cfg, L') && Parse(cfg, L', 0, start).Some?
            && Transactions(Parse(cfg, L', 0, start).value)
            == Transactions(recs) + if i == SizeOf(chunks) then [TxnOf(newRecs)] else []
  {
    hide Parse, Apply, Writes, Group, Accumulate, FreeFrom, BlocksOk, SizeOf, SizeOfRecords, IdAfter, Transactions, TxnOf, ChunksAre;
    var n, id := SizeOfRecords(recs), IdAfter(recs, start);
    var L' := Apply(L, Writes(chunks, n)[..i]);
    ChunkRecordsValid(cfg, chunks, newRecs, id);
    var c := CrashParse(cfg, L, n, id, chunks, newRecs, i);
    ParseSplice(cfg, L, L', 0, start, recs);
    assert Parse(cfg, L', 0, start) == Some(recs + newRecs[..c]);
    FoundTransactions(recs, newRecs, c);
  }

  /** Behind whole transactions the first c records of another one add nothing, unless they are all of it. */
  lemma FoundTransactions(recs: seq<Record>, newRecs: seq<Record>, c: nat)
    requires AllValid(recs) && AllValid(newRecs) && (recs != [] ==> recs[|recs| - 1].Commit?)
    requires c <= |newRecs| && newRecs != [] && newRecs[|newRecs| - 1].Commit? && NoCommit(newRecs[..|newRecs| - 1])
    ensures AllValid(recs + newRecs[..c])
    ensures Transactions(recs + newRecs[..c]) == Transactions(recs) + if c == |newRecs| then [TxnOf(newRecs)] else []
  {
    hide Group, Accumulate, TxnOf;
    GroupConcat(recs, newRecs[..c], NoWork);
    AfterWhole(recs);
    if c < |newRecs| {
      assert newRecs[..c] == newRecs[..|newRecs| - 1][..c];
      GroupOfBody(newRecs[..c], NoWork);
    } else {
      assert newRecs[..c] == newRecs;
      GroupOfTransaction(newRecs);
    }
  }

  lemma AfterWhole(recs: seq<Record>)
    requires AllValid(recs) && (recs != [] ==> recs[|recs| - 1].Commit?)
    ensures Accumulate(recs, NoWork) == NoWork
  {
    if recs != [] { CleanEnd(recs, NoWork); }
  }

  lemma GroupOfTransaction(recs: seq<Record>)
    requires AllValid(recs) && recs != [] && recs[|recs| - 1].Commit? && NoCommit(recs[..|recs| - 1])
    ensures Transactions(recs) == [TxnOf(recs)]
  {
    var k := |recs| - 1;
    assert recs == recs[..k] + [Commit];
    GroupConcat(recs[..k], [Commit], NoWork);
    GroupOfBody(recs[..k], NoWork);
    assert [Commit][1..] == [];
  }

  /** A crash anywhere in a commit, then a recovery: each home block has its last committed, unrevoked data. */
  lemma CrashThenRecover(cfg: Config, L: seq<Block>, start: Word, recs: seq<Record>, chunks: seq<Chunk>, newRecs: seq<Record>,
                         i: nat, disk: map<nat, Block>, lba: nat)
    requires BlocksOk(cfg, L) && Parse(cfg, L, 0, start) == Some(recs) && (recs != [] ==> recs[|recs| - 1].Commit?)
    requires FreeFrom(L, SizeOfRecords(recs), IdAfter(recs, start))
    requires IsTransaction(cfg, chunks, newRecs, IdAfter(recs, start))
    requires SizeOfRecords(recs) + SizeOf(chunks) < |L| < 0x8000_0000 && i <= SizeOf(chunks) && lba != 0
    ensures AllValid(newRecs)
    ensures var L' := Apply(L, Writes(chunks, SizeOfRecords(recs))[..i]);
            && BlocksOk(cfg, L') && Parse(cfg, L', 0, start).Some?
            && var committed := Transactions(recs) + if i == SizeOf(chunks) then [TxnOf(newRecs)] else [];
               Lookup(Recovered(Parse(cfg, L', 0, start).value, start, disk), lba)
               == OrElse(Survivor(committed, lba), Lookup(disk, lba))
  {
    hide Parse, Apply, Writes, Recovered, Survivor, Transactions;
    CrashAtomicity(cfg, L, start, recs, chunks, newRecs, i);
    var recs' := Parse(cfg, Apply(L, Writes(chunks, SizeOfRecords(recs))[..i]), 0, start).value;
    RecoveryOutcome(recs', start, disk, lba);
  }
}

/**
 The on-disk form of the journal's control blocks, seen as sequences of 32-bit
 big-endian words.  Journal checksums are off, so a descriptor's tag table and a
 revoke block's entry table reach to the end of their block.
 */
module JournalFormat {

  const TWO32 := 0x1_0000_0000

  type Word = w: int | 0 <= w < 0x1_0000_0000

  type Block = seq<Word>

  datatype Option<+T> = None | Some(value: T)

  const JBD_MAGIC_NUMBER: Word := 0xc03b3998
  const JBD_DESCRIPTOR_BLOCK: Word := 1
  const JBD_COMMIT_BLOCK: Word := 2
  const JBD_REVOKE_BLOCK: Word := 5

  const JBD_FLAG_ESCAPE := 1
  const JBD_FLAG_SAME_UUID := 2
  const JBD_FLAG_LAST_TAG := 8

  // Sizes in words.
  const HEADER_WORDS := 3
  const REVOKE_HEADER_WORDS := 4
  const UUID_WORDS := 4

  /** The journal superblock's static part: block size in words, 64-bit feature, volume id. */
  datatype Config = Config(blockWords: nat, is64: bool, uuid: seq<Word>) {
    ghost predicate Valid() {
      blockWords >= 256 && blockWords % 256 == 0 && blockWords < 0x1000_0000 && |uuid| == UUID_WORDS
    }

    function TagWords(): nat { if is64 then 3 else 2 }

    function RecordWords(): nat { if is64 then 2 else 1 }

    /** Block numbers that a tag or a revoke entry can hold. */
    ghost predicate Fits(lba: nat) { lba < if is64 then TWO32 * TWO32 else TWO32 }
  }

  function Magic(b: Block): Word requires |b| >= HEADER_WORDS { b[0] }
  function BlockType(b: Block): Word requires |b| >= HEADER_WORDS { b[1] }
  function Sequence(b: Block): Word requires |b| >= HEADER_WORDS { b[2] }

  // ----- flags of a tag -----

  predicate HasFlag(flags: int, bit: int)
    requires bit > 0
  {
    (flags / bit) % 2 == 1
  }

  function SetFlag(flags: int, bit: int): int
    requires bit > 0
  {
    if HasFlag(flags, bit) then flags else flags + bit
  }

  // ----- block tags -----

  datatype TagInfo = TagInfo(block: nat, isEscape: bool, uuidExist: bool, lastTag: bool) {
    function Words(cfg: Config): nat { cfg.TagWords() + if uuidExist then UUID_WORDS else 0 }
  }

  /** Reads the tag at word ptr, or None when the table is too short to hold one. */
  function ExtractBlockTag(cfg: Config, b: Block, ptr: nat): (tag: Option<TagInfo>)
    requires ptr <= |b|
    ensures tag.Some? ==> ptr + tag.value.Words(cfg) <= |b| && tag.value.Words(cfg) > 0
  {
    var remain := |b| - ptr;
    if remain < cfg.TagWords() then None
    else
      var flags := b[ptr + 1] % 0x1_0000;
      var block := b[ptr] + if cfg.is64 then b[ptr + 2] * TWO32 else 0;
      var uuid := !HasFlag(flags, JBD_FLAG_SAME_UUID);
      if uuid && remain - cfg.TagWords() < UUID_WORDS then None
      else Some(TagInfo(block, HasFlag(flags, JBD_FLAG_ESCAPE), uuid, HasFlag(flags, JBD_FLAG_LAST_TAG)))
  }

  /** Bit 0 for an escaped block, bit 1 for a tag without a volume id, bit 3 for the last tag. */
  function TagFlags(info: TagInfo): int {
    (if info.isEscape then 1 else 0) + (if info.uuidExist then 0 else 2) + if info.lastTag then 8 else 0
  }

  /** The words that make up a tag read back as that tag. */
  lemma TagReads(cfg: Config, b: Block, ptr: nat, info: TagInfo)
    requires cfg.Fits(info.block) && ptr + info.Words(cfg) <= |b|
    requires b[ptr] == info.block % TWO32 && (cfg.is64 ==> b[ptr + 2] == info.block / TWO32)
    requires b[ptr + 1] == TagFlags(info)
    ensures ExtractBlockTag(cfg, b, ptr) == Some(info)
  {
  }

  /** Writes a tag at word ptr of a descriptor buffer; false when the table has no room for it. */
  method WriteBlockTag(cfg: Config, buf: array<Word>, ptr: nat, info: TagInfo) returns (ok: bool)
    requires cfg.Valid() && ptr <= buf.Length && cfg.Fits(info.block)
    requires !cfg.is64 ==> (buf.Length - ptr) % 2 == 1
    modifies buf
    ensures ok <==> ptr + info.Words(cfg) <= buf.Length
    ensures ok ==> ExtractBlockTag(cfg, buf[..], ptr) == Some(info)
    ensures ok ==> buf[ptr] == info.block % TWO32 && (cfg.is64 ==> buf[ptr + 2] == info.block / TWO32)
    ensures ok ==> buf[ptr + 1] == TagFlags(info)
    ensures ok && info.uuidExist ==> forall k :: 0 <= k < UUID_WORDS ==> buf[ptr + cfg.TagWords() + k] == cfg.uuid[k]
    ensures forall k :: ptr + info.Words(cfg) <= k < buf.Length ==> buf[k] == old(buf[k]) || (k == ptr + 2 && buf[k] == 0)
    ensures buf[..ptr] == old(buf[..ptr])
    ensures ptr + cfg.TagWords() > buf.Length ==> buf[..] == old(buf[..])
  {
    hide ExtractBlockTag;
    if buf.Length - ptr < cfg.TagWords() {
      return false;
    }
    // The source clears the 64-bit form of the tag, which is one word longer than the 32-bit form.
    buf[ptr], buf[ptr + 1], buf[ptr + 2] := 0, 0, 0;
    buf[ptr] := info.block % TWO32;
    if cfg.is64 {
      buf[ptr + 2] := info.block / TWO32;
    }
    var flags := 0;
    if info.uuidExist {
      if buf.Length - ptr - cfg.TagWords() < UUID_WORDS {
        return false;
      }
      var start := ptr + cfg.TagWords();
      for i := 0 to UUID_WORDS
        invariant forall k :: 0 <= k < buf.Length && (k < ptr || k >= start + UUID_WORDS) ==> buf[k] == old(buf[k])
        invariant forall k :: 0 <= k < i ==> buf[start + k] == cfg.uuid[k]
        invariant buf[..ptr] == old(buf[..ptr])
        invariant buf[ptr] == info.block % TWO32
        invariant cfg.is64 ==> buf[ptr + 2] == info.block / TWO32
      {
        buf[start + i] := cfg.uuid[i];
      }
    } else {
      flags := SetFlag(flags, JBD_FLAG_SAME_UUID);
    }
    if info.lastTag {
      flags := SetFlag(flags, JBD_FLAG_LAST_TAG);
    }
    if info.isEscape {
      flags := SetFlag(flags, JBD_FLAG_ESCAPE);
    }
    buf[ptr + 1] := flags;
    ok := true;
    TagReads(cfg, buf[..], ptr, info);
  }

  /** The tags a reader finds from word ptr on: up to the last tag, or up to where no tag fits. */
  function Tags(cfg: Config, b: Block, ptr: nat): (tags: seq<TagInfo>)
    requires ptr <= |b|
    ensures |tags| <= |b| - ptr
    decreases |b| - ptr
  {
    match ExtractBlockTag(cfg, b, ptr)
    case None => []
    case Some(t) => if t.lastTag then [t] else [t] + Tags(cfg, b, ptr + t.Words(cfg))
  }

  /** One step of a walk over the tag table. */
  lemma TagsStep(cfg: Config, b: Block, ptr: nat, tags: seq<TagInfo>, i: nat)
    requires ptr <= |b| && i <= |tags| && Tags(cfg, b, ptr) == tags[i..]
    ensures match ExtractBlockTag(cfg, b, ptr)
            case None => i == |tags|
            case Some(t) =>
              && i < |tags| && tags[i] == t
              && if t.lastTag then i + 1 == |tags| else Tags(cfg, b, ptr + t.Words(cfg)) == tags[i + 1..]
  {
    assert i < |tags| ==> tags[i..][0] == tags[i] && tags[i..][1..] == tags[i + 1..];
  }

  /** Where the writer puts tag i: only the first tag of a descriptor carries the volume id. */
  function TagPtr(cfg: Config, i: nat): nat {
    HEADER_WORDS + (if cfg.is64 then 3 * i else 2 * i) + if i > 0 then UUID_WORDS else 0
  }

  /** A table of short tags always has an odd number of words left, so clearing the long form stays inside. */
  lemma TagsParity(cfg: Config, tags: seq<TagInfo>)
    requires cfg.Valid()
    ensures !cfg.is64 ==> (cfg.blockWords - TagPtr(cfg, |tags|)) % 2 == 1
  {
  }

  /** The descriptor b holds exactly these tags, laid out as the writer lays them out. */
  ghost predicate HoldsTags(cfg: Config, b: Block, tags: seq<TagInfo>) {
    && TagPtr(cfg, |tags|) <= |b|
    && forall i :: 0 <= i < |tags| ==>
        TagPtr(cfg, i) <= |b| && ExtractBlockTag(cfg, b, TagPtr(cfg, i)) == Some(tags[i]) && tags[i].uuidExist == (i == 0)
  }

  /** A table ends with its last tag, or is full. */
  ghost predicate TableEnds(cfg: Config, b: Block, tags: seq<TagInfo>) {
    && |tags| > 0
    && (tags[|tags| - 1].lastTag || TagPtr(cfg, |tags|) + cfg.TagWords() > |b|)
    && forall i :: 0 <= i < |tags| - 1 ==> !tags[i].lastTag
  }

  lemma {:induction false} TagsFrom(cfg: Config, b: Block, tags: seq<TagInfo>, i: nat)
    requires HoldsTags(cfg, b, tags) && TableEnds(cfg, b, tags) && i <= |tags|
    requires i == |tags| ==> !tags[i - 1].lastTag
    ensures TagPtr(cfg, i) <= |b| && Tags(cfg, b, TagPtr(cfg, i)) == tags[i..]
    decreases |tags| - i
  {
    hide ExtractBlockTag;
    if i < |tags| {
      assert ExtractBlockTag(cfg, b, TagPtr(cfg, i)) == Some(tags[i]);
      assert TagPtr(cfg, i) + tags[i].Words(cfg) == TagPtr(cfg, i + 1);
      if !tags[i].lastTag {
        TagsFrom(cfg, b, tags, i + 1);
      }
    }
  }

  /** Round trip of a descriptor: the reader finds the written tags, all of them and in order. */
  lemma DescriptorRoundTrip(cfg: Config, b: Block, tags: seq<TagInfo>)
    requires HoldsTags(cfg, b, tags) && TableEnds(cfg, b, tags) && HEADER_WORDS <= |b|
    ensures Tags(cfg, b, HEADER_WORDS) == tags
  {
    TagsFrom(cfg, b, tags, 0);
  }

  lemma ExtractFrame(cfg: Config, b: Block, b': Block, q: nat, ptr: nat)
    requires |b| == |b'| && q <= ptr <= |b| && b[..ptr] == b'[..ptr]
    requires ExtractBlockTag(cfg, b, q).Some? && q + ExtractBlockTag(cfg, b, q).value.Words(cfg) <= ptr
    ensures ExtractBlockTag(cfg, b', q) == ExtractBlockTag(cfg, b, q)
  {
    assert forall k :: 0 <= k < ptr ==> b[k] == b[..ptr][k] == b'[..ptr][k] == b'[k];
  }

  /** A further tag behind those that a descriptor already holds. */
  lemma HoldsOneMore(cfg: Config, b: Block, b': Block, tags: seq<TagInfo>, tag: TagInfo)
    requires |b| == |b'| && HoldsTags(cfg, b, tags) && tag.uuidExist == (tags == [])
    requires b[..TagPtr(cfg, |tags|)] == b'[..TagPtr(cfg, |tags|)]
    requires ExtractBlockTag(cfg, b', TagPtr(cfg, |tags|)) == Some(tag)
    ensures HoldsTags(cfg, b', tags + [tag])
  {
    forall i | 0 <= i < |tags|
      ensures ExtractBlockTag(cfg, b', TagPtr(cfg, i)) == Some(tags[i])
    {
      assert ExtractBlockTag(cfg, b, TagPtr(cfg, i)) == Some(tags[i]);
      assert TagPtr(cfg, i) + tags[i].Words(cfg) == TagPtr(cfg, i + 1) <= TagPtr(cfg, |tags|);
      ExtractFrame(cfg, b, b', TagPtr(cfg, i), TagPtr(cfg, |tags|));
    }
  }

  // ----- revoke blocks -----

  function RevokeCount(b: Block): int requires |b| >= REVOKE_HEADER_WORDS { b[3] }

  /** The entry table that the count of a revoke block announces lies inside the block. */
  predicate RevokeTableFits(b: Block) {
    |b| >= REVOKE_HEADER_WORDS && 4 * REVOKE_HEADER_WORDS <= RevokeCount(b) <= 4 * |b|
  }

  function RevokeEntryCount(cfg: Config, b: Block): (n: nat)
    requires RevokeTableFits(b)
    ensures REVOKE_HEADER_WORDS + n * cfg.RecordWords() <= |b|
  {
    (RevokeCount(b) - 4 * REVOKE_HEADER_WORDS) / (4 * cfg.RecordWords())
  }

  lemma RevokeEntryInside(cfg: Config, b: Block, i: nat)
    requires RevokeTableFits(b) && i < RevokeEntryCount(cfg, b)
    ensures REVOKE_HEADER_WORDS + (i + 1) * cfg.RecordWords() <= |b|
  {
  }

  function RevokeEntry(cfg: Config, b: Block, i: nat): nat
    requires REVOKE_HEADER_WORDS + (i + 1) * cfg.RecordWords() <= |b|
  {
    if cfg.is64 then b[REVOKE_HEADER_WORDS + 2 * i] * TWO32 + b[REVOKE_HEADER_WORDS + 2 * i + 1]
    else b[REVOKE_HEADER_WORDS + i]
  }

  function RevokeEntries(cfg: Config, b: Block): (lbas: seq<nat>)
    requires RevokeTableFits(b)
    ensures |lbas| == RevokeEntryCount(cfg, b)
    ensures forall i :: 0 <= i < |lbas| ==> lbas[i] == RevokeEntry(cfg, b, i)
  {
    seq(RevokeEntryCount(cfg, b), i requires 0 <= i < RevokeEntryCount(cfg, b) => RevokeEntry(cfg, b, i))
  }

  /** The block has these entries in front of its table, whatever its count says. */
  ghost predicate HoldsEntries(cfg: Config, b: Block, lbas: seq<nat>) {
    && REVOKE_HEADER_WORDS + |lbas| * cfg.RecordWords() <= |b|
    && forall i :: 0 <= i < |lbas| ==>
        REVOKE_HEADER_WORDS + (i + 1) * cfg.RecordWords() <= |b| && RevokeEntry(cfg, b, i) == lbas[i]
  }

  /** One more entry behind those in the table. */
  lemma EntryMore(cfg: Config, b: Block, b': Block, lbas: seq<nat>, lba: nat)
    requires HoldsEntries(cfg, b, lbas) && |b'| == |b| && REVOKE_HEADER_WORDS + (|lbas| + 1) * cfg.RecordWords() <= |b|
    requires var p := REVOKE_HEADER_WORDS + |lbas| * cfg.RecordWords();
             && (forall k :: REVOKE_HEADER_WORDS <= k < p ==> b'[k] == b[k])
             && if cfg.is64 then b'[p] == lba / TWO32 && b'[p + 1] == lba % TWO32 else b'[p] == lba
    ensures HoldsEntries(cfg, b', lbas + [lba])
  {
    var words := cfg.RecordWords();
    assert words == if cfg.is64 then 2 else 1;
    forall i | 0 <= i < |lbas| ensures REVOKE_HEADER_WORDS + (i + 1) * words <= |b| && RevokeEntry(cfg, b', i) == lbas[i] {
      assert RevokeEntry(cfg, b, i) == lbas[i];
    }
  }

  /** Round trip of a revoke block: with the count set, the reader finds the entries, all of them and in order. */
  lemma RevokeRoundTrip(cfg: Config, b: Block, lbas: seq<nat>)
    requires |b| >= REVOKE_HEADER_WORDS && HoldsEntries(cfg, b, lbas)
    requires RevokeCount(b) == 4 * (REVOKE_HEADER_WORDS + |lbas| * cfg.RecordWords())
    ensures RevokeTableFits(b) && RevokeEntries(cfg, b) == lbas
  {
    forall i | 0 <= i < |lbas| ensures RevokeEntries(cfg, b)[i] == lbas[i] {
      assert RevokeEntry(cfg, b, i) == lbas[i];
    }
  }

  // ----- escaping -----

  predicate NeedsEscape(data: Block) { |data| > 0 && data[0] == JBD_MAGIC_NUMBER }

  function Escape(data: Block): Block { if NeedsEscape(data) then data[0 := 0] else data }

  function Unescape(data: Block, isEscape: bool): Block
    requires |data| > 0
  {
    if isEscape then data[0 := JBD_MAGIC_NUMBER] else data
  }

  /** Escaping hides the magic number from a scan, and unescaping restores the data. */
  lemma EscapeRoundTrip(data: Block)
    requires |data| > 0
    ensures |Escape(data)| == |data| && Escape(data)[0] != JBD_MAGIC_NUMBER
    ensures Unescape(Escape(data), NeedsEscape(data)) == data
  {
  }

  /** A block's copy in the log, taken as it lies there, is the block's data just when it needed no escaping. */
  lemma LogCopyIsData(data: Block)
    ensures Escape(data) == data <==> !NeedsEscape(data)
  {
    assert NeedsEscape(data) ==> Escape(data)[0] != data[0];
  }

  // ----- transaction ids, which live modulo 2^32 -----

  function NextId(id: Word): Word { (id + 1) % TWO32 }

  function IdAt(start: Word, k: nat): Word { (start + k) % TWO32 }

  /** The signed 32-bit difference. */
  function TransIdDiff(x: Word, y: Word): int {
    var d := (x - y) % TWO32;
    if d >= 0x8000_0000 then d - TWO32 else d
  }

  /** Inside a window of 2^31 ids the signed difference orders ids as their transactions, wrapped or not. */
  lemma DiffOrders(start: Word, i: nat, j: nat)
    requires -0x8000_0000 <= i - j < 0x8000_0000
    ensures TransIdDiff(IdAt(start, i), IdAt(start, j)) == i - j
  {
    assert IdAt(start, i) == (start + i) - TWO32 * ((start + i) / TWO32);
    assert IdAt(start, j) == (start + j) - TWO32 * ((start + j) / TWO32);
    var q := (start + i) / TWO32 - (start + j) / TWO32;
    assert IdAt(start, i) - IdAt(start, j) == (i - j) - TWO32 * q;
    ModShift(i - j, -q);
  }

  lemma ModShift(d: int, q: int)
    ensures (d + TWO32 * q) % TWO32 == d % TWO32
  {
    var r, k := d % TWO32, d / TWO32;
    assert d + TWO32 * q == TWO32 * (k + q) + r;
  }

  /** Inside that window ids differ as their transactions do. */
  lemma IdsDiffer(start: Word, i: nat, j: nat)
    requires -0x8000_0000 <= i - j < 0x8000_0000
    ensures IdAt(start, i) == IdAt(start, j) <==> i == j
  {
    DiffOrders(start, i, j);
    DiffOrders(start, j, j);
  }

  lemma IdSucc(start: Word, k: nat)
    ensures NextId(IdAt(start, k)) == IdAt(start, k + 1)
    ensures IdAt(start, 0) == start
  {
  }

  lemma IdBefore(id: Word)
    ensures (NextId(id) - 1) % TWO32 == id
  {
  }
}

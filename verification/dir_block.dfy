/** A directory block as bytes: records that tile it, searched and changed in place. */
module DirBlock {
  import opened DirRecords

  // ----- reading -----

  function Word16(d: seq<Byte>, off: nat): nat
    requires off + 2 <= |d|
  {
    d[off] as int + 256 * (d[off + 1] as int)
  }

  function Word32(d: seq<Byte>, off: nat): nat
    requires off + 4 <= |d|
  {
    Word16(d, off) + 0x1_0000 * Word16(d, off + 2)
  }

  function RecLen(d: seq<Byte>, off: nat): nat
    requires off + HEADER <= |d|
  {
    Word16(d, off + 4)
  }

  /** The record at an offset, if its name ends within the block. */
  function RecAt(d: seq<Byte>, off: nat): Rec
    requires off + HEADER <= |d| && off + HEADER + d[off + 6] as int <= |d|
  {
    Rec(Word32(d, off), RecLen(d, off), d[off + 7], d[off + HEADER..off + HEADER + d[off + 6] as int])
  }

  /** A record holds its name, has a length in steps of four, and ends by q. */
  ghost predicate RecOk(d: seq<Byte>, off: nat, q: nat) {
    off + HEADER <= q <= |d| && RecLen(d, off) % 4 == 0 && Room(d[off + 6] as int) <= RecLen(d, off) && off + RecLen(d, off) <= q
  }

  /** Records tile the bytes from off to q. */
  ghost predicate Tiled(d: seq<Byte>, off: nat, q: nat)
    decreases q - off
  {
    off == q <= |d| || (off < q && RecOk(d, off, q) && Tiled(d, off + RecLen(d, off), q))
  }

  ghost function Recs(d: seq<Byte>, off: nat, q: nat): seq<Rec>
    requires Tiled(d, off, q)
    decreases q - off
  {
    if off == q then [] else [RecAt(d, off)] + Recs(d, off + RecLen(d, off), q)
  }

  // ----- records depend on their own bytes only -----

  lemma RecSame(d: seq<Byte>, d': seq<Byte>, off: nat, q: nat)
    requires RecOk(d, off, q) && |d'| == |d| && d'[off..off + RecLen(d, off)] == d[off..off + RecLen(d, off)]
    ensures RecOk(d', off, q) && RecLen(d', off) == RecLen(d, off) && RecAt(d', off) == RecAt(d, off)
  {
    hide Room;
    var n := RecLen(d, off);
    RoomAtLeast(d[off + 6] as int);
    forall i | off <= i < off + n ensures d'[i] == d[i] {
      assert d'[off..off + n][i - off] == d[off..off + n][i - off];
    }
  }

  lemma RoomAtLeast(n: nat)
    ensures Room(n) >= HEADER + n
  {
  }

  lemma {:induction false} RecsSame(d: seq<Byte>, d': seq<Byte>, off: nat, q: nat)
    requires Tiled(d, off, q) && |d'| == |d| && d'[off..q] == d[off..q]
    ensures Tiled(d', off, q) && Recs(d', off, q) == Recs(d, off, q)
    decreases q - off
  {
    hide RecOk, RecLen, RecAt;
    if off < q {
      OkBounds(d, off, q);
      var n := RecLen(d, off);
      var mid := d[off..q];
      assert d'[off..off + n] == mid[..n] == d[off..off + n];
      assert d'[off + n..q] == mid[n..] == d[off + n..q];
      RecSame(d, d', off, q);
      RecsSame(d, d', off + n, q);
    }
  }

  lemma OkBounds(d: seq<Byte>, off: nat, q: nat)
    requires RecOk(d, off, q)
    ensures off + HEADER <= |d| && HEADER <= RecLen(d, off) && off + RecLen(d, off) <= q <= |d|
  {
  }

  lemma {:induction false} TiledConcat(d: seq<Byte>, off: nat, p: nat, q: nat)
    requires Tiled(d, off, p) && Tiled(d, p, q) && off <= p <= q
    ensures Tiled(d, off, q) && Recs(d, off, q) == Recs(d, off, p) + Recs(d, p, q)
    decreases p - off
  {
    hide RecAt, Room;
    if off < p {
      TiledConcat(d, off + RecLen(d, off), p, q);
    }
  }

  lemma {:induction false} Bounded(d: seq<Byte>, off: nat, q: nat)
    requires Tiled(d, off, q)
    ensures off <= q <= |d|
  {
  }

  /** What is written between two record boundaries leaves the records on either side as they are. */
  lemma Spliced(d: seq<Byte>, d': seq<Byte>, p: nat, q: nat)
    requires Tiled(d, 0, p) && Tiled(d, q, |d|) && p <= q && |d'| == |d| && d'[..p] == d[..p] && d'[q..] == d[q..] && Tiled(d', p, q)
    ensures Tiled(d', 0, |d|) && Recs(d', 0, |d|) == Recs(d, 0, p) + Recs(d', p, q) + Recs(d, q, |d|)
  {
    hide Tiled, Recs;
    Bounded(d, q, |d|);
    assert d'[0..p] == d[0..p] && d'[q..|d|] == d[q..|d|];
    RecsSame(d, d', 0, p);
    RecsSame(d, d', q, |d|);
    TiledConcat(d', 0, p, q);
    TiledConcat(d', 0, q, |d|);
  }

  lemma TiledOne(d: seq<Byte>, p: nat, q: nat)
    requires RecOk(d, p, q) && q == p + RecLen(d, p)
    ensures Tiled(d, p, q) && Recs(d, p, q) == [RecAt(d, p)]
  {
  }

  /** A block around one of its records. */
  lemma Around(d: seq<Byte>, p: nat)
    requires Tiled(d, 0, p) && Tiled(d, p, |d|) && p < |d|
    ensures RecOk(d, p, |d|) && Tiled(d, p + RecLen(d, p), |d|) && Tiled(d, 0, p + RecLen(d, p)) && Tiled(d, 0, |d|)
    ensures Recs(d, 0, |d|) == Recs(d, 0, p) + [RecAt(d, p)] + Recs(d, p + RecLen(d, p), |d|)
    ensures Recs(d, 0, p + RecLen(d, p)) == Recs(d, 0, p) + [RecAt(d, p)]
    ensures Recs(d, p, |d|) == [RecAt(d, p)] + Recs(d, p + RecLen(d, p), |d|)
  {
    hide RecAt, Room;
    var q := p + RecLen(d, p);
    assert RecOk(d, p, q);
    TiledOne(d, p, q);
    TiledConcat(d, 0, p, q);
    TiledConcat(d, 0, p, |d|);
  }

  // ----- writing -----

  datatype Error = EOK | ENOENT | ENOSPC

  method PutWord16(data: array<Byte>, off: nat, v: nat)
    requires off + 2 <= data.Length && v < 0x1_0000
    modifies data
    ensures Word16(data[..], off) == v
    ensures forall i :: 0 <= i < data.Length && !(off <= i < off + 2) ==> data[i] == old(data[i])
  {
    data[off], data[off + 1] := v % 256, v / 256;
  }

  method PutWord32(data: array<Byte>, off: nat, v: nat)
    requires off + 4 <= data.Length && v < 0x1_0000_0000
    modifies data
    ensures Word32(data[..], off) == v
    ensures forall i :: 0 <= i < data.Length && !(off <= i < off + 4) ==> data[i] == old(data[i])
  {
    PutWord16(data, off, v % 0x1_0000);
    PutWord16(data, off + 2, v / 0x1_0000);
  }

  /** The number that bytes stand for, the least significant one first. */
  ghost function LittleEndian(b: seq<Byte>): nat { if b == [] then 0 else b[0] as nat + 256 * LittleEndian(b[1..]) }

  lemma Bytes(d: seq<Byte>, off: nat)
    requires off + HEADER <= |d|
    ensures LittleEndian(d[off..off + 4]) == Word32(d, off) && LittleEndian(d[off + 4..off + 6]) == Word16(d, off + 4)
  {
    TwoBytes(d, off + 4);
    TwoBytes(d, off + 2);
    var b := d[off..off + 4];
    assert b[1..][1..] == d[off + 2..off + 4];
    assert LittleEndian(b) == b[0] as nat + 256 * LittleEndian(b[1..]);
    assert LittleEndian(b[1..]) == b[1] as nat + 256 * LittleEndian(b[1..][1..]);
  }

  lemma TwoBytes(d: seq<Byte>, off: nat)
    requires off + 2 <= |d|
    ensures LittleEndian(d[off..off + 2]) == Word16(d, off)
  {
    var b := d[off..off + 2];
    assert b[1..][1..] == [];
    assert LittleEndian(b[1..]) == b[1] as nat + 256 * LittleEndian(b[1..][1..]);
  }

  /** ext4_dir_write_entry */
  method WriteEntry(data: array<Byte>, en: nat, entryLen: nat, child: nat, kind: Byte, name: seq<Byte>)
    requires en + HEADER + |name| <= data.Length && entryLen < 0x1_0000 && child < 0x1_0000_0000 && |name| < 256
    modifies data
    ensures data[en + 6] as int == |name| && RecAt(data[..], en) == Rec(child, entryLen, kind, name)
    ensures LittleEndian(data[en..en + 4]) == child && LittleEndian(data[en + 4..en + 6]) == entryLen
    ensures data[en + 7] == kind && data[en + 8..en + 8 + |name|] == name
    ensures forall i :: 0 <= i < data.Length && !(en <= i < en + HEADER + |name|) ==> data[i] == old(data[i])
  {
    hide Word32;
    data[en + 7] := kind;
    PutWord32(data, en, child);
    ghost var first := data[..];
    PutWord16(data, en + 4, entryLen);
    data[en + 6] := |name|;
    ghost var was := data[..];
    Word32Same(first, was, en);
    var i := 0;
    while i < |name|
      invariant 0 <= i <= |name|
      invariant forall j :: 0 <= j < i ==> data[en + HEADER + j] == name[j]
      invariant forall j :: 0 <= j < data.Length && !(en + HEADER <= j < en + HEADER + i) ==> data[j] == was[j]
    {
      data[en + HEADER + i] := name[i];
      i := i + 1;
    }
    Word32Same(was, data[..], en);
    assert data[..][en + HEADER..en + HEADER + |name|] == name;
    Bytes(data[..], en);
  }

  lemma Word32Same(d: seq<Byte>, d': seq<Byte>, off: nat)
    requires off + 4 <= |d| == |d'| && forall i :: off <= i < off + 4 ==> d'[i] == d[i]
    ensures Word32(d', off) == Word32(d, off)
  {
  }

  /** What a write may touch: the bytes from p to q. */
  ghost predicate Within(d: seq<Byte>, d': seq<Byte>, p: nat, q: nat) {
    |d'| == |d| && p <= q <= |d| && d'[..p] == d[..p] && d'[q..] == d[q..]
  }

  /** A record of a tiled block begins at p. */
  ghost predicate RecordAt(d: seq<Byte>, p: nat): (b: bool)
    ensures b ==> Tiled(d, 0, |d|) && p + HEADER <= |d| && p + HEADER + d[p + 6] as int <= |d| && p + RecLen(d, p) <= |d|
  {
    p < |d| && Tiled(d, 0, p) && Tiled(d, p, |d|) && RecOk(d, p, |d|) && (TiledConcat(d, 0, p, |d|); true)
  }

  lemma RecordTiles(d: seq<Byte>, p: nat)
    requires RecordAt(d, p)
    ensures Tiled(d, 0, p) && Tiled(d, p, |d|) && Tiled(d, p + RecLen(d, p), |d|) && RecOk(d, p, |d|)
  {
    Around(d, p);
  }

  /** The records after the bytes of one of them were written over. */
  lemma Rewritten(d: seq<Byte>, d': seq<Byte>, p: nat, recs: seq<Rec>)
    requires RecordAt(d, p)
    requires Within(d, d', p, p + RecLen(d, p)) && Tiled(d', p, p + RecLen(d, p)) && Recs(d', p, p + RecLen(d, p)) == recs
    ensures Tiled(d, 0, p) && Tiled(d, p + RecLen(d, p), |d|)
    ensures Tiled(d', 0, |d|) && Recs(d', 0, |d|) == Recs(d, 0, p) + recs + Recs(d, p + RecLen(d, p), |d|)
  {
    hide RecAt, RecOk, Recs, Tiled, RecordAt;
    RecordTiles(d, p);
    Spliced(d, d', p, p + RecLen(d, p));
  }

  lemma Spread(recs: seq<Rec>, a: seq<Rec>, r: Rec, b: seq<Rec>, x: Rec)
    requires recs == a + [r] + b
    ensures |a| < |recs| && recs[..|a|] == a && recs[|a|] == r && Inserted(recs, |a|, x) == a + Filled(r, x) + b
  {
    assert recs[..|a|] == a && recs[|a| + 1..] == b;
  }

  /** A dead record was taken over. */
  lemma Reused(d: seq<Byte>, d': seq<Byte>, p: nat, x: Rec)
    requires RecordAt(d, p) && |x.name| < 256
    requires RecAt(d, p).inode == 0 && RecLen(d, p) >= Room(|x.name|) && Within(d, d', p, p + RecLen(d, p))
    requires d'[p + 6] as int == |x.name| && RecAt(d', p) == x.(len := RecLen(d, p))
    ensures Tiled(d, 0, p) && Tiled(d', 0, |d|) && |Recs(d, 0, p)| < |Recs(d, 0, |d|)|
    ensures Recs(d', 0, |d|) == Inserted(Recs(d, 0, |d|), |Recs(d, 0, p)|, x)
  {
    hide Recs, Tiled, Room, RecordAt;
    RecordTiles(d, p);
    Around(d, p);
    assert RecLen(d', p) == RecAt(d', p).len;
    TiledOne(d', p, p + RecLen(d, p));
    Rewritten(d, d', p, [x.(len := RecLen(d, p))]);
    Spread(Recs(d, 0, |d|), Recs(d, 0, p), RecAt(d, p), Recs(d, p + RecLen(d, p), |d|), x);
  }

  /** A live record was cut after its name, and the rest became a record. */
  lemma Cut(d: seq<Byte>, d': seq<Byte>, p: nat, sz: nat, x: Rec)
    requires RecordAt(d, p) && |x.name| < 256
    requires RecAt(d, p).inode != 0 && sz == Room(|RecAt(d, p).name|) && RecAt(d, p).len >= sz + Room(|x.name|) && Within(d, d', p, p + RecLen(d, p))
    requires d'[p + 6] == d[p + 6] && RecAt(d', p) == RecAt(d, p).(len := sz)
    requires d'[p + sz + 6] as int == |x.name| && RecAt(d', p + sz) == x.(len := RecLen(d, p) - sz)
    ensures Tiled(d, 0, p) && Tiled(d', 0, |d|) && |Recs(d, 0, p)| < |Recs(d, 0, |d|)|
    ensures Recs(d', 0, |d|) == Inserted(Recs(d, 0, |d|), |Recs(d, 0, p)|, x)
  {
    hide Recs, Tiled, Room, RecordAt, RecOk, RecAt, RecLen;
    RecordTiles(d, p);
    Around(d, p);
    var q := p + RecLen(d, p);
    RecFields(d, p);
    RecFields(d', p);
    RecFields(d', p + sz);
    CutOk(d, d', p, sz, x);
    TwoRecords(d', p, p + sz, q);
    Rewritten(d, d', p, [RecAt(d', p)] + [RecAt(d', p + sz)]);
    CutIs(RecAt(d, p), sz, x, |x.name|);
    Spread(Recs(d, 0, |d|), Recs(d, 0, p), RecAt(d, p), Recs(d, q, |d|), x);
  }

  lemma RecFields(d: seq<Byte>, p: nat)
    requires p + HEADER <= |d| && p + HEADER + d[p + 6] as int <= |d|
    ensures RecAt(d, p).len == RecLen(d, p) && |RecAt(d, p).name| == d[p + 6] as int && RecAt(d, p).inode == Word32(d, p)
  {
  }

  lemma CutOk(d: seq<Byte>, d': seq<Byte>, p: nat, sz: nat, x: Rec)
    requires RecOk(d, p, |d|) && |d'| == |d| && |x.name| < 256
    requires sz == Room(d[p + 6] as int) && RecLen(d, p) >= sz + Room(|x.name|)
    requires d'[p + 6] == d[p + 6] && RecLen(d', p) == sz
    requires d'[p + sz + 6] as int == |x.name| && RecLen(d', p + sz) == RecLen(d, p) - sz
    ensures RecOk(d', p, p + sz) && RecOk(d', p + sz, p + RecLen(d, p))
  {
    hide RecLen;
  }

  lemma TwoRecords(d: seq<Byte>, p: nat, m: nat, q: nat)
    requires RecOk(d, p, m) && m == p + RecLen(d, p) && RecOk(d, m, q) && q == m + RecLen(d, m)
    ensures p + HEADER + d[p + 6] as int <= |d| && m + HEADER + d[m + 6] as int <= |d|
    ensures Tiled(d, p, q) && Recs(d, p, q) == [RecAt(d, p)] + [RecAt(d, m)]
  {
    hide RecLen, RecAt;
    TiledOne(d, p, m);
    TiledOne(d, m, q);
    TiledConcat(d, p, m, q);
  }

  lemma CutIs(r: Rec, sz: nat, x: Rec, n: nat)
    requires r.inode != 0 && sz == Room(|r.name|) && r.len >= sz + Room(n)
    ensures Filled(r, x) == [r.(len := sz)] + [x.(len := r.len - sz)]
  {
  }

  // ----- search -----

  /** Behind an offset where a name would not end within the block there is no such name. */
  lemma {:induction false} TooLong(d: seq<Byte>, off: nat, name: seq<Byte>)
    requires Tiled(d, off, |d|) && off + |name| > |d|
    ensures Lookup(Recs(d, off, |d|), name) == 0
    decreases |d| - off
  {
    hide Room;
    if off < |d| {
      TooLong(d, off + RecLen(d, off), name);
      RoomAtLeast(d[off + 6] as int);
      assert |RecAt(d, off).name| == d[off + 6] as int;
      var recs := Recs(d, off, |d|);
      assert recs[1..] == Recs(d, off + RecLen(d, off), |d|);
    }
  }

  lemma NextLookup(d: seq<Byte>, p: nat, name: seq<Byte>)
    requires RecordAt(d, p)
    ensures Tiled(d, 0, p) && Tiled(d, 0, p + RecLen(d, p)) && Tiled(d, p + RecLen(d, p), |d|)
    ensures Lookup(Recs(d, 0, p), name) == 0 ==>
      if RecAt(d, p).inode == 0 || RecAt(d, p).name != name then Lookup(Recs(d, 0, p + RecLen(d, p)), name) == 0
      else Lookup(Recs(d, 0, |d|), name) == RecAt(d, p).inode
  {
    hide Lookup, RecAt, RecLen, Recs, Tiled, RecOk, RecordAt;
    RecordTiles(d, p);
    Around(d, p);
    var q := p + RecLen(d, p);
    LookupConcat(Recs(d, 0, p), [RecAt(d, p)], name);
    LookupOne(RecAt(d, p), name);
    LookupConcat(Recs(d, 0, p) + [RecAt(d, p)], Recs(d, q, |d|), name);
  }

  lemma AllLookup(d: seq<Byte>, p: nat, name: seq<Byte>)
    requires Tiled(d, 0, p) && Tiled(d, p, |d|) && p <= |d| && Lookup(Recs(d, 0, p), name) == 0 && Lookup(Recs(d, p, |d|), name) == 0
    ensures Tiled(d, 0, |d|) && Lookup(Recs(d, 0, |d|), name) == 0
  {
    TiledConcat(d, 0, p, |d|);
    LookupConcat(Recs(d, 0, p), Recs(d, p, |d|), name);
  }

  /** At a record boundary inside the block there is a record. */
  lemma Boundary(d: seq<Byte>, p: nat)
    requires Tiled(d, 0, p) && Tiled(d, p, |d|) && p < |d|
    ensures RecordAt(d, p) && p + HEADER <= p + RecLen(d, p) <= |d| && Room(d[p + 6] as int) <= RecLen(d, p)
  {
    hide RecAt, RecLen;
    OkBounds(d, p, |d|);
  }

  lemma EmptyRecs(d: seq<Byte>, name: seq<Byte>)
    ensures Tiled(d, 0, 0) && Recs(d, 0, 0) == [] && Tiled(d, |d|, |d|) && Recs(d, |d|, |d|) == [] && Lookup([], name) == 0
  {
  }

  /** ext4_dir_find_in_block: the first live record with the name, just when there is one. */
  method FindInBlock(data: array<Byte>, name: seq<Byte>) returns (err: Error, de: nat)
    requires Tiled(data[..], 0, data.Length)
    ensures err == if Lookup(Recs(data[..], 0, data.Length), name) == 0 then ENOENT else EOK
    ensures err == EOK ==> RecordAt(data[..], de) && Tiled(data[..], 0, de) && Lookup(Recs(data[..], 0, de), name) == 0
    ensures err == EOK ==> RecAt(data[..], de).name == name && RecAt(data[..], de).inode == Lookup(Recs(data[..], 0, data.Length), name)
  {
    hide Lookup, Tiled, Recs, RecordAt, RecOk, Word16, Word32;
    ghost var d := data[..];
    de := 0;
    EmptyRecs(d, name);
    while de < data.Length
      invariant de <= data.Length && Tiled(d, 0, de) && Tiled(d, de, |d|) && Lookup(Recs(d, 0, de), name) == 0
      decreases data.Length - de
    {
      if de + |name| > data.Length {
        TooLong(d, de, name);
        AllLookup(d, de, name);
        return ENOENT, 0;
      }
      Boundary(d, de);
      NextLookup(d, de, name);
      if Word32(data[..], de) != 0 {
        var el := data[de + 6] as int;
        if el == |name| && data[de + HEADER..de + HEADER + |name|] == name {
          return EOK, de;
        }
      }
      de := de + RecLen(data[..], de);
    }
    AllLookup(d, de, name);
    err := ENOENT;
  }

  // ----- insertion -----

  lemma NextNoneFits(d: seq<Byte>, p: nat, required: nat)
    requires RecordAt(d, p)
    ensures Tiled(d, 0, p) && Tiled(d, 0, p + RecLen(d, p)) && Tiled(d, p + RecLen(d, p), |d|)
    ensures NoneFits(Recs(d, 0, p), required) && !Fits(RecAt(d, p), required) ==> NoneFits(Recs(d, 0, p + RecLen(d, p)), required)
    ensures |Recs(d, 0, p)| < |Recs(d, 0, |d|)| && Recs(d, 0, |d|)[|Recs(d, 0, p)|] == RecAt(d, p)
    ensures Recs(d, 0, |d|)[..|Recs(d, 0, p)|] == Recs(d, 0, p)
  {
    hide Fits, RecAt, RecLen, Recs, Tiled, RecOk, RecordAt;
    RecordTiles(d, p);
    Around(d, p);
  }

  method TakeDead(data: array<Byte>, start: nat, child: nat, kind: Byte, name: seq<Byte>)
    requires RecordAt(data[..], start) && data.Length < 0x1_0000 && child < 0x1_0000_0000 && |name| < 256
    requires RecAt(data[..], start).inode == 0 && RecLen(data[..], start) >= Room(|name|)
    modifies data
    ensures var d := old(data[..]);
            && Tiled(d, 0, start) && Tiled(data[..], 0, data.Length) && |Recs(d, 0, start)| < |Recs(d, 0, |d|)|
            && Recs(data[..], 0, data.Length) == Inserted(Recs(d, 0, |d|), |Recs(d, 0, start)|, Rec(child, 0, kind, name))
  {
    hide Tiled, Recs, Room, RecordAt, RecOk, Inserted, Word16, Word32;
    ghost var d := data[..];
    RecordTiles(d, start);
    RecShort(d, start);
    RoomAtLeast(|name|);
    WriteEntry(data, start, RecLen(data[..], start), child, kind, name);
    Untouched(d, data[..], start, start + RecLen(d, start));
    Reused(d, data[..], start, Rec(child, 0, kind, name));
  }

  lemma RecShort(d: seq<Byte>, p: nat)
    requires RecordAt(d, p)
    ensures p + RecLen(d, p) <= |d|
  {
  }

  lemma Untouched(d: seq<Byte>, d': seq<Byte>, p: nat, q: nat)
    requires |d'| == |d| && p <= q <= |d| && forall i :: 0 <= i < |d| && !(p <= i < q) ==> d'[i] == d[i]
    ensures Within(d, d', p, q)
  {
  }

  method SplitLive(data: array<Byte>, start: nat, child: nat, kind: Byte, name: seq<Byte>)
    requires RecordAt(data[..], start) && data.Length < 0x1_0000 && child < 0x1_0000_0000 && |name| < 256
    requires RecAt(data[..], start).inode != 0 && RecLen(data[..], start) >= Room(data[start + 6] as int) + Room(|name|)
    modifies data
    ensures var d := old(data[..]);
            && Tiled(d, 0, start) && Tiled(data[..], 0, data.Length) && |Recs(d, 0, start)| < |Recs(d, 0, |d|)|
            && Recs(data[..], 0, data.Length) == Inserted(Recs(d, 0, |d|), |Recs(d, 0, start)|, Rec(child, 0, kind, name))
  {
    hide Tiled, Recs, Room, RecordAt, RecOk, Inserted, Word32;
    ghost var d := data[..];
    RecordTiles(d, start);
    RecShort(d, start);
    RoomAtLeast(|name|);
    RoomAtLeast(data[start + 6] as int);
    var sz := Room(data[start + 6] as int);
    var freeSpace := RecLen(data[..], start) - sz;
    RecFields(d, start);
    PutWord16(data, start + 4, sz);
    ghost var first := data[..];
    LenChanged(d, first, start, sz);
    WriteEntry(data, start + sz, freeSpace, child, kind, name);
    RecAhead(first, data[..], start, start + sz);
    Untouched(d, data[..], start, start + RecLen(d, start));
    Cut(d, data[..], start, sz, Rec(child, 0, kind, name));
  }

  /** Writing a record's length changes nothing else in it. */
  lemma LenChanged(d: seq<Byte>, d': seq<Byte>, p: nat, len: nat)
    requires p + HEADER <= |d| && p + HEADER + d[p + 6] as int <= |d| && |d'| == |d| && Word16(d', p + 4) == len
    requires forall i :: 0 <= i < |d| && !(p + 4 <= i < p + 6) ==> d'[i] == d[i]
    ensures d'[p + 6] == d[p + 6] && RecAt(d', p) == RecAt(d, p).(len := len)
  {
    hide Word32;
    Word32Same(d, d', p);
    var n := d[p + 6] as int;
    assert d'[p + HEADER..p + HEADER + n] == d[p + HEADER..p + HEADER + n];
  }

  /** A record that ends before m is the same after writes behind m. */
  lemma RecAhead(d: seq<Byte>, d': seq<Byte>, p: nat, m: nat)
    requires p + HEADER <= |d| && p + HEADER + d[p + 6] as int <= m <= |d| == |d'| && forall i :: p <= i < m ==> d'[i] == d[i]
    ensures d'[p + 6] == d[p + 6] && RecAt(d', p) == RecAt(d, p)
  {
    var n := d[p + 6] as int;
    assert d'[p + HEADER..p + HEADER + n] == d[p + HEADER..p + HEADER + n];
  }

  /** ext4_dir_try_insert_entry: the first record with room takes the name; there is no space just when none has. */
  method TryInsert(data: array<Byte>, child: nat, kind: Byte, name: seq<Byte>) returns (err: Error, ghost at: nat)
    requires Tiled(data[..], 0, data.Length) && data.Length < 0x1_0000 && child < 0x1_0000_0000 && |name| < 256
    modifies data
    ensures Tiled(data[..], 0, data.Length)
    ensures var recs := Recs(old(data[..]), 0, data.Length);
            && err == (if NoneFits(recs, Room(|name|)) then ENOSPC else EOK)
            && (err == ENOSPC ==> data[..] == old(data[..]))
            && (err == EOK ==> at < |recs| && Fits(recs[at], Room(|name|)) && NoneFits(recs[..at], Room(|name|))
                               && Recs(data[..], 0, data.Length) == Inserted(recs, at, Rec(child, 0, kind, name)))
  {
    hide Tiled, Recs, RecordAt, RecOk, Word16, Word32, Inserted, Room;
    ghost var d := data[..];
    ghost var recs := Recs(d, 0, |d|);
    var required := Room(|name|);
    var start := 0;
    EmptyRecs(d, name);
    while start < data.Length
      invariant start <= data.Length && data[..] == d && Tiled(d, 0, start) && Tiled(d, start, |d|) && NoneFits(Recs(d, 0, start), required)
      decreases data.Length - start
    {
      Boundary(d, start);
      NextNoneFits(d, start, required);
      RecFields(d, start);
      at := |Recs(d, 0, start)|;
      var inode, rec_len, itype := Word32(data[..], start), RecLen(data[..], start), data[start + 7];
      if inode == 0 && itype != DIR_CSUM && rec_len >= required {
        TakeDead(data, start, child, kind, name);
        return EOK, at;
      }
      if inode != 0 {
        var sz := Room(data[start + 6] as int);
        if rec_len - sz >= required {
          SplitLive(data, start, child, kind, name);
          return EOK, at;
        }
      }
      start := start + rec_len;
    }
    return ENOSPC, 0;
  }

  // ----- removal -----

  lemma RemovedIs(a: seq<Rec>, pred: Rec, r: Rec, b: seq<Rec>)
    ensures Removed(a + [pred] + [r] + b, |a| + 1) == a + [pred.(len := pred.len + r.len)] + b
  {
    var s := a + [pred] + [r] + b;
    assert s[..|a|] == a && s[|a|] == pred && s[|a| + 1] == r && s[|a| + 2..] == b;
  }

  lemma RemovedFirst(r: Rec, b: seq<Rec>)
    ensures Removed([r] + b, 0) == [r.(inode := 0)] + b
  {
    assert ([r] + b)[1..] == b;
  }

  /** A record became part of the one before it. */
  lemma Merged(d: seq<Byte>, d': seq<Byte>, p0: nat, p: nat)
    requires RecordAt(d, p0) && RecordAt(d, p) && p == p0 + RecLen(d, p0) && Within(d, d', p0, p + RecLen(d, p))
    requires d'[p0 + 6] == d[p0 + 6] && RecAt(d', p0) == RecAt(d, p0).(len := RecLen(d, p0) + RecLen(d, p))
    ensures Tiled(d, 0, p) && Tiled(d', 0, |d|) && |Recs(d, 0, p)| < |Recs(d, 0, |d|)|
    ensures Recs(d', 0, |d|) == Removed(Recs(d, 0, |d|), |Recs(d, 0, p)|)
  {
    hide RecAt, Recs, Tiled, RecLen, RecordAt, RecOk, Removed;
    RecordTiles(d, p0);
    RecordTiles(d, p);
    RecFields(d, p0);
    RecFields(d, p);
    RecFields(d', p0);
    var q := p + RecLen(d, p);
    MergedOk(d, d', p0, p);
    TiledOne(d', p0, q);
    Spliced(d, d', p0, q);
    TwoInARow(d, p0, p);
    RemovedIs(Recs(d, 0, p0), RecAt(d, p0), RecAt(d, p), Recs(d, q, |d|));
  }

  lemma TwoInARow(d: seq<Byte>, p0: nat, p: nat)
    requires RecordAt(d, p0) && RecordAt(d, p) && p == p0 + RecLen(d, p0)
    ensures Tiled(d, 0, p0) && Tiled(d, 0, p) && Tiled(d, p + RecLen(d, p), |d|)
    ensures Recs(d, 0, p) == Recs(d, 0, p0) + [RecAt(d, p0)]
    ensures Recs(d, 0, |d|) == Recs(d, 0, p0) + [RecAt(d, p0)] + [RecAt(d, p)] + Recs(d, p + RecLen(d, p), |d|)
  {
    hide RecAt, Recs, Tiled, RecLen, RecordAt, RecOk;
    RecordTiles(d, p0);
    RecordTiles(d, p);
    Around(d, p0);
    Around(d, p);
  }

  lemma MergedOk(d: seq<Byte>, d': seq<Byte>, p0: nat, p: nat)
    requires RecOk(d, p0, |d|) && RecOk(d, p, |d|) && p == p0 + RecLen(d, p0) && |d'| == |d|
    requires d'[p0 + 6] == d[p0 + 6] && RecLen(d', p0) == RecLen(d, p0) + RecLen(d, p)
    ensures RecOk(d', p0, p + RecLen(d, p)) && p + RecLen(d, p) == p0 + RecLen(d', p0)
  {
    hide RecLen, Room;
  }

  /** The first record of the block died. */
  lemma Killed(d: seq<Byte>, d': seq<Byte>)
    requires RecordAt(d, 0) && Within(d, d', 0, RecLen(d, 0))
    requires d'[6] == d[6] && RecAt(d', 0) == RecAt(d, 0).(inode := 0)
    ensures Tiled(d', 0, |d|) && 0 < |Recs(d, 0, |d|)| && Recs(d', 0, |d|) == Removed(Recs(d, 0, |d|), 0)
  {
    hide RecAt, Recs, Tiled, RecLen, RecordAt;
    RecordTiles(d, 0);
    Around(d, 0);
    RecFields(d, 0);
    RecFields(d', 0);
    TiledOne(d', 0, RecLen(d, 0));
    Rewritten(d, d', 0, [RecAt(d', 0)]);
    EmptyRecs(d, []);
    RemovedFirst(RecAt(d, 0), Recs(d, RecLen(d, 0), |d|));
  }

  lemma InodeChanged(d: seq<Byte>, d': seq<Byte>, p: nat, inode: nat)
    requires p + HEADER <= |d| && p + HEADER + d[p + 6] as int <= |d| && |d'| == |d| && Word32(d', p) == inode
    requires forall i :: 0 <= i < |d| && !(p <= i < p + 4) ==> d'[i] == d[i]
    ensures d'[p + 6] == d[p + 6] && RecAt(d', p) == RecAt(d, p).(inode := inode)
  {
    hide Word32;
    var n := d[p + 6] as int;
    assert d'[p + HEADER..p + HEADER + n] == d[p + HEADER..p + HEADER + n];
  }

  lemma FirstStep(d: seq<Byte>, p: nat, q: nat)
    requires Tiled(d, p, q) && p < q
    ensures RecOk(d, p, q) && HEADER <= RecLen(d, p) && p + RecLen(d, p) <= q && Tiled(d, p + RecLen(d, p), q)
    ensures p + HEADER + d[p + 6] as int <= p + RecLen(d, p)
  {
    hide RecLen;
    RoomAtLeast(d[p + 6] as int);
  }

  /** The walk to the record before a position. */
  method Predecessor(data: array<Byte>, pos: nat) returns (offset: nat, deLen: nat)
    requires Tiled(data[..], 0, pos) && 0 < pos <= data.Length
    ensures offset + HEADER <= data.Length && Tiled(data[..], 0, offset) && RecOk(data[..], offset, pos)
    ensures deLen == RecLen(data[..], offset) && offset + deLen == pos
  {
    hide Tiled, RecOk, RecLen;
    ghost var d := data[..];
    EmptyRecs(d, []);
    offset := 0;
    FirstStep(d, 0, pos);
    deLen := RecLen(data[..], 0);
    while offset + deLen < pos
      invariant offset + HEADER <= pos && Tiled(d, 0, offset) && Tiled(d, offset, pos) && RecOk(d, offset, pos)
      invariant deLen == RecLen(d, offset) && offset + deLen <= pos && deLen >= HEADER
      decreases pos - offset
    {
      FirstStep(d, offset, pos);
      StepOver(d, offset, pos);
      offset := offset + deLen;
      FirstStep(d, offset, pos);
      deLen := RecLen(data[..], offset);
    }
    assert offset + deLen == pos;
  }

  lemma StepOver(d: seq<Byte>, p: nat, q: nat)
    requires Tiled(d, 0, p) && Tiled(d, p, q) && p < q
    ensures p + HEADER <= |d| && Tiled(d, 0, p + RecLen(d, p))
  {
    FirstStep(d, p, q);
    TiledOne(d, p, p + RecLen(d, p));
    TiledConcat(d, 0, p, p + RecLen(d, p));
  }

  /** ext4_dir_remove_entry in the block that has the name: its record dies, or becomes part of the one before it. */
  method RemoveEntry(data: array<Byte>, name: seq<Byte>) returns (err: Error, ghost k: nat)
    requires Tiled(data[..], 0, data.Length) && data.Length < 0x1_0000
    modifies data
    ensures Tiled(data[..], 0, data.Length)
    ensures var recs := Recs(old(data[..]), 0, data.Length);
            && err == (if Lookup(recs, name) == 0 then ENOENT else EOK)
            && (err == ENOENT ==> data[..] == old(data[..]))
            && (err == EOK ==> k < |recs| && recs[k].name == name && recs[k].inode == Lookup(recs, name)
                               && Recs(data[..], 0, data.Length) == Removed(recs, k))
  {
    hide Tiled, Recs, RecordAt, RecOk, Word16, Word32, Lookup, Removed;
    ghost var d := data[..];
    var pos: nat;
    err, pos := FindInBlock(data, name);
    k := 0;
    if err == EOK {
      NextNoneFits(d, pos, 0);
      k := |Recs(d, 0, pos)|;
      Kill(data, pos);
    }
  }

  method Kill(data: array<Byte>, pos: nat)
    requires RecordAt(data[..], pos) && data.Length < 0x1_0000
    modifies data
    ensures var d := old(data[..]);
            && Tiled(d, 0, pos) && Tiled(data[..], 0, data.Length) && |Recs(d, 0, pos)| < |Recs(d, 0, |d|)|
            && Recs(data[..], 0, data.Length) == Removed(Recs(d, 0, |d|), |Recs(d, 0, pos)|)
  {
    hide Tiled, Recs, RecordAt, RecOk, Word16, Word32, Removed;
    ghost var d := data[..];
    RecordTiles(d, pos);
    Boundary(d, pos);
    PutWord32(data, pos, 0);
    ghost var d1 := data[..];
    InodeChanged(d, d1, pos, 0);
    Untouched(d, d1, pos, pos + RecLen(d, pos));
    if pos == 0 {
      EmptyRecs(d, []);
      Killed(d, d1);
    } else {
      assert d1[0..pos] == d[0..pos];
      RecsSame(d, d1, 0, pos);
      var offset, deLen := Predecessor(data, pos);
      var delLen := RecLen(data[..], pos);
      PutWord16(data, offset + 4, deLen + delLen);
      ghost var d2 := data[..];
      MergeWritten(d, d1, d2, offset, pos);
      Merged(d, d2, offset, pos);
    }
  }

  lemma MergeWritten(d: seq<Byte>, d1: seq<Byte>, d2: seq<Byte>, p0: nat, p: nat)
    requires RecordAt(d, p) && |d2| == |d1| == |d| && Tiled(d1, 0, p0) && RecOk(d1, p0, p) && p0 + RecLen(d1, p0) == p
    requires Word16(d2, p0 + 4) == RecLen(d1, p0) + RecLen(d, p)
    requires forall i :: 0 <= i < |d| && !(p <= i < p + 4) ==> d1[i] == d[i]
    requires forall i :: 0 <= i < |d| && !(p0 + 4 <= i < p0 + 6) ==> d2[i] == d1[i]
    ensures RecordAt(d, p0) && p == p0 + RecLen(d, p0) && Within(d, d2, p0, p + RecLen(d, p))
    ensures d2[p0 + 6] == d[p0 + 6] && RecAt(d2, p0) == RecAt(d, p0).(len := RecLen(d, p0) + RecLen(d, p))
  {
    hide Tiled, RecordAt, RecOk, Word32, Recs, Room;
    RecordTiles(d, p);
    Boundary(d, p);
    TiledOne(d1, p0, p);
    FirstStep(d1, p0, p);
    assert d1[0..p0] == d[0..p0] && d1[p0..p] == d[p0..p];
    RecsSame(d1, d, 0, p0);
    RecsSame(d1, d, p0, p);
    FirstStep(d, p0, p);
    TiledConcat(d, p0, p, |d|);
    Boundary(d, p0);
    Untouched(d, d2, p0, p + RecLen(d, p));
    LenChanged(d1, d2, p0, RecLen(d, p0) + RecLen(d, p));
    RecAhead(d, d1, p0, p);
  }

  /** The records of a tiled block fill it, and each has room for its name. */
  lemma {:induction false} RecsFill(d: seq<Byte>, off: nat, q: nat)
    requires Tiled(d, off, q)
    ensures Total(Recs(d, off, q)) == q - off
    ensures forall i :: 0 <= i < |Recs(d, off, q)| ==> Room(|Recs(d, off, q)[i].name|) <= Recs(d, off, q)[i].len && |Recs(d, off, q)[i].name| < 256
    decreases q - off
  {
    hide Room, RecLen;
    if off < q {
      FirstStep(d, off, q);
      RecFields(d, off);
      RecsFill(d, off + RecLen(d, off), q);
      var rest := Recs(d, off + RecLen(d, off), q);
      var recs := Recs(d, off, q);
      assert recs[1..] == rest && forall i :: 0 < i < |recs| ==> recs[i] == rest[i - 1];
    }
  }
}

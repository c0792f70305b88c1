/** Leaves of a hashed directory in the order of their keys: what the order promises to a search, and what keeps it. */
module HashOrder {
  import opened DirRecords

  const TOP := 0x1_0000_0000

  /** ext4_dir_idx_entry */
  datatype DxEntry = DxEntry(hash: nat, block: nat)

  type HashFn = seq<Byte> -> nat

  /** Hashes are even 32-bit numbers; an odd key marks a leaf that goes on with the hash before it. */
  ghost predicate HashOk(hash: HashFn) { forall name :: hash(name) % 2 == 0 && hash(name) < TOP }

  function Low(key: nat): nat { key - key % 2 }

  function Leaf(leaves: map<nat, seq<Rec>>, block: nat): seq<Rec> { if block in leaves then leaves[block] else [] }

  ghost predicate Sorted(flat: seq<DxEntry>) { forall a, b :: 0 <= a < b < |flat| ==> flat[a].hash <= flat[b].hash }

  function KeyAfter(flat: seq<DxEntry>, p: nat): nat { if p + 1 < |flat| then flat[p + 1].hash else TOP }

  ghost predicate InRange(recs: seq<Rec>, hash: HashFn, lo: nat, hi: nat) {
    forall i :: 0 <= i < |recs| && recs[i].inode != 0 ==> Low(lo) <= hash(recs[i].name) < hi
  }

  /** The records of a leaf fill a block, and each holds its name. */
  ghost predicate LeafOk(recs: seq<Rec>, size: nat) {
    && Total(recs) == size
    && forall i :: 0 <= i < |recs| ==>
         Room(|recs[i].name|) <= recs[i].len && |recs[i].name| < 256 && (recs[i].inode != 0 ==> recs[i].name != [])
  }

  ghost predicate DistinctBlocks(flat: seq<DxEntry>) { forall a, b :: 0 <= a < b < |flat| ==> flat[a].block != flat[b].block }

  /** Keys ascend from 0, and a leaf holds hashes from its key up to the next key, and the hash before an odd key. */
  ghost predicate Ordered(flat: seq<DxEntry>, leaves: map<nat, seq<Rec>>, hash: HashFn, size: nat) {
    && |flat| > 0 && flat[0].hash == 0 && Sorted(flat) && DistinctBlocks(flat)
    && forall p :: 0 <= p < |flat| ==> LeafFits(flat, leaves, hash, size, p)
  }

  ghost predicate LeafFits(flat: seq<DxEntry>, leaves: map<nat, seq<Rec>>, hash: HashFn, size: nat, p: nat)
    requires p < |flat|
  {
    flat[p].hash < TOP && LeafOk(Leaf(leaves, flat[p].block), size) && InRange(Leaf(leaves, flat[p].block), hash, flat[p].hash, KeyAfter(flat, p))
  }

  /** The last leaf whose key does not exceed a hash. */
  ghost predicate LastAtMost(flat: seq<DxEntry>, h: nat, p: nat) {
    p < |flat| && flat[p].hash <= h && forall q :: p < q < |flat| ==> flat[q].hash > h
  }

  // ----- names and inodes, whatever their order -----

  ghost function Bag(recs: seq<Rec>): multiset<(seq<Byte>, nat)> {
    if recs == [] then multiset{} else (if recs[0].inode != 0 then multiset{(recs[0].name, recs[0].inode)} else multiset{}) + Bag(recs[1..])
  }

  ghost function AllBag(flat: seq<DxEntry>, leaves: map<nat, seq<Rec>>): multiset<(seq<Byte>, nat)> {
    if flat == [] then multiset{} else Bag(Leaf(leaves, flat[0].block)) + AllBag(flat[1..], leaves)
  }

  lemma {:induction false} BagConcat(a: seq<Rec>, b: seq<Rec>)
    ensures Bag(a + b) == Bag(a) + Bag(b)
  {
    if a == [] {
      assert a + b == b;
    } else {
      assert (a + b)[1..] == a[1..] + b;
      BagConcat(a[1..], b);
    }
  }

  lemma BagOne(r: Rec)
    ensures Bag([r]) == if r.inode != 0 then multiset{(r.name, r.inode)} else multiset{}
  {
    assert [r][1..] == [];
  }

  /** What a leaf holds is what a search of its records finds. */
  lemma {:induction false} BagHas(recs: seq<Rec>, name: seq<Byte>, inode: nat)
    ensures (name, inode) in Bag(recs) <==> exists i :: 0 <= i < |recs| && recs[i].inode != 0 && recs[i].name == name && recs[i].inode == inode
  {
    if recs != [] {
      var rest := recs[1..];
      BagHas(rest, name, inode);
      forall i | 0 <= i < |rest| ensures rest[i] == recs[i + 1] {}
      if exists i :: 0 <= i < |rest| && rest[i].inode != 0 && rest[i].name == name && rest[i].inode == inode {
        var i :| 0 <= i < |rest| && rest[i].inode != 0 && rest[i].name == name && rest[i].inode == inode;
        assert recs[i + 1].name == name;
      }
      if exists i :: 0 <= i < |recs| && recs[i].inode != 0 && recs[i].name == name && recs[i].inode == inode {
        var i :| 0 <= i < |recs| && recs[i].inode != 0 && recs[i].name == name && recs[i].inode == inode;
        assert i > 0 ==> rest[i - 1].name == name;
      }
    }
  }

  lemma BagInserted(recs: seq<Rec>, i: nat, x: Rec, required: nat)
    requires i < |recs| && Fits(recs[i], required) && x.inode != 0
    ensures Bag(Inserted(recs, i, x)) == Bag(recs) + multiset{(x.name, x.inode)}
  {
    hide Bag, Room;
    var r := recs[i];
    assert recs == recs[..i] + [r] + recs[i + 1..];
    BagConcat(recs[..i] + [r], recs[i + 1..]);
    BagConcat(recs[..i], [r]);
    BagConcat(recs[..i] + Filled(r, x), recs[i + 1..]);
    BagConcat(recs[..i], Filled(r, x));
    BagFilled(r, x, required);
    BagOne(r);
  }

  lemma BagFilled(r: Rec, x: Rec, required: nat)
    requires Fits(r, required) && x.inode != 0
    ensures Bag(Filled(r, x)) == Bag([r]) + multiset{(x.name, x.inode)}
  {
    hide Bag;
    BagOne(r);
    if r.inode == 0 {
      BagOne(x.(len := r.len));
    } else {
      var a, b := r.(len := Room(|r.name|)), x.(len := r.len - Room(|r.name|));
      assert Filled(r, x) == [a] + [b];
      BagConcat([a], [b]);
      BagOne(a);
      BagOne(b);
    }
  }

  lemma {:induction false} AllBagConcat(a: seq<DxEntry>, b: seq<DxEntry>, leaves: map<nat, seq<Rec>>)
    ensures AllBag(a + b, leaves) == AllBag(a, leaves) + AllBag(b, leaves)
  {
    hide Bag;
    if a == [] {
      assert a + b == b;
    } else {
      assert (a + b)[1..] == a[1..] + b;
      AllBagConcat(a[1..], b, leaves);
    }
  }

  lemma {:induction false} AllBagOther(flat: seq<DxEntry>, leaves: map<nat, seq<Rec>>, block: nat, recs: seq<Rec>)
    requires forall a :: 0 <= a < |flat| ==> flat[a].block != block
    ensures AllBag(flat, leaves[block := recs]) == AllBag(flat, leaves)
  {
    hide Bag;
    if flat != [] {
      AllBagOther(flat[1..], leaves, block, recs);
    }
  }

  /** The names of a directory around one of its leaves. */
  lemma AllBagAround(flat: seq<DxEntry>, leaves: map<nat, seq<Rec>>, p: nat)
    requires p < |flat|
    ensures AllBag(flat, leaves) == AllBag(flat[..p], leaves) + Bag(Leaf(leaves, flat[p].block)) + AllBag(flat[p + 1..], leaves)
  {
    hide Bag;
    assert flat == flat[..p] + ([flat[p]] + flat[p + 1..]);
    AllBagConcat(flat[..p], [flat[p]] + flat[p + 1..], leaves);
    assert ([flat[p]] + flat[p + 1..])[1..] == flat[p + 1..];
  }

  /** Only the changed leaf's names change. */
  lemma AllBagChanged(flat: seq<DxEntry>, leaves: map<nat, seq<Rec>>, p: nat, recs: seq<Rec>)
    requires p < |flat| && DistinctBlocks(flat)
    ensures AllBag(flat, leaves[flat[p].block := recs]) + Bag(Leaf(leaves, flat[p].block)) == AllBag(flat, leaves) + Bag(recs)
  {
    hide Bag, AllBag;
    var leaves' := leaves[flat[p].block := recs];
    AllBagAround(flat, leaves, p);
    AllBagAround(flat, leaves', p);
    AllBagOther(flat[..p], leaves, flat[p].block, recs);
    AllBagOther(flat[p + 1..], leaves, flat[p].block, recs);
  }

  lemma {:induction false} AllBagHas(flat: seq<DxEntry>, leaves: map<nat, seq<Rec>>, x: (seq<Byte>, nat))
    ensures x in AllBag(flat, leaves) <==> exists p :: 0 <= p < |flat| && x in Bag(Leaf(leaves, flat[p].block))
  {
    hide Bag;
    if flat != [] {
      var rest := flat[1..];
      AllBagHas(rest, leaves, x);
      if exists p :: 0 <= p < |rest| && x in Bag(Leaf(leaves, rest[p].block)) {
        var p :| 0 <= p < |rest| && x in Bag(Leaf(leaves, rest[p].block));
        assert rest[p] == flat[p + 1];
      }
      if exists p :: 0 <= p < |flat| && x in Bag(Leaf(leaves, flat[p].block)) {
        var p :| 0 <= p < |flat| && x in Bag(Leaf(leaves, flat[p].block));
        assert p > 0 ==> rest[p - 1] == flat[p];
      }
    }
  }

  // ----- search -----

  lemma KeysUpTo(flat: seq<DxEntry>, q: nat, p: nat)
    requires Sorted(flat) && q < p < |flat|
    ensures KeyAfter(flat, q) <= flat[p].hash
  {
  }

  /** A name can only be in the last leaf that may begin with its hash, or in leaves that go on with it. */
  lemma OnlyHere(flat: seq<DxEntry>, leaves: map<nat, seq<Rec>>, hash: HashFn, size: nat, name: seq<Byte>, p: nat, q: nat)
    requires HashOk(hash) && Ordered(flat, leaves, hash, size) && LastAtMost(flat, hash(name), p) && q < |flat|
    requires Lookup(Leaf(leaves, flat[q].block), name) != 0
    ensures p <= q && forall m :: p < m <= q ==> Low(flat[m].hash) == hash(name)
  {
    hide Lookup, LeafOk;
    var recs := Leaf(leaves, flat[q].block);
    var h := hash(name);
    var i := LookupIndex(recs, name);
    assert LeafFits(flat, leaves, hash, size, q);
    assert Low(flat[q].hash) <= h < KeyAfter(flat, q);
    if q < p {
      KeysUpTo(flat, q, p);
      assert false;
    }
    forall m | p < m <= q ensures Low(flat[m].hash) == h {
      assert flat[m].hash <= flat[q].hash;
    }
  }

  // ----- a name put into its leaf -----

  lemma {:induction false} TotalConcat(a: seq<Rec>, b: seq<Rec>)
    ensures Total(a + b) == Total(a) + Total(b)
  {
    if a == [] {
      assert a + b == b;
    } else {
      assert (a + b)[1..] == a[1..] + b;
      TotalConcat(a[1..], b);
    }
  }

  lemma TotalOne(r: Rec)
    ensures Total([r]) == r.len
  {
    assert [r][1..] == [];
  }

  lemma TotalFilled(r: Rec, x: Rec)
    ensures Total(Filled(r, x)) == r.len
  {
    hide Total, Room;
    if r.inode == 0 {
      TotalOne(x.(len := r.len));
    } else if r.len >= Room(|r.name|) {
      var a, b := r.(len := Room(|r.name|)), x.(len := r.len - Room(|r.name|));
      assert Filled(r, x) == [a] + [b];
      TotalConcat([a], [b]);
      TotalOne(a);
      TotalOne(b);
    } else {
      TotalOne(r);
    }
  }

  lemma LeafInserted(recs: seq<Rec>, size: nat, hash: HashFn, lo: nat, hi: nat, i: nat, x: Rec)
    requires LeafOk(recs, size) && InRange(recs, hash, lo, hi) && i < |recs| && Fits(recs[i], Room(|x.name|))
    requires |x.name| < 256 && x.name != [] && lo <= hash(x.name) < hi
    ensures LeafOk(Inserted(recs, i, x), size) && InRange(Inserted(recs, i, x), hash, lo, hi)
  {
    hide Total, Room;
    var r := recs[i];
    var s, filled := Inserted(recs, i, x), Filled(r, x);
    assert recs == recs[..i] + [r] + recs[i + 1..];
    TotalConcat(recs[..i] + [r], recs[i + 1..]);
    TotalConcat(recs[..i], [r]);
    TotalConcat(recs[..i] + filled, recs[i + 1..]);
    TotalConcat(recs[..i], filled);
    TotalOne(r);
    TotalFilled(r, x);
    forall j | 0 <= j < |s|
      ensures Room(|s[j].name|) <= s[j].len && |s[j].name| < 256 && (s[j].inode != 0 ==> s[j].name != [] && Low(lo) <= hash(s[j].name) < hi)
    {
      if j < i {
        assert s[j] == recs[j];
      } else if j < i + |filled| {
        assert s[j] == filled[j - i];
        assert recs[i].name == r.name;
      } else {
        assert s[j] == recs[i + 1..][j - i - |filled|];
        assert s[j] == recs[j - |filled| + 1];
      }
    }
  }

  /** A leaf changed within its range leaves the order as it is. */
  lemma LeafReplaced(flat: seq<DxEntry>, leaves: map<nat, seq<Rec>>, hash: HashFn, size: nat, p: nat, recs: seq<Rec>)
    requires Ordered(flat, leaves, hash, size) && p < |flat| && LeafOk(recs, size) && InRange(recs, hash, flat[p].hash, KeyAfter(flat, p))
    ensures Ordered(flat, leaves[flat[p].block := recs], hash, size)
  {
    hide LeafOk, InRange;
    var leaves' := leaves[flat[p].block := recs];
    forall q | 0 <= q < |flat| ensures LeafFits(flat, leaves', hash, size, q) {
      assert LeafFits(flat, leaves, hash, size, q);
      assert q != p ==> flat[q].block != flat[p].block;
    }
  }

  // ----- a leaf split in two -----

  function Live(recs: seq<Rec>): seq<Rec> {
    if recs == [] then [] else (if recs[0].inode != 0 && recs[0].name != [] then [recs[0]] else []) + Live(recs[1..])
  }

  ghost predicate ByHash(s: seq<Rec>, hash: HashFn) { forall i, j :: 0 <= i < j < |s| ==> hash(s[i].name) <= hash(s[j].name) }

  function RoomTotal(s: seq<Rec>): nat { if s == [] then 0 else Room(|s[0].name|) + RoomTotal(s[1..]) }

  /** Records laid out from the start of a block, the last one up to its end. */
  function Packed(s: seq<Rec>, size: nat): seq<Rec>
    requires RoomTotal(s) <= size
  {
    if |s| == 0 then [] else if |s| == 1 then [s[0].(len := size)]
    else [s[0].(len := Room(|s[0].name|))] + Packed(s[1..], size - Room(|s[0].name|))
  }

  lemma {:induction false} PackedSame(s: seq<Rec>, size: nat)
    requires RoomTotal(s) <= size
    ensures |Packed(s, size)| == |s|
    ensures forall i :: 0 <= i < |s| ==> Packed(s, size)[i] == s[i].(len := Packed(s, size)[i].len) && Room(|s[i].name|) <= Packed(s, size)[i].len
  {
    hide Room;
    if |s| == 1 {
      assert RoomTotal(s[1..]) == 0;
    } else if |s| > 1 {
      var rest, room := s[1..], Room(|s[0].name|);
      PackedSame(rest, size - room);
      var t, u := Packed(s, size), Packed(rest, size - room);
      assert forall i :: 0 < i < |s| ==> t[i] == u[i - 1] && s[i] == rest[i - 1];
    }
  }

  lemma {:induction false} PackedTotal(s: seq<Rec>, size: nat)
    requires RoomTotal(s) <= size && s != []
    ensures Total(Packed(s, size)) == size && |Packed(s, size)| == |s|
    ensures Packed(s, size)[|s| - 1].len == size - RoomTotal(s) + Room(|s[|s| - 1].name|)
  {
    hide Room;
    if |s| == 1 {
      assert s[1..] == [];
      TotalOne(s[0].(len := size));
    } else {
      var rest, room := s[1..], Room(|s[0].name|);
      PackedTotal(rest, size - room);
      var t := Packed(s, size);
      assert t[1..] == Packed(rest, size - room);
      assert rest[|rest| - 1] == s[|s| - 1];
    }
  }

  lemma {:induction false} BagSame(a: seq<Rec>, b: seq<Rec>)
    requires |a| == |b| && forall i :: 0 <= i < |a| ==> a[i].name == b[i].name && a[i].inode == b[i].inode
    ensures Bag(a) == Bag(b)
  {
    if a != [] {
      BagSame(a[1..], b[1..]);
    }
  }

  lemma PackedBag(s: seq<Rec>, size: nat)
    requires RoomTotal(s) <= size
    ensures Bag(Packed(s, size)) == Bag(s)
  {
    hide Bag, Packed;
    PackedSame(s, size);
    BagSame(Packed(s, size), s);
  }

  lemma {:induction false} LiveBag(recs: seq<Rec>)
    requires forall i :: 0 <= i < |recs| && recs[i].inode != 0 ==> recs[i].name != []
    ensures Bag(Live(recs)) == Bag(recs)
  {
    if recs != [] {
      LiveBag(recs[1..]);
      if recs[0].inode != 0 {
        BagConcat([recs[0]], Live(recs[1..]));
        BagOne(recs[0]);
      } else {
        assert Live(recs) == Live(recs[1..]);
      }
    }
  }

  lemma {:induction false} LiveHas(recs: seq<Rec>, r: Rec)
    ensures r in Live(recs) ==> r in recs && r.inode != 0 && r.name != []
  {
    if recs != [] {
      LiveHas(recs[1..], r);
    }
  }

  function Without(b: seq<Rec>, i: nat): seq<Rec>
    requires i < |b|
  {
    b[..i] + b[i + 1..]
  }

  lemma TakenOut(b: seq<Rec>, i: nat)
    requires i < |b|
    ensures multiset(Without(b, i)) == multiset(b) - multiset{b[i]} && |Without(b, i)| == |b| - 1
  {
    assert b == b[..i] + [b[i]] + b[i + 1..];
  }

  lemma BagTaken(b: seq<Rec>, i: nat)
    requires i < |b|
    ensures Bag(b) == Bag(Without(b, i)) + Bag([b[i]])
  {
    hide Bag;
    assert b == b[..i] + [b[i]] + b[i + 1..];
    BagConcat(b[..i] + [b[i]], b[i + 1..]);
    BagConcat(b[..i], [b[i]]);
    BagConcat(b[..i], b[i + 1..]);
  }

  lemma IndexIn(b: seq<Rec>, r: Rec) returns (i: nat)
    requires r in multiset(b)
    ensures i < |b| && b[i] == r
  {
    i :| 0 <= i < |b| && b[i] == r;
  }

  /** In a permutation the first record stands somewhere, and without it the rest is a permutation. */
  lemma PermutedRest(a: seq<Rec>, b: seq<Rec>) returns (i: nat)
    requires multiset(a) == multiset(b) && a != []
    ensures i < |b| && b[i] == a[0] && multiset(Without(a, 0)) == multiset(Without(b, i)) && |Without(a, 0)| < |a|
  {
    hide Without;
    i := IndexIn(b, a[0]);
    TakenOut(a, 0);
    TakenOut(b, i);
  }

  lemma NonePermuted(b: seq<Rec>)
    requires multiset([]) == multiset(b)
    ensures b == []
  {
    assert |b| == |multiset(b)|;
  }

  /** Only the order of records changes: the bag does not. */
  lemma {:induction false} BagPermuted(a: seq<Rec>, b: seq<Rec>)
    requires multiset(a) == multiset(b)
    ensures Bag(a) == Bag(b)
    decreases |a|
  {
    hide Bag, Without;
    if a == [] {
      NonePermuted(b);
    } else {
      var i := PermutedRest(a, b);
      BagPermuted(Without(a, 0), Without(b, i));
      BagTaken(a, 0);
      BagTaken(b, i);
    }
  }

  ghost predicate StrictlyByHash(s: seq<Rec>, hash: HashFn) { forall i, j :: 0 <= i < j < |s| ==> hash(s[i].name) < hash(s[j].name) }

  /** Records with different hashes have one order only. */
  lemma {:induction false} OneOrder(a: seq<Rec>, b: seq<Rec>, hash: HashFn)
    requires multiset(a) == multiset(b) && ByHash(a, hash) && StrictlyByHash(b, hash)
    ensures a == b
    decreases |b|
  {
    hide ByHash, StrictlyByHash, Without;
    if b == [] {
      NonePermuted(a);
    } else {
      SameFirst(a, b, hash);
      FirstAndRest(a, hash);
      FirstAndRest(b, hash);
      OneOrder(Without(a, 0), Without(b, 0), hash);
    }
  }

  lemma FirstAndRest(a: seq<Rec>, hash: HashFn)
    requires a != []
    ensures a == [a[0]] + Without(a, 0) && |Without(a, 0)| == |a| - 1 && multiset(Without(a, 0)) == multiset(a) - multiset{a[0]}
    ensures ByHash(a, hash) ==> ByHash(Without(a, 0), hash)
    ensures StrictlyByHash(a, hash) ==> StrictlyByHash(Without(a, 0), hash)
  {
    hide ByHash, StrictlyByHash;
    TakenOut(a, 0);
    assert Without(a, 0) == a[1..];
    RestByHash(a, hash, a[1..]);
  }

  lemma RestByHash(a: seq<Rec>, hash: HashFn, rest: seq<Rec>)
    requires a != [] && |rest| == |a| - 1 && forall i :: 0 <= i < |rest| ==> rest[i] == a[i + 1]
    ensures ByHash(a, hash) ==> ByHash(rest, hash)
    ensures StrictlyByHash(a, hash) ==> StrictlyByHash(rest, hash)
  {
  }

  lemma SameFirst(a: seq<Rec>, b: seq<Rec>, hash: HashFn)
    requires multiset(a) == multiset(b) && ByHash(a, hash) && StrictlyByHash(b, hash) && b != []
    ensures a != [] && a[0] == b[0]
  {
    hide Without;
    var i := PermutedRest(b, a);
    var j := PermutedRest(a, b);
    assert hash(a[0].name) <= hash(a[i].name);
  }

  /** What qsort makes of the live records of a leaf. */
  ghost predicate SortOf(s: seq<Rec>, recs: seq<Rec>, hash: HashFn) { multiset(s) == multiset(Live(recs)) && ByHash(s, hash) }

  /** The key of the second half: its first hash, made odd when the first half ends with the same. */
  function SplitKey(s: seq<Rec>, hash: HashFn, mid: nat): nat
    requires 0 < mid < |s|
  {
    hash(s[mid].name) + if hash(s[mid].name) == hash(s[mid - 1].name) then 1 else 0
  }

  lemma SortedInRange(s: seq<Rec>, recs: seq<Rec>, size: nat, hash: HashFn, lo: nat, hi: nat)
    requires LeafOk(recs, size) && InRange(recs, hash, lo, hi) && SortOf(s, recs, hash)
    ensures Bag(s) == Bag(recs)
    ensures forall i :: 0 <= i < |s| ==> s[i].inode != 0 && s[i].name != [] && |s[i].name| < 256 && Low(lo) <= hash(s[i].name) < hi
  {
    hide Bag, Room, Total;
    LiveBag(recs);
    BagPermuted(s, Live(recs));
    forall i | 0 <= i < |s| ensures s[i].inode != 0 && s[i].name != [] && |s[i].name| < 256 && Low(lo) <= hash(s[i].name) < hi {
      assert s[i] in multiset(s) && s[i] in Live(recs);
      LiveHas(recs, s[i]);
    }
  }

  /** The two halves keep to either side of the new key, and the key lies between the old ones. */
  lemma SplitRanges(s: seq<Rec>, hash: HashFn, lo: nat, hi: nat, mid: nat)
    requires HashOk(hash) && ByHash(s, hash) && 0 < mid < |s| && hi <= TOP
    requires forall i :: 0 <= i < |s| ==> Low(lo) <= hash(s[i].name) < hi
    ensures var key := SplitKey(s, hash, mid); lo <= key <= hi && key < TOP
    ensures forall i :: 0 <= i < mid ==> Low(lo) <= hash(s[i].name) < SplitKey(s, hash, mid)
    ensures forall i :: mid <= i < |s| ==> Low(SplitKey(s, hash, mid)) <= hash(s[i].name) < hi
  {
    var key := SplitKey(s, hash, mid);
    assert hash(s[mid].name) % 2 == 0 && hash(s[mid - 1].name) % 2 == 0;
    assert Low(key) == hash(s[mid].name);
    assert hash(s[mid - 1].name) <= hash(s[mid].name) < TOP;
    forall i | 0 <= i < mid ensures hash(s[i].name) < key {
      assert i < mid - 1 ==> hash(s[i].name) <= hash(s[mid - 1].name);
    }
  }

  /** The leaves after one was split: its sorted records in two, the second half in a new leaf behind it. */
  function SplitFlat(flat: seq<DxEntry>, p: nat, key: nat, block: nat): seq<DxEntry>
    requires p < |flat|
  {
    flat[..p + 1] + [DxEntry(key, block)] + flat[p + 1..]
  }

  function SplitLeaves(leaves: map<nat, seq<Rec>>, old_block: nat, new_block: nat, left: seq<Rec>, right: seq<Rec>): map<nat, seq<Rec>> {
    leaves[old_block := left][new_block := right]
  }

  lemma SplitSorted(flat: seq<DxEntry>, p: nat, key: nat, block: nat)
    requires Sorted(flat) && DistinctBlocks(flat) && p < |flat| && flat[p].hash <= key <= KeyAfter(flat, p)
    requires forall q :: 0 <= q < |flat| ==> flat[q].block != block
    ensures Sorted(SplitFlat(flat, p, key, block)) && DistinctBlocks(SplitFlat(flat, p, key, block))
    ensures |SplitFlat(flat, p, key, block)| == |flat| + 1
    ensures forall q :: 0 <= q < |SplitFlat(flat, p, key, block)| ==>
      SplitFlat(flat, p, key, block)[q] == if q <= p then flat[q] else if q == p + 1 then DxEntry(key, block) else flat[q - 1]
  {
    if p + 1 < |flat| {
      assert KeyAfter(flat, p) == flat[p + 1].hash;
    }
  }

  lemma SplitBag(flat: seq<DxEntry>, leaves: map<nat, seq<Rec>>, p: nat, key: nat, block: nat, left: seq<Rec>, right: seq<Rec>)
    requires p < |flat| && DistinctBlocks(flat) && forall q :: 0 <= q < |flat| ==> flat[q].block != block
    ensures AllBag(SplitFlat(flat, p, key, block), SplitLeaves(leaves, flat[p].block, block, left, right)) + Bag(Leaf(leaves, flat[p].block))
         == AllBag(flat, leaves) + Bag(left) + Bag(right)
  {
    hide Bag, AllBag;
    var one := leaves[flat[p].block := left];
    var leaves' := one[block := right];
    var e := DxEntry(key, block);
    AllBagChanged(flat, leaves, p, left);
    AllBagOther(flat, one, block, right);
    assert flat == flat[..p + 1] + flat[p + 1..];
    AllBagConcat(flat[..p + 1], flat[p + 1..], leaves');
    AllBagConcat(flat[..p + 1] + [e], flat[p + 1..], leaves');
    AllBagConcat(flat[..p + 1], [e], leaves');
    AllBagOne(e, leaves');
  }

  lemma AllBagOne(e: DxEntry, leaves: map<nat, seq<Rec>>)
    ensures AllBag([e], leaves) == Bag(Leaf(leaves, e.block))
  {
    assert [e][1..] == [];
    assert AllBag([], leaves) == multiset{};
  }

  lemma SplitHalves(s: seq<Rec>, recs: seq<Rec>, size: nat, hash: HashFn, lo: nat, hi: nat, mid: nat)
    requires HashOk(hash) && LeafOk(recs, size) && InRange(recs, hash, lo, hi) && hi <= TOP && SortOf(s, recs, hash)
    requires 0 < mid < |s| && RoomTotal(s[..mid]) <= size && RoomTotal(s[mid..]) <= size
    ensures var key, left, right := SplitKey(s, hash, mid), Packed(s[..mid], size), Packed(s[mid..], size);
            && lo <= key <= hi && key < TOP && Bag(left) + Bag(right) == Bag(recs)
            && LeafOk(left, size) && InRange(left, hash, lo, key) && LeafOk(right, size) && InRange(right, hash, key, hi)
  {
    hide Bag, Packed, RoomTotal, SplitKey, Live, Total, Room;
    SortedInRange(s, recs, size, hash, lo, hi);
    SplitRanges(s, hash, lo, hi, mid);
    var key := SplitKey(s, hash, mid);
    assert s == s[..mid] + s[mid..];
    BagConcat(s[..mid], s[mid..]);
    HalfOk(s[..mid], size, hash, lo, key);
    HalfOk(s[mid..], size, hash, key, hi);
  }

  lemma HalfOk(s: seq<Rec>, size: nat, hash: HashFn, lo: nat, hi: nat)
    requires s != [] && RoomTotal(s) <= size
    requires forall i :: 0 <= i < |s| ==> s[i].inode != 0 && s[i].name != [] && |s[i].name| < 256 && Low(lo) <= hash(s[i].name) < hi
    ensures LeafOk(Packed(s, size), size) && InRange(Packed(s, size), hash, lo, hi) && Bag(Packed(s, size)) == Bag(s)
  {
    hide Bag, Packed, RoomTotal, Total, Room;
    PackedSame(s, size);
    PackedTotal(s, size);
    PackedBag(s, size);
  }

  lemma SplitFitsAt(flat: seq<DxEntry>, leaves: map<nat, seq<Rec>>, hash: HashFn, size: nat, p: nat, key: nat, block: nat,
                    left: seq<Rec>, right: seq<Rec>, q: nat)
    requires Ordered(flat, leaves, hash, size) && p < |flat| && forall q :: 0 <= q < |flat| ==> flat[q].block != block
    requires key < TOP && LeafOk(left, size) && InRange(left, hash, flat[p].hash, key)
    requires LeafOk(right, size) && InRange(right, hash, key, KeyAfter(flat, p)) && q < |SplitFlat(flat, p, key, block)|
    ensures LeafFits(SplitFlat(flat, p, key, block), SplitLeaves(leaves, flat[p].block, block, left, right), hash, size, q)
  {
    hide LeafOk, InRange, Sorted;
    var flat' := SplitFlat(flat, p, key, block);
    assert LeafFits(flat, leaves, hash, size, if q <= p then q else q - 1);
    if q < p {
      assert flat'[q] == flat[q] && flat'[q + 1] == flat[q + 1] && flat[q].block != flat[p].block;
    } else if q == p {
      assert flat'[q] == flat[q] && flat'[q + 1] == DxEntry(key, block) && flat[p].block != block;
    } else if q == p + 1 {
      assert flat'[q] == DxEntry(key, block) && (q + 1 < |flat'| ==> flat'[q + 1] == flat[q]);
    } else {
      assert flat'[q] == flat[q - 1] && (q + 1 < |flat'| ==> flat'[q + 1] == flat[q]) && flat[q - 1].block != flat[p].block;
    }
  }

  /** Splitting a leaf keeps the order and the names, when neither half is empty. */
  lemma SplitKeeps(flat: seq<DxEntry>, leaves: map<nat, seq<Rec>>, hash: HashFn, size: nat, p: nat, s: seq<Rec>, mid: nat, block: nat)
    requires HashOk(hash) && Ordered(flat, leaves, hash, size) && p < |flat| && forall q :: 0 <= q < |flat| ==> flat[q].block != block
    requires SortOf(s, Leaf(leaves, flat[p].block), hash) && 0 < mid < |s| && RoomTotal(s[..mid]) <= size && RoomTotal(s[mid..]) <= size
    ensures var flat' := SplitFlat(flat, p, SplitKey(s, hash, mid), block);
            var leaves' := SplitLeaves(leaves, flat[p].block, block, Packed(s[..mid], size), Packed(s[mid..], size));
            Ordered(flat', leaves', hash, size) && AllBag(flat', leaves') == AllBag(flat, leaves)
  {
    hide Bag, AllBag, LeafOk, InRange, SortOf, Live, Packed, RoomTotal, Sorted, DistinctBlocks, SplitKey;
    var leaf := Leaf(leaves, flat[p].block);
    var left, right := Packed(s[..mid], size), Packed(s[mid..], size);
    var key := SplitKey(s, hash, mid);
    assert LeafFits(flat, leaves, hash, size, p);
    KeyAfterTop(flat, leaves, hash, size, p);
    SplitHalves(s, leaf, size, hash, flat[p].hash, KeyAfter(flat, p), mid);
    SplitSorted(flat, p, key, block);
    SplitBag(flat, leaves, p, key, block, left, right);
    var flat' := SplitFlat(flat, p, key, block);
    var leaves' := SplitLeaves(leaves, flat[p].block, block, left, right);
    forall q | 0 <= q < |flat'| ensures LeafFits(flat', leaves', hash, size, q) {
      SplitFitsAt(flat, leaves, hash, size, p, key, block, left, right, q);
    }
    assert flat'[0] == flat[0];
    Cancel(AllBag(flat', leaves'), AllBag(flat, leaves), Bag(left), Bag(right), Bag(leaf));
  }

  lemma Cancel<T>(x: multiset<T>, y: multiset<T>, a: multiset<T>, b: multiset<T>, c: multiset<T>)
    requires x + c == y + a + b && a + b == c
    ensures x == y
  {
    assert x == (x + c) - c && y == (y + c) - c;
    assert y + a + b == y + c;
  }

  /** The key behind a leaf, which never exceeds the largest. */
  lemma KeyAfterTop(flat: seq<DxEntry>, leaves: map<nat, seq<Rec>>, hash: HashFn, size: nat, p: nat)
    requires Ordered(flat, leaves, hash, size) && p < |flat|
    ensures KeyAfter(flat, p) <= TOP
  {
    if p + 1 < |flat| {
      assert LeafFits(flat, leaves, hash, size, p + 1);
    }
  }

  // ----- where a leaf is split -----

  lemma {:induction false} RoomConcat(a: seq<Rec>, b: seq<Rec>)
    ensures RoomTotal(a + b) == RoomTotal(a) + RoomTotal(b)
  {
    hide Room;
    if a == [] {
      assert a + b == b;
    } else {
      assert (a + b)[1..] == a[1..] + b;
      RoomConcat(a[1..], b);
    }
  }

  lemma RoomOne(r: Rec)
    ensures RoomTotal([r]) == Room(|r.name|)
  {
    assert [r][1..] == [];
  }

  lemma {:induction false} RoomPermuted(a: seq<Rec>, b: seq<Rec>)
    requires multiset(a) == multiset(b)
    ensures RoomTotal(a) == RoomTotal(b)
    decreases |a|
  {
    hide RoomTotal, Without;
    if a == [] {
      NonePermuted(b);
    } else {
      var i := PermutedRest(a, b);
      RoomPermuted(Without(a, 0), Without(b, i));
      RoomTaken(a, 0);
      RoomTaken(b, i);
    }
  }

  lemma RoomTaken(b: seq<Rec>, i: nat)
    requires i < |b|
    ensures RoomTotal(b) == RoomTotal(Without(b, i)) + RoomTotal([b[i]])
  {
    hide RoomTotal;
    assert b == b[..i] + [b[i]] + b[i + 1..];
    RoomConcat(b[..i] + [b[i]], b[i + 1..]);
    RoomConcat(b[..i], [b[i]]);
    RoomConcat(b[..i], b[i + 1..]);
  }

  lemma {:induction false} LiveRoom(recs: seq<Rec>)
    requires forall i :: 0 <= i < |recs| ==> Room(|recs[i].name|) <= recs[i].len
    ensures RoomTotal(Live(recs)) <= Total(recs)
  {
    hide Room;
    if recs != [] {
      LiveRoom(recs[1..]);
      RoomConcat([recs[0]], Live(recs[1..]));
      RoomOne(recs[0]);
      assert [] + Live(recs[1..]) == Live(recs[1..]);
    }
  }

  lemma SortRoom(s: seq<Rec>, recs: seq<Rec>, size: nat, hash: HashFn)
    requires LeafOk(recs, size) && SortOf(s, recs, hash)
    ensures RoomTotal(s) <= size && RoomTotal(s) == RoomTotal(Live(recs))
  {
    hide Room;
    LiveRoom(recs);
    RoomPermuted(s, Live(recs));
  }

  /** The first record with which the first half would have more than half a block; 0 if there is none. */
  ghost predicate IsMid(s: seq<Rec>, half: nat, mid: nat) {
    if RoomTotal(s) > half then mid < |s| && RoomTotal(s[..mid]) <= half < RoomTotal(s[..mid + 1]) else mid == 0
  }

  /** Names are short against a block: where there is more than half a block of them both halves get some. */
  lemma MidInside(s: seq<Rec>, half: nat, mid: nat)
    requires IsMid(s, half, mid) && half >= 512 && forall i :: 0 <= i < |s| ==> |s[i].name| < 256
    ensures mid > 0 <==> RoomTotal(s) > half
  {
    if s != [] {
      RoomOne(s[0]);
      RoomAtMost(|s[0].name|);
      assert s[..1] == [s[0]];
    }
  }

  /** The first half leaves half a block; the second may leave less than one long name needs, but less than 264 bytes less. */
  lemma HalvesRoom(s: seq<Rec>, size: nat, mid: nat)
    requires IsMid(s, size / 2, mid) && RoomTotal(s) <= size && 0 < mid < |s| && forall i :: 0 <= i < |s| ==> |s[i].name| < 256
    ensures RoomTotal(s[..mid]) <= size / 2 && RoomTotal(s[..mid]) + RoomTotal(s[mid..]) == RoomTotal(s)
    ensures RoomTotal(s[mid..]) < size - size / 2 + 264
  {
    hide RoomTotal, Room;
    assert s == s[..mid] + s[mid..] && s[..mid + 1] == s[..mid] + [s[mid]];
    RoomConcat(s[..mid], s[mid..]);
    RoomConcat(s[..mid], [s[mid]]);
    RoomOne(s[mid]);
    RoomAtMost(|s[mid].name|);
  }

  lemma RoomAtMost(n: nat)
    requires n < 256
    ensures Room(n) <= 264
  {
  }

  // ----- a name put into a half -----

  lemma {:induction false} PackedFits(s: seq<Rec>, size: nat, required: nat)
    requires s != [] && RoomTotal(s) <= size && required > 0 && forall i :: 0 <= i < |s| ==> s[i].inode != 0
    ensures NoneFits(Packed(s, size), required) <==> RoomTotal(s) + required > size
  {
    hide Room;
    var t := Packed(s, size);
    if |s| == 1 {
      assert s[1..] == [];
      assert t == [s[0].(len := size)];
      assert NoneFits(t, required) <==> !Fits(t[0], required);
    } else {
      var rest, room := s[1..], Room(|s[0].name|);
      PackedFits(rest, size - room, required);
      var u := Packed(rest, size - room);
      assert t == [t[0]] + u && !Fits(t[0], required);
      NoneFitsCons(t[0], u, required);
    }
  }

  lemma NoneFitsCons(r: Rec, u: seq<Rec>, required: nat)
    requires !Fits(r, required)
    ensures NoneFits([r] + u, required) <==> NoneFits(u, required)
  {
    var t := [r] + u;
    if NoneFits(t, required) {
      forall i | 0 <= i < |u| ensures !Fits(u[i], required) {
        assert t[i + 1] == u[i];
      }
    }
  }

  /** A name put into a leaf: the directory has it besides the others. */
  lemma NamePutBag(flat: seq<DxEntry>, leaves: map<nat, seq<Rec>>, p: nat, at: nat, x: Rec)
    requires DistinctBlocks(flat) && p < |flat| && at < |Leaf(leaves, flat[p].block)| && x.inode != 0
    requires Fits(Leaf(leaves, flat[p].block)[at], Room(|x.name|))
    ensures AllBag(flat, leaves[flat[p].block := Inserted(Leaf(leaves, flat[p].block), at, x)]) == AllBag(flat, leaves) + multiset{(x.name, x.inode)}
  {
    hide Bag, AllBag, Inserted, Fits, Room;
    var recs := Leaf(leaves, flat[p].block);
    BagInserted(recs, at, x, Room(|x.name|));
    AllBagChanged(flat, leaves, p, Inserted(recs, at, x));
    CancelOne(AllBag(flat, leaves[flat[p].block := Inserted(recs, at, x)]), AllBag(flat, leaves), Bag(recs), multiset{(x.name, x.inode)});
  }

  /** The order stays when the leaf's range has the hash. */
  lemma NamePut(flat: seq<DxEntry>, leaves: map<nat, seq<Rec>>, hash: HashFn, size: nat, p: nat, at: nat, x: Rec)
    requires Ordered(flat, leaves, hash, size) && p < |flat| && at < |Leaf(leaves, flat[p].block)|
    requires Fits(Leaf(leaves, flat[p].block)[at], Room(|x.name|)) && |x.name| < 256 && x.name != []
    requires flat[p].hash <= hash(x.name) < KeyAfter(flat, p)
    ensures Ordered(flat, leaves[flat[p].block := Inserted(Leaf(leaves, flat[p].block), at, x)], hash, size)
  {
    hide LeafOk, InRange, Inserted, Fits, Room, Sorted;
    var recs := Leaf(leaves, flat[p].block);
    assert LeafFits(flat, leaves, hash, size, p);
    LeafInserted(recs, size, hash, flat[p].hash, KeyAfter(flat, p), at, x);
    LeafReplaced(flat, leaves, hash, size, p, Inserted(recs, at, x));
  }

  lemma CancelOne<T>(x: multiset<T>, y: multiset<T>, a: multiset<T>, b: multiset<T>)
    requires x + a == y + (a + b)
    ensures x == y + b
  {
    assert x == (x + a) - a && y + b == (y + (a + b)) - a;
  }

  /** The key behind the last leaf that may begin with a hash is larger. */
  lemma LastBelow(flat: seq<DxEntry>, h: nat, p: nat)
    requires LastAtMost(flat, h, p) && h < TOP
    ensures p < |flat| && flat[p].hash <= h < KeyAfter(flat, p)
  {
  }

  // ----- the outcome of a split -----

  /** What the two blocks hold: without a first half the old block stays and the new one gets all records as well. */
  function FirstHalf(s: seq<Rec>, mid: nat, size: nat, recs: seq<Rec>): seq<Rec>
    requires mid <= |s| && RoomTotal(s[..mid]) <= size
  {
    if mid > 0 then Packed(s[..mid], size) else recs
  }

  function SecondHalf(s: seq<Rec>, mid: nat, size: nat, stale: seq<Rec>): seq<Rec>
    requires mid <= |s| && RoomTotal(s[mid..]) <= size
  {
    if s != [] then Packed(s[mid..], size) else stale
  }

  lemma HalvesFit(s: seq<Rec>, recs: seq<Rec>, size: nat, hash: HashFn, mid: nat)
    requires LeafOk(recs, size) && SortOf(s, recs, hash) && mid <= |s|
    ensures RoomTotal(s[..mid]) <= size && RoomTotal(s[mid..]) <= size && RoomTotal(s) <= size && RoomTotal(s) == RoomTotal(Live(recs))
  {
    hide RoomTotal, LeafOk, SortOf, Live;
    SortRoom(s, recs, size, hash);
    assert s == s[..mid] + s[mid..];
    RoomConcat(s[..mid], s[mid..]);
  }

  /** Without a first half every name of the old block is in the directory once more. */
  lemma SplitDoubles(flat: seq<DxEntry>, leaves: map<nat, seq<Rec>>, hash: HashFn, size: nat, p: nat,
                     s: seq<Rec>, key: nat, block: nat, stale: seq<Rec>)
    requires Ordered(flat, leaves, hash, size) && p < |flat| && forall q :: 0 <= q < |flat| ==> flat[q].block != block
    requires SortOf(s, Leaf(leaves, flat[p].block), hash) && RoomTotal(s[0..]) <= size
    ensures var leaf := Leaf(leaves, flat[p].block);
            AllBag(SplitFlat(flat, p, key, block), SplitLeaves(leaves, flat[p].block, block, leaf, SecondHalf(s, 0, size, stale)))
              == AllBag(flat, leaves) + Bag(if s == [] then stale else leaf)
  {
    hide Bag, AllBag, LeafOk, InRange, SortOf, Live, Packed, RoomTotal, Sorted;
    var leaf := Leaf(leaves, flat[p].block);
    var right := SecondHalf(s, 0, size, stale);
    assert LeafFits(flat, leaves, hash, size, p);
    SplitBag(flat, leaves, p, key, block, leaf, right);
    assert s[0..] == s;
    if s != [] {
      SortedInRange(s, leaf, size, hash, flat[p].hash, KeyAfter(flat, p));
      PackedBag(s, size);
    }
    var b := AllBag(SplitFlat(flat, p, key, block), SplitLeaves(leaves, flat[p].block, block, leaf, right));
    assert b + Bag(leaf) == AllBag(flat, leaves) + Bag(leaf) + Bag(right);
    CancelOne(b, AllBag(flat, leaves), Bag(leaf), Bag(right));
  }

  // ----- a name taken out of its leaf -----

  lemma LeafRemoved(recs: seq<Rec>, size: nat, hash: HashFn, lo: nat, hi: nat, i: nat)
    requires LeafOk(recs, size) && InRange(recs, hash, lo, hi) && i < |recs|
    ensures LeafOk(Removed(recs, i), size) && InRange(Removed(recs, i), hash, lo, hi)
  {
    hide Total, Room;
    var s := Removed(recs, i);
    TotalRemoved(recs, i);
    forall j | 0 <= j < |s|
      ensures Room(|s[j].name|) <= s[j].len && |s[j].name| < 256 && (s[j].inode != 0 ==> s[j].name != [] && Low(lo) <= hash(s[j].name) < hi)
    {
      var was := if i == 0 || j < i then j else j + 1;
      assert s[j].name == recs[was].name && s[j].len >= recs[was].len && (s[j].inode == recs[was].inode || s[j].inode == 0);
    }
  }

  lemma RemovedParts(recs: seq<Rec>, i: nat)
    requires i < |recs|
    ensures i == 0 ==> recs == [recs[0]] + recs[1..] && Removed(recs, 0) == [recs[0].(inode := 0)] + recs[1..]
    ensures i > 0 ==> recs == recs[..i - 1] + ([recs[i - 1]] + ([recs[i]] + recs[i + 1..]))
    ensures i > 0 ==> Removed(recs, i) == recs[..i - 1] + ([recs[i - 1].(len := recs[i - 1].len + recs[i].len)] + recs[i + 1..])
  {
  }

  lemma TotalNext(r: Rec, rest: seq<Rec>)
    ensures Total([r] + rest) == r.len + Total(rest)
  {
    assert ([r] + rest)[1..] == rest;
  }

  lemma BagNext(r: Rec, rest: seq<Rec>)
    ensures Bag([r] + rest) == (if r.inode != 0 then multiset{(r.name, r.inode)} else multiset{}) + Bag(rest)
  {
    assert ([r] + rest)[1..] == rest;
  }

  lemma TotalRemoved(recs: seq<Rec>, i: nat)
    requires i < |recs|
    ensures Total(Removed(recs, i)) == Total(recs)
  {
    hide Total, Removed;
    RemovedParts(recs, i);
    if i == 0 {
      TotalNext(recs[0], recs[1..]);
      TotalNext(recs[0].(inode := 0), recs[1..]);
    } else {
      var a, b, pred, r := recs[..i - 1], recs[i + 1..], recs[i - 1], recs[i];
      var grown := pred.(len := pred.len + r.len);
      TotalConcat(a, [pred] + ([r] + b));
      TotalNext(pred, [r] + b);
      TotalNext(r, b);
      TotalConcat(a, [grown] + b);
      TotalNext(grown, b);
    }
  }

  lemma BagRemoved(recs: seq<Rec>, i: nat)
    requires i < |recs| && recs[i].inode != 0
    ensures Bag(recs) == Bag(Removed(recs, i)) + multiset{(recs[i].name, recs[i].inode)}
  {
    hide Bag, Removed;
    RemovedParts(recs, i);
    if i == 0 {
      BagNext(recs[0], recs[1..]);
      BagNext(recs[0].(inode := 0), recs[1..]);
    } else {
      var a, b, pred, r := recs[..i - 1], recs[i + 1..], recs[i - 1], recs[i];
      var grown := pred.(len := pred.len + r.len);
      BagConcat(a, [pred] + ([r] + b));
      BagNext(pred, [r] + b);
      BagNext(r, b);
      BagConcat(a, [grown] + b);
      BagNext(grown, b);
    }
  }

  /** A name taken out of a leaf: the order stays, and the directory has all others. */
  lemma NameTaken(flat: seq<DxEntry>, leaves: map<nat, seq<Rec>>, hash: HashFn, size: nat, p: nat, k: nat)
    requires Ordered(flat, leaves, hash, size) && p < |flat| && k < |Leaf(leaves, flat[p].block)| && Leaf(leaves, flat[p].block)[k].inode != 0
    ensures var r, leaves' := Leaf(leaves, flat[p].block)[k], leaves[flat[p].block := Removed(Leaf(leaves, flat[p].block), k)];
            Ordered(flat, leaves', hash, size) && AllBag(flat, leaves) == AllBag(flat, leaves') + multiset{(r.name, r.inode)}
  {
    hide Bag, AllBag, LeafOk, InRange, Removed, Sorted;
    var recs := Leaf(leaves, flat[p].block);
    var recs' := Removed(recs, k);
    var x := multiset{(recs[k].name, recs[k].inode)};
    var all, all' := AllBag(flat, leaves), AllBag(flat, leaves[flat[p].block := recs']);
    assert LeafFits(flat, leaves, hash, size, p);
    LeafRemoved(recs, size, hash, flat[p].hash, KeyAfter(flat, p), k);
    LeafReplaced(flat, leaves, hash, size, p, recs');
    BagRemoved(recs, k);
    AllBagChanged(flat, leaves, p, recs');
    assert all + Bag(recs') == all' + (Bag(recs') + x);
    CancelOne(all, all', Bag(recs'), x);
  }
}

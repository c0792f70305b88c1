/** Directories that reach the states in which splitting a leaf fails. */
module DirIndexRuns {
  import opened DirRecords
  import opened HashOrder
  import opened BlockSupply
  import opened DirIndex

  function Named(k: Byte, nameLen: nat): Rec { Rec(1 + k as int, Room(nameLen), 1, seq(nameLen, _ => k)) }

  /** Hashes by the first letter. */
  function FirstLetter(name: seq<Byte>): nat { if name == [] then 0 else 2 * (name[0] as int) }

  lemma TotalsNext(r: Rec, rest: seq<Rec>)
    requires r.inode != 0 && r.name != []
    ensures RoomTotal([r] + rest) == Room(|r.name|) + RoomTotal(rest) && Total([r] + rest) == r.len + Total(rest)
    ensures Live([r] + rest) == [r] + Live(rest)
  {
    assert ([r] + rest)[1..] == rest;
  }

  lemma NamedIs(k: Byte, nameLen: nat)
    requires 0 < nameLen
    ensures var r := Named(k, nameLen); r.inode != 0 && |r.name| == nameLen && r.len == Room(nameLen) && FirstLetter(r.name) == 2 * (k as int)
  {
  }

  lemma Rooms()
    ensures Room(244) == 252 && Room(255) == 264 && Room(236) == 244
  {
  }

  /** Four names that fill a block of 1 KB. */
  function LongNames(): seq<Rec> { [Named(1, 244)] + ([Named(2, 255)] + ([Named(3, 255)] + ([Named(4, 236)] + []))) }

  lemma LongNamesFill()
    ensures LeafOk(LongNames(), 1024) && NoneFits(LongNames(), 264) && Live(LongNames()) == LongNames() && RoomTotal(LongNames()) == 1024
    ensures HashOk(FirstLetter) && ByHash(LongNames(), FirstLetter) && |LongNames()| == 4
  {
    hide Room, Named, Live, RoomTotal, Total;
    var a, b, c, d := Named(1, 244), Named(2, 255), Named(3, 255), Named(4, 236);
    Rooms();
    NamedIs(1, 244);
    NamedIs(2, 255);
    NamedIs(3, 255);
    NamedIs(4, 236);
    TotalsNext(a, [b] + ([c] + ([d] + [])));
    TotalsNext(b, [c] + ([d] + []));
    TotalsNext(c, [d] + []);
    TotalsNext(d, []);
    NoTotals();
  }

  lemma NoTotals()
    ensures RoomTotal([]) == 0 && Total([]) == 0 && Live([]) == []
  {
  }

  // ----- a directory of one leaf -----

  /** A directory with blocks of 1 KB whose only leaf has these records. */
  ghost predicate OneLeaf(t: HTree, recs: seq<Rec>)
    reads t
  {
    && t.Valid() && t.size == 1024 && t.hash == FirstLetter && t.levels == 0 && t.root == [DxEntry(0, 1)] == t.List()
    && t.leaves == map[1 := recs]
  }

  method Fresh() returns (t: HTree)
    ensures fresh(t) && OneLeaf(t, [Rec(0, 1024, 0, [])]) && t.Names() == multiset{}
  {
    LettersOk();
    t := new HTree(1024, FirstLetter, 1, []);
  }

  lemma LettersOk()
    ensures HashOk(FirstLetter)
  {
  }

  /** Only one record can be the first with room. */
  lemma FirstFitIs(recs: seq<Rec>, x: Rec, recs': seq<Rec>, at: nat)
    requires FirstFit(recs, x, recs') && at < |recs| && Fits(recs[at], Room(|x.name|)) && NoneFits(recs[..at], Room(|x.name|))
    ensures recs' == Inserted(recs, at, x)
  {
    hide Inserted, Fits, Room;
    var k :| 0 <= k < |recs| && Fits(recs[k], Room(|x.name|)) && NoneFits(recs[..k], Room(|x.name|)) && recs' == Inserted(recs, k, x);
    NotBefore(recs, Room(|x.name|), at, k);
    NotBefore(recs, Room(|x.name|), k, at);
  }

  lemma NotBefore(recs: seq<Rec>, required: nat, a: nat, b: nat)
    requires a < |recs| && b <= |recs| && Fits(recs[a], required) && NoneFits(recs[..b], required)
    ensures b <= a
  {
    var front := recs[..b];
    assert forall k :: 0 <= k < b ==> front[k] == recs[k];
  }

  /** A name for which record at has room first. */
  method AddShort(t: HTree, x: Rec, ghost recs: seq<Rec>, ghost at: nat)
    requires OneLeaf(t, recs) && x.inode != 0 && x.name != [] && |x.name| < 256 && x.kind == 1
    requires at < |recs| && Fits(recs[at], Room(|x.name|)) && NoneFits(recs[..at], Room(|x.name|))
    modifies t
    ensures OneLeaf(t, Inserted(recs, at, x.(len := 0))) && t.Names() == old(t.Names()) + multiset{(x.name, x.inode)}
  {
    hide Fits, Room, Inserted, NoneFits, FirstFit, Ordered, AllBag, RoomTotal, Live, SortOf, IsMid, TooBig;
    var src := new BlockSource([]);
    NotCrowded(recs, Room(|x.name|), at);
    ghost var how, i, j, s, mid, key, block;
    var err;
    err, how, i, j, s, mid, key, block := t.AddEntry(x.name, x.inode, 1, 0, [], src);
    FirstFitIs(recs, x.(len := 0), t.leaves[1], at);
  }

  lemma NotCrowded(recs: seq<Rec>, required: nat, at: nat)
    requires at < |recs| && Fits(recs[at], required)
    ensures !NoneFits(recs, required)
  {
  }

  // ----- a name is lost -----

  lemma LongNamesGrow()
    ensures var a, b, c, d := Named(1, 244), Named(2, 255), Named(3, 255), Named(4, 236);
            && Inserted([Rec(0, 1024, 0, [])], 0, a.(len := 0)) == [a.(len := 1024)]
            && Inserted([a.(len := 1024)], 0, b.(len := 0)) == [a, b.(len := 772)]
            && Inserted([a, b.(len := 772)], 1, c.(len := 0)) == [a, b, c.(len := 508)]
            && Inserted([a, b, c.(len := 508)], 2, d.(len := 0)) == LongNames()
    ensures NoneFits([Named(1, 244)], 264) && NoneFits([Named(1, 244), Named(2, 255)], 244)
    ensures ByHash(LongNames(), FirstLetter) && StrictlyByHash(LongNames(), FirstLetter)
  {
    hide Room, Named, FirstLetter;
    Rooms();
    NamedIs(1, 244);
    NamedIs(2, 255);
    NamedIs(3, 255);
    NamedIs(4, 236);
  }

  /** The middle of the four is behind the first one. */
  lemma LongNamesMid(mid: nat)
    requires IsMid(LongNames(), 512, mid)
    ensures mid == 1
  {
    hide Room, Named, RoomTotal;
    var a, b, c, d := Named(1, 244), Named(2, 255), Named(3, 255), Named(4, 236);
    var s := LongNames();
    Rooms();
    NamedIs(1, 244);
    NamedIs(2, 255);
    NamedIs(3, 255);
    NamedIs(4, 236);
    LongNamesFill();
    RoomOne(a);
    RoomOne(b);
    RoomConcat([a], [b]);
    assert s[..1] == [a] && s[..2] == [a] + [b] && s[..3] == s[..2] + [c];
    RoomConcat(s[..2], [c]);
  }

  /** With the middle there the second half has no room for a fifth long name. */
  lemma FifthTooBig(x: Rec)
    requires x.name == Named(5, 255).name
    ensures TooBig(x, LongNames(), FirstLetter, 1, 1024)
  {
    hide Room, Named, RoomTotal, FirstLetter;
    var a, b, c, d := Named(1, 244), Named(2, 255), Named(3, 255), Named(4, 236);
    var s := LongNames();
    Rooms();
    NamedIs(1, 244);
    NamedIs(2, 255);
    NamedIs(3, 255);
    NamedIs(4, 236);
    NamedIs(5, 255);
    LongNamesFill();
    RoomOne(a);
    assert s == [a] + s[1..];
    RoomConcat([a], s[1..]);
  }

  /** Four long names fill the only leaf. */
  method Filled() returns (t: HTree)
    ensures fresh(t) && OneLeaf(t, LongNames())
    ensures forall inode: nat :: (Named(5, 255).name, inode) !in t.Names()
  {
    hide Room, Named, FirstLetter, Fits, Inserted, AllBag, LongNames, Ordered, NoneFits;
    t := Fresh();
    ghost var a, b, c, d := Named(1, 244), Named(2, 255), Named(3, 255), Named(4, 236);
    Names5();
    Rooms();
    LongNamesGrow();
    RoomToSpare();
    AddShort(t, Named(1, 244), [Rec(0, 1024, 0, [])], 0);
    AddShort(t, Named(2, 255), [a.(len := 1024)], 0);
    assert [a, b.(len := 772)][..1] == [a] && [a, b, c.(len := 508)][..2] == [a, b];
    AddShort(t, Named(3, 255), [a, b.(len := 772)], 1);
    AddShort(t, Named(4, 236), [a, b, c.(len := 508)], 2);
  }

  /**
   Then a fifth one comes whose hash is the largest; the leaf is split behind its first name, and the second half has no
   room.  The call reports success, but the directory does not have the name.
   */
  method LosesName() returns (t: HTree, err: Error)
    ensures err == EOK && t.Valid() && forall inode: nat :: (Named(5, 255).name, inode) !in t.Names()
  {
    hide Room, Named, FirstLetter, AllBag, RoomTotal, Live, SortOf, IsMid, TooBig, LongNames, Ordered, FirstFit;
    t := Filled();
    Names5();
    Rooms();
    LongNamesFill();
    var src := new BlockSource([2]);
    ghost var how, i, j, s, mid, key, block;
    err, how, i, j, s, mid, key, block := t.AddEntry(Named(5, 255).name, 6, 1, 0, [], src);
    SortIs(s);
    LongNamesMid(mid);
    FifthTooBig(Rec(6, 0, 1, Named(5, 255).name));
  }

  lemma SortIs(s: seq<Rec>)
    requires SortOf(s, LongNames(), FirstLetter)
    ensures s == LongNames()
  {
    hide LongNames, Live, ByHash, StrictlyByHash;
    LongNamesFill();
    LongNamesGrow();
    OneOrder(s, LongNames(), FirstLetter);
  }

  lemma Names5()
    ensures var a, b, c, d, e := Named(1, 244), Named(2, 255), Named(3, 255), Named(4, 236), Named(5, 255);
            && a.kind == b.kind == c.kind == d.kind == 1 && a.inode == 2 && b.inode == 3 && c.inode == 4 && d.inode == 5
            && |a.name| == 244 && |b.name| == |c.name| == |e.name| == 255 && |d.name| == 236
            && e.name != a.name && e.name != b.name && e.name != c.name && e.name != d.name
  {
    assert Named(5, 255).name[0] == 5 && Named(2, 255).name[0] == 2 && Named(3, 255).name[0] == 3;
  }

  lemma RoomToSpare()
    ensures Fits(Rec(0, 1024, 0, []), 252) && Fits(Named(1, 244).(len := 1024), 264) && Fits(Named(2, 255).(len := 772), 264)
    ensures Fits(Named(3, 255).(len := 508), 244) && NoneFits([], 252) && NoneFits([], 264)
  {
    hide Room, Named;
    Rooms();
    NamedIs(1, 244);
    NamedIs(2, 255);
    NamedIs(3, 255);
  }

  // ----- names are doubled -----

  /** Two names, each followed by almost as many free bytes: no room for a long name, yet nothing to split. */
  function TwoApart(): seq<Rec> { [Named(1, 248).(len := 512)] + ([Named(3, 248).(len := 512)] + []) }

  lemma TwoApartFacts()
    ensures NoneFits(TwoApart(), 264) && Live(TwoApart()) == TwoApart() && RoomTotal(TwoApart()) == 512 && TwoApart() != []
    ensures (Named(1, 248).name, 2) in Bag(TwoApart())
  {
    hide Named, Room, Live, RoomTotal, Bag;
    var a, b := Named(1, 248).(len := 512), Named(3, 248).(len := 512);
    RoomOf248();
    NamedIs(1, 248);
    NamedIs(3, 248);
    TotalsNext(a, [b] + []);
    TotalsNext(b, []);
    NoTotals();
    KindAndInode();
    assert TwoApart()[0] == a;
    BagHas(TwoApart(), a.name, 2);
  }

  lemma RoomOf248()
    ensures Room(248) == 256
  {
  }

  lemma KindAndInode()
    ensures var a, f, b := Named(1, 248), Named(2, 248), Named(3, 248);
            && a.kind == f.kind == b.kind == 1 && a.inode == 2 && f.inode == 3 && b.inode == 4
            && |a.name| == |f.name| == |b.name| == 248 && f.name != a.name && f.name != b.name
  {
    assert Named(1, 248).name[0] == 1 && Named(2, 248).name[0] == 2 && Named(3, 248).name[0] == 3;
  }

  lemma TwoApartGrow()
    ensures var a, f, b := Named(1, 248), Named(2, 248), Named(3, 248);
            && Inserted([Rec(0, 1024, 0, [])], 0, a.(len := 0)) == [a.(len := 1024)]
            && Inserted([a.(len := 1024)], 0, f.(len := 0)) == [a, f.(len := 768)]
            && Inserted([a, f.(len := 768)], 1, b.(len := 0)) == [a, f, b.(len := 512)]
            && Removed([a, f, b.(len := 512)], 1) == TwoApart()
            && NoneFits([a], 256) && NoneFits([], 256) && Fits(Rec(0, 1024, 0, []), 256) && Fits(a.(len := 1024), 256) && Fits(f.(len := 768), 256)
  {
    hide Named, Room;
    RoomOf248();
    NamedIs(1, 248);
    NamedIs(2, 248);
    NamedIs(3, 248);
  }

  method Apart() returns (t: HTree)
    ensures fresh(t) && OneLeaf(t, TwoApart()) && (Named(1, 248).name, 2) in t.Names()
  {
    hide Room, Named, FirstLetter, Fits, Inserted, Removed, AllBag, TwoApart, Ordered, NoneFits;
    t := Fresh();
    ghost var a, f, b := Named(1, 248), Named(2, 248), Named(3, 248);
    KindAndInode();
    RoomOf248();
    TwoApartGrow();
    AddShort(t, Named(1, 248), [Rec(0, 1024, 0, [])], 0);
    AddShort(t, Named(2, 248), [a.(len := 1024)], 0);
    assert [a, f.(len := 768)][..1] == [a];
    AddShort(t, Named(3, 248), [a, f.(len := 768)], 1);
    ghost var recs, names := [a, f, b.(len := 512)], t.Names();
    assert (f.name, 3) in names && (a.name, 2) in names;
    ghost var inode;
    var err;
    err, inode := t.RemoveEntry(Named(2, 248).name);
    assert names == t.Names() + multiset{(f.name, inode)};
    MiddleGone(t.leaves, inode);
  }

  lemma MiddleGone(leaves: map<nat, seq<Rec>>, inode: nat)
    requires var a, f, b := Named(1, 248), Named(2, 248), Named(3, 248);
             OneGone(map[1 := [a, f, b.(len := 512)]], leaves, f.name, inode)
    ensures leaves == map[1 := TwoApart()]
  {
    hide Named, Removed, TwoApart;
    KindAndInode();
    TwoApartGrow();
  }

  /** Then a long name comes: the leaf is copied, and what it holds is in the directory twice. */
  method DoublesNames() returns (t: HTree, err: Error)
    ensures err == EOK && t.Names()[(Named(1, 248).name, 2)] >= 2
  {
    hide Room, Named, FirstLetter, AllBag, RoomTotal, Live, SortOf, IsMid, TooBig, TwoApart, Ordered, FirstFit, Bag, NoneFits;
    t := Apart();
    Names5();
    Rooms();
    TwoApartFacts();
    var src := new BlockSource([2]);
    ghost var how, i, j, s, mid, key, block;
    err, how, i, j, s, mid, key, block := t.AddEntry(Named(5, 255).name, 6, 1, 0, [], src);
    SomeSorted(s, TwoApart());
  }

  lemma SomeSorted(s: seq<Rec>, recs: seq<Rec>)
    requires SortOf(s, recs, FirstLetter) && Live(recs) == recs && recs != []
    ensures s != []
  {
    hide Live;
    assert recs[0] in multiset(recs);
  }
}

/**
 ext4_extent_get_blocks: mapping a logical block, allocating it when asked, and turning
 unwritten extents into written ones by splitting them.
 */
module ExtentBlocks {
  import opened ExtentTree
  import opened ExtentZipper
  import opened ExtentSearch
  import opened ExtentInsert
  import opened ExtentNodes
  import opened ExtentPathOps
  import opened BlockSupply

  function Count16(n: int, unwritten: bool): nat {
    if unwritten then MarkUnwritten(n % 0x1_0000) else n % 0x1_0000
  }

  /** What ext4_ext_split_extent_at leaves of e in place, with the 16-bit length field as it is stored. */
  function FirstPiece(e: Extent, split: nat, mark1: bool): Extent {
    e.(blockCount := Count16(split - e.firstBlock, mark1))
  }

  /** The extent that it inserts. */
  function SecondPiece(e: Extent, split: nat, mark2: bool): Extent
    requires e.firstBlock <= split + e.start
  {
    Extent(split, Count16(e.Len() - (split - e.firstBlock), mark2), split - e.firstBlock + e.start)
  }

  /** Blocks lo up to hi become written, all others keep their state, and none moves. */
  ghost function Initialized(m: map<nat, Mapping>, lo: nat, hi: nat): map<nat, Mapping> {
    map b | b in m :: Mapping(m[b].physical, m[b].unwritten && !(lo <= b < hi))
  }

  lemma Pieces(e: Extent, split: nat, mark1: bool, mark2: bool)
    requires e.Valid() && e.IsUnwritten() && e.firstBlock < split < e.End()
    ensures var e1, e2 := FirstPiece(e, split, mark1), SecondPiece(e, split, mark2);
            && e1.Valid() && e1.End() == split && e1.IsUnwritten() == mark1
            && e2.Valid() && e2.End() == e.End() && e2.IsUnwritten() == mark2
  {
  }

  /** Splitting in two moves no block. */
  lemma PiecesMap(e: Extent, split: nat, mark1: bool, mark2: bool, lo: nat, hi: nat)
    requires e.Valid() && e.IsUnwritten() && e.firstBlock < split < e.End()
    requires if mark1 then lo == split && hi == e.End() && !mark2 else lo == e.firstBlock && hi == split && mark2
    ensures ExtentMap(FirstPiece(e, split, mark1)) + ExtentMap(SecondPiece(e, split, mark2)) == Initialized(ExtentMap(e), lo, hi)
  {
    Pieces(e, split, mark1, mark2);
    var e1, e2 := FirstPiece(e, split, mark1), SecondPiece(e, split, mark2);
    forall b: nat ensures e.Covers(b) <==> e1.Covers(b) || e2.Covers(b) {}
  }

  lemma WholeMap(e: Extent)
    requires e.Valid()
    ensures ExtentMap(e.(blockCount := e.Len())) == Initialized(ExtentMap(e), e.firstBlock, e.End())
  {
    var w := e.(blockCount := e.Len());
    forall b: nat ensures e.Covers(b) <==> w.Covers(b) {}
  }

  /**
   The third case of ext4_ext_convert_to_initialized splits twice, and the second split works on the piece
   that the first one inserted, which begins behind it: the length wraps around, and the extent
   inserted then lies over the one in place.
   */
  lemma ThreeWayOverlaps(e: Extent, split: nat, blocks: nat)
    requires e.Valid() && e.IsUnwritten() && blocks > 0 && e.firstBlock < split && split + blocks < e.End()
    ensures var right := SecondPiece(e, split + blocks, true);
            && right.firstBlock == split + blocks && right.firstBlock <= split + right.start
            && var e1, e2 := FirstPiece(right, split, true), SecondPiece(right, split, false);
               && e1.Len() == EXT_UNWRITTEN_MAX_LEN + 1 - blocks
               && e2.firstBlock == split && e2.End() == e.End()
               && e1.Covers(split + blocks) && e2.Covers(split + blocks)
  {
    Pieces(e, split + blocks, true, true);
  }

  lemma InitializedParts(a: map<nat, Mapping>, m: map<nat, Mapping>, b: map<nat, Mapping>, lo: nat, hi: nat)
    requires forall k: nat :: lo <= k < hi ==> k !in a && k !in b
    ensures a + Initialized(m, lo, hi) + b == Initialized(a + m + b, lo, hi)
  {
  }

  lemma PlainMapOf(a: seq<Extent>, e: Extent, b: seq<Extent>, lo: nat, hi: nat)
    requires Sorted(a + [e] + b) && e.firstBlock <= lo && hi <= e.End()
    ensures forall k: nat :: lo <= k < hi ==> k !in MapOf(a) && k !in MapOf(b)
  {
    SortedMiddle(a, e, b);
    forall k: nat | lo <= k < hi ensures k !in MapOf(a) && k !in MapOf(b) {
      MapOfCovers(a, k);
      MapOfCovers(b, k);
    }
  }

  /** The whole map after splitting the extent e between a and b. */
  lemma SplitMaps(a: seq<Extent>, e: Extent, b: seq<Extent>, split: nat, mark1: bool, mark2: bool, lo: nat, hi: nat)
    requires Sorted(a + [e] + b) && e.IsUnwritten() && e.firstBlock < split < e.End()
    requires if mark1 then lo == split && hi == e.End() && !mark2 else lo == e.firstBlock && hi == split && mark2
    ensures e.Valid()
    ensures MapOf(a + [FirstPiece(e, split, mark1)] + ([SecondPiece(e, split, mark2)] + b)) == Initialized(MapOf(a + [e] + b), lo, hi)
  {
    hide MapOf, ExtentMap, Initialized;
    SortedMiddle(a, e, b);
    var e1, e2 := FirstPiece(e, split, mark1), SecondPiece(e, split, mark2);
    PiecesMap(e, split, mark1, mark2, lo, hi);
    PlainMapOf(a, e, b, lo, hi);
    MapOfMiddle(a, e, b);
    MapOfConcat(a + [e1], [e2] + b);
    MapOfConcat(a, [e1]);
    MapOfConcat([e2], b);
    MapOfOne(e1);
    MapOfOne(e2);
    InitializedParts(MapOf(a), ExtentMap(e), MapOf(b), lo, hi);
    assert MapOf(a) + ExtentMap(e1) + (ExtentMap(e2) + MapOf(b)) == MapOf(a) + (ExtentMap(e1) + ExtentMap(e2)) + MapOf(b);
  }

  /** The whole map after the extent e between a and b was marked written. */
  lemma MarkMaps(a: seq<Extent>, e: Extent, b: seq<Extent>)
    requires Sorted(a + [e] + b)
    ensures Sorted(a + [e.(blockCount := e.Len())] + b) && e.Valid()
    ensures MapOf(a + [e.(blockCount := e.Len())] + b) == Initialized(MapOf(a + [e] + b), e.firstBlock, e.End())
  {
    hide MapOf, ExtentMap, Initialized;
    SortedMiddle(a, e, b);
    var w := e.(blockCount := e.Len());
    SortedParts(a + [e], b);
    SortedAround(a, w, b);
    WholeMap(e);
    PlainMapOf(a, e, b, e.firstBlock, e.End());
    MapOfMiddle(a, e, b);
    MapOfMiddle(a, w, b);
    InitializedParts(MapOf(a), ExtentMap(e), MapOf(b), e.firstBlock, e.End());
  }

  /** Shortening the extent found makes room for its second piece, and the path leads there. */
  lemma SplitReady(left: seq<Extent>, exts: seq<Extent>, right: seq<Extent>, pos: nat, split: nat, mark1: bool, mark2: bool)
    requires pos < |exts| && Sorted(left + exts + right)
    requires exts[pos].IsUnwritten() && exts[pos].firstBlock < split < exts[pos].End()
    ensures exts[pos].Valid()
    ensures var e1, e2 := FirstPiece(exts[pos], split, mark1), SecondPiece(exts[pos], split, mark2);
            && Sorted(left + exts[pos := e1] + right) && NoOverlap(left + exts[pos := e1] + right, e2) && e2.Valid()
            && Below(left, split) && Above(right, split) && ExtentFound(exts[pos := e1], pos, split)
  {
    var a, e, b := left + exts[..pos], exts[pos], exts[pos + 1..] + right;
    CutAround(left, exts, right, pos, FirstPiece(e, split, mark1));
    PartsOrder(left, exts, right, pos);
    Pieces(e, split, mark1, mark2);
    SortedMiddle(a, e, b);
    SortedParts(a + [e], b);
    SortedAround(a, FirstPiece(e, split, mark1), b);
  }

  lemma PartsOrder(left: seq<Extent>, exts: seq<Extent>, right: seq<Extent>, pos: nat)
    requires pos < |exts| && Sorted(left + exts + right)
    ensures exts[pos].Valid() && Below(left, exts[pos].firstBlock) && Behind(right, exts[pos])
    ensures forall i :: pos < i < |exts| ==> exts[pos].End() <= exts[i].firstBlock
  {
    SortedParts(left + exts, right);
    SortedParts(left, exts);
    assert (left + exts)[|left| + pos] == exts[pos];
  }

  lemma SameCut(p: seq<Extent>, q: seq<Extent>, a: seq<Extent>, b: seq<Extent>)
    requires p + q == a + b
    ensures |p| == |a| ==> p == a && q == b
    ensures |p| < |a| ==> q != [] && a[|a| - 1] in q
    ensures |p| > |a| ==> b != [] && b[0] in p
  {
    var w := p + q;
    assert p == w[..|p|] && q == w[|p|..] && a == w[..|a|] && b == w[|a|..];
    if |p| < |a| {
      assert q[|a| - 1 - |p|] == w[|a| - 1] == a[|a| - 1];
    } else if |p| > |a| {
      assert p[|a|] == w[|a|] == b[0];
    }
  }

  /** The second piece was inserted right behind the first one. */
  lemma InsertedBehind(how: How, x: Extent, a: seq<Extent>, e1: Extent, b: seq<Extent>)
    requires how.Insert? && how.Fits(x) && how.Old() == a + [e1] + b && Sorted(a + [e1] + b)
    requires e1.End() == x.firstBlock && x.Valid() && forall i :: 0 <= i < |b| ==> x.firstBlock < b[i].firstBlock
    ensures how.New(x) == a + [e1] + ([x] + b)
  {
    hide Sorted;
    SortedMiddle(a, e1, b);
    SameCut(how.a, how.b, a + [e1], b);
    SortedValid(b);
    assert e1 !in how.b;
    assert b != [] ==> b[0] !in how.a;
    assert how.a + [x] + how.b == how.a + ([x] + how.b);
  }

  lemma SortedValid(b: seq<Extent>)
    requires Sorted(b)
    ensures forall i :: 0 <= i < |b| ==> b[i].Valid()
  {
  }

  /** A path searched for one block of an extent is the path for its later blocks too. */
  lemma {:induction false} SearchedOn(up: seq<Level>, depth: nat, first: nat, topMax: nat, blockMax: nat, block: nat, split: nat)
    requires PathOk(up, depth, first, topMax, blockMax) && Searched(up, block) && block <= split
    requires Positioned(up) && Above(RightFlat(up), split)
    ensures Searched(up, split)
  {
    if up != [] {
      var l := up[0];
      var r, below := FlatAll(l.entries[l.pos + 1..]), RightFlat(up[1..]);
      assert RightFlat(up) == below + r;
      assert forall i :: 0 <= i < |below| ==> RightFlat(up)[i] == below[i];
      assert forall i :: 0 <= i < |r| ==> RightFlat(up)[|below| + i] == r[i];
      SearchedOn(up[1..], depth, first, blockMax, blockMax, block, split);
      assert Chosen(l, block);
      if l.pos + 1 < |l.entries| {
        assert EntriesOk(l.entries[l.pos + 1..], depth + |up| - 1, blockMax);
        FlatAllFirst(l.entries[l.pos + 1..], depth + |up| - 1, blockMax);
      }
      forall i | 0 <= i < |up| ensures Chosen(up[i], split) {
        assert i > 0 ==> up[i] == up[1..][i - 1];
      }
    }
  }

  /** The branch of ext4_ext_split_extent_at for a split at the extent's first block: only its state changes. */
  method MarkExtent(path: ExtentPath, mark2: bool)
    requires path.exts != [] && path.Sound(path.exts[0].firstBlock) && Positioned(path.up)
    requires 0 <= path.pos < |path.exts| && path.exts[path.pos].IsUnwritten() && path.exts[path.pos].Valid()
    modifies path`exts
    ensures path.exts != [] && path.Sound(path.exts[0].firstBlock) && Owned(path.Tree()) == Owned(old(path.Tree()))
    ensures var a, e, b := LeftFlat(path.up) + old(path.exts)[..path.pos], old(path.exts)[path.pos], old(path.exts)[path.pos + 1..] + RightFlat(path.up);
            && old(path.Whole()) == a + [e] + b
            && path.Whole() == a + [e.(blockCount := if mark2 then e.blockCount else e.Len())] + b
  {
    hide PathOk, LeftFlat, RightFlat, Sorted, NodesUp, Plug, Owned, DataOf, Range, ExtentPath.NodeBlocks;
    ghost var left, right, exts, pos := LeftFlat(path.up), RightFlat(path.up), path.exts, path.pos;
    path.TreeOwned();
    var e := path.exts[path.pos];
    var w := e.(blockCount := if mark2 then MarkUnwritten(e.blockCount) else e.Len());
    MarkedAlready(e);
    MarkedSound(left, path.exts, right, path.pos, w);
    path.exts := path.exts[path.pos := w];
    path.TreeOwned();
    DataAround(left + exts[..pos], e, exts[pos + 1..] + right);
    DataAround(left + exts[..pos], w, exts[pos + 1..] + right);
  }

  /** The other branch begins by shortening the extent to its first piece, which makes room for the second one. */
  method ShortenExtent(path: ExtentPath, split: nat, mark1: bool, ghost mark2: bool, ghost block: nat)
    requires path.exts != [] && path.Sound(path.exts[0].firstBlock) && path.LeadsTo(block) && Searched(path.up, block)
    requires 0 <= path.pos < |path.exts| && path.exts[path.pos].IsUnwritten() && path.exts[path.pos].Covers(split)
    requires block <= split && path.exts[path.pos].firstBlock != split
    modifies path`exts
    ensures Positioned(path.up) && old(path.exts[path.pos]).Valid()
    ensures path.exts == old(path.exts)[path.pos := FirstPiece(old(path.exts[path.pos]), split, mark1)]
    ensures path.Sound(path.exts[0].firstBlock) && path.LeadsTo(split) && Searched(path.up, split)
    ensures var a, e, b := LeftFlat(path.up) + old(path.exts)[..path.pos], old(path.exts)[path.pos], old(path.exts)[path.pos + 1..] + RightFlat(path.up);
            && old(path.Whole()) == a + [e] + b && path.Whole() == a + [FirstPiece(e, split, mark1)] + b
            && NoOverlap(path.Whole(), SecondPiece(e, split, mark2))
            && Owned(path.Tree()) + Range(SecondPiece(e, split, mark2).start, SecondPiece(e, split, mark2).Len()) == Owned(old(path.Tree()))
            && forall i :: 0 <= i < |b| ==> split < b[i].firstBlock
  {
    hide PathOk, LeftFlat, RightFlat, Sorted, Below, Above, Searched, ExtentFound, NodesUp, Plug, Owned, DataOf, Range,
      ExtentPath.NodeBlocks, HoleMax, NoOverlap, FirstPiece, SecondPiece;
    PathPositioned(path.up, 0, path.exts[0].firstBlock, path.sp.rootMax, path.sp.blockMax);
    ghost var left, right, exts, pos := LeftFlat(path.up), RightFlat(path.up), path.exts, path.pos;
    var e := path.exts[path.pos];
    path.TreeOwned();
    PartsOrder(left, exts, right, pos);
    PieceFacts(e, split, mark1, mark2);
    SplitReady(left, exts, right, pos, split, mark1, mark2);
    SearchedOn(path.up, 0, exts[0].firstBlock, path.sp.rootMax, path.sp.blockMax, block, split);
    CutAround(left, exts, right, pos, FirstPiece(e, split, mark1));
    path.exts := path.exts[path.pos := FirstPiece(e, split, mark1)];
    path.TreeOwned();
    PiecesData(left + exts[..pos], e, exts[pos + 1..] + right, split, mark1, mark2);
    Reordered(path.NodeBlocks(), DataOf(path.Whole()), Range(SecondPiece(e, split, mark2).start, SecondPiece(e, split, mark2).Len()));
    BehindPiece(exts, right, pos, split);
  }

  /** Then the second piece is inserted behind the first one. */
  method SplitInside(path: ExtentPath, split: nat, mark1: bool, mark2: bool, src: BlockSource, ghost block: nat)
    returns (err: Error, ghost done: bool, ghost lost: seq<Extent>)
    requires path.exts != [] && path.Sound(path.exts[0].firstBlock) && path.LeadsTo(block) && Searched(path.up, block)
    requires 0 <= path.pos < |path.exts| && path.exts[path.pos].IsUnwritten() && path.exts[path.pos].Covers(split)
    requires block <= split && path.exts[path.pos].firstBlock != split
    modifies path, src
    ensures err == EOK && path.sp.Valid() && Positioned(path.up) && Positioned(old(path.up))
    ensures done <==> |old(path.exts)| < old(path.max) || |old(src.supply)| >= 1 + FullBelow(old(path.up))
    ensures done ==> path.exts != [] && path.Sound(path.exts[0].firstBlock)
    ensures var a, e, b := old(LeftFlat(path.up) + path.exts[..path.pos]), old(path.exts[path.pos]), old(path.exts[path.pos + 1..] + RightFlat(path.up));
            && e.Valid() && old(path.Whole()) == a + [e] + b
            && (done ==> path.Whole() == a + [FirstPiece(e, split, mark1)] + ([SecondPiece(e, split, mark2)] + b))
            && (!done ==> a + [e.(blockCount := e.Len())] <= path.Whole())
    ensures done ==> 0 <= path.pos < |path.exts| && path.exts[path.pos].firstBlock == split
    ensures done ==>
      var n := if |old(path.exts)| < old(path.max) then 0 else 1 + FullBelow(old(path.up));
      n <= |old(src.supply)| && src.supply == old(src.supply)[n..]
    ensures done ==> Balanced(old(path.Tree()), path.Tree(), multiset{}, old(src.supply), src.supply)
  {
    hide PathOk, LeftFlat, RightFlat, Sorted, Below, Above, Searched, ExtentFound, How.Fits, How.Old, How.New, NodesUp, Plug, Owned,
      DataOf, FullBelow, Balanced, Gained, Range, ExtentPath.NodeBlocks, Taken, CutsOff, ForNodes, ExtentPath.Merges, HoleMax,
      NoOverlap, FirstPiece, SecondPiece;
    PathPositioned(path.up, 0, path.exts[0].firstBlock, path.sp.rootMax, path.sp.blockMax);
    ghost var left, right, exts, pos := LeftFlat(path.up), RightFlat(path.up), path.exts, path.pos;
    err, done, lost := EOK, true, [];
    var e := path.exts[path.pos];
    ghost var t0 := path.Tree();
    ShortenExtent(path, split, mark1, mark2, block);
    PieceFacts(e, split, mark1, mark2);
    ghost var how, cut := Insert([], []), path.Tree();
    err, how, lost := path.InsertExtent(SecondPiece(e, split, mark2), true, src);
    if err != EOK {
      PutBack(left, exts, path.exts, RightFlat(path.up), pos, e, FirstPiece(e, split, mark1));
      path.exts := path.exts[path.pos := path.exts[path.pos].(blockCount := e.Len())];
      err, done := EOK, false;
      return;
    }
    GainedInserted(how, SecondPiece(e, split, mark2));
    SplitBalanced(t0, cut, path.Tree(), Gained(how, SecondPiece(e, split, mark2)), old(src.supply), src.supply);
    InsertedBehind(how, SecondPiece(e, split, mark2), left + exts[..pos], FirstPiece(e, split, mark1), exts[pos + 1..] + right);
  }

  /**
   ext4_ext_split_extent_at.  When the insertion runs out of blocks, done is false: the source then puts the
   length back without the unwritten mark and reports success.
   */
  method SplitExtentAt(path: ExtentPath, split: nat, mark1: bool, mark2: bool, src: BlockSource, ghost block: nat)
    returns (err: Error, ghost done: bool, ghost lost: seq<Extent>)
    requires path.exts != [] && path.Sound(path.exts[0].firstBlock) && path.LeadsTo(block) && Searched(path.up, block)
    requires 0 <= path.pos < |path.exts| && path.exts[path.pos].IsUnwritten() && path.exts[path.pos].Covers(split)
    requires block <= split
    modifies path, src
    ensures err == EOK && path.sp.Valid() && Positioned(path.up) && Positioned(old(path.up))
    ensures done <==> || split == old(path.exts[path.pos]).firstBlock || |old(path.exts)| < old(path.max)
                      || |old(src.supply)| >= 1 + FullBelow(old(path.up))
    ensures done ==> path.exts != [] && path.Sound(path.exts[0].firstBlock)
    ensures var a, e, b := old(LeftFlat(path.up) + path.exts[..path.pos]), old(path.exts[path.pos]), old(path.exts[path.pos + 1..] + RightFlat(path.up));
            && old(path.Whole()) == a + [e] + b
            && (done && split == e.firstBlock ==> path.Whole() == a + [e.(blockCount := if mark2 then e.blockCount else e.Len())] + b)
            && (done && split != e.firstBlock ==> path.Whole() == a + [FirstPiece(e, split, mark1)] + ([SecondPiece(e, split, mark2)] + b))
            && (!done ==> a + [e.(blockCount := e.Len())] <= path.Whole())
    ensures done && split != old(path.exts[path.pos]).firstBlock ==> 0 <= path.pos < |path.exts| && path.exts[path.pos].firstBlock == split
    ensures done ==>
      var n := if split == old(path.exts[path.pos]).firstBlock || |old(path.exts)| < old(path.max) then 0 else 1 + FullBelow(old(path.up));
      n <= |old(src.supply)| && src.supply == old(src.supply)[n..]
    ensures done ==> Balanced(old(path.Tree()), path.Tree(), multiset{}, old(src.supply), src.supply)
  {
    hide PathOk, LeftFlat, RightFlat, Sorted, Below, Above, Searched, ExtentFound, NodesUp, Plug, Owned, FullBelow, Balanced, FirstPiece,
      SecondPiece;
    PathPositioned(path.up, 0, path.exts[0].firstBlock, path.sp.rootMax, path.sp.blockMax);
    PartsOrder(LeftFlat(path.up), path.exts, RightFlat(path.up), path.pos);
    err, done, lost := EOK, true, [];
    if split == path.exts[path.pos].firstBlock {
      ghost var t0 := path.Tree();
      MarkExtent(path, mark2);
      SameOwned(t0, path.Tree(), src.supply);
    } else {
      err, done, lost := SplitInside(path, split, mark1, mark2, src, block);
    }
  }

  lemma Reordered(a: multiset<nat>, b: multiset<nat>, c: multiset<nat>)
    ensures a + b + c == a + (b + c)
  {
  }

  lemma SameOwned(t: Tree, t': Tree, supply: seq<nat>)
    requires Owned(t') == Owned(t)
    ensures Balanced(t, t', multiset{}, supply, supply)
  {
    hide Owned;
    NothingTaken(t, supply);
  }

  lemma GainedInserted(how: How, x: Extent)
    requires !how.Prepend?
    ensures Gained(how, x) == Range(x.start, x.Len())
  {
  }

  /** The two pieces have the data that the extent had. */
  lemma PiecesData(a: seq<Extent>, e: Extent, b: seq<Extent>, split: nat, mark1: bool, mark2: bool)
    requires e.Valid() && e.IsUnwritten() && e.firstBlock < split < e.End()
    ensures var e2 := SecondPiece(e, split, mark2);
            DataOf(a + [FirstPiece(e, split, mark1)] + b) + Range(e2.start, e2.Len()) == DataOf(a + [e] + b)
  {
    hide DataOf, Range;
    var e1, e2 := FirstPiece(e, split, mark1), SecondPiece(e, split, mark2);
    Pieces(e, split, mark1, mark2);
    DataAround(a, e1, b);
    DataAround(a, e, b);
    RangeSplit(e.start, e1.Len(), e2.Len());
  }

  lemma PutBack(left: seq<Extent>, exts: seq<Extent>, exts': seq<Extent>, right: seq<Extent>, pos: nat, e: Extent, e1: Extent)
    requires pos < |exts| && pos < |exts'| && exts'[..pos + 1] == exts[pos := e1][..pos + 1] && e1 == e.(blockCount := e1.blockCount)
    ensures var w := e.(blockCount := e.Len());
            && exts'[pos].(blockCount := e.Len()) == w
            && left + exts[..pos] + [w] <= left + exts'[pos := w] + right
  {
    var w := e.(blockCount := e.Len());
    assert exts'[pos] == exts'[..pos + 1][pos] == e1;
    assert exts'[..pos] == exts'[..pos + 1][..pos] == exts[pos := e1][..pos + 1][..pos] == exts[..pos];
    assert left + exts'[pos := w] + right == left + exts[..pos] + [w] + (exts'[pos + 1..] + right);
  }

  lemma MarkedAlready(e: Extent)
    requires e.Valid() && e.IsUnwritten()
    ensures MarkUnwritten(e.blockCount) == e.blockCount && e.(blockCount := e.Len()).Len() == e.Len()
  {
  }

  lemma PieceFacts(e: Extent, split: nat, mark1: bool, mark2: bool)
    requires e.Valid() && e.IsUnwritten() && e.firstBlock < split < e.End()
    ensures var e1, e2 := FirstPiece(e, split, mark1), SecondPiece(e, split, mark2);
            && e1 == e.(blockCount := e1.blockCount) && e1.End() == split && e2.Valid() && e2.firstBlock == split
  {
    Pieces(e, split, mark1, mark2);
  }

  lemma BehindPiece(exts: seq<Extent>, right: seq<Extent>, pos: nat, split: nat)
    requires pos < |exts| && split < exts[pos].End() && Behind(right, exts[pos])
    requires forall i :: pos < i < |exts| ==> exts[pos].End() <= exts[i].firstBlock
    ensures var b := exts[pos + 1..] + right; forall i :: 0 <= i < |b| ==> split < b[i].firstBlock
  {
  }

  /** An extent may change its state where it stands. */
  lemma MarkedSound(left: seq<Extent>, exts: seq<Extent>, right: seq<Extent>, pos: nat, w: Extent)
    requires pos < |exts| && Sorted(left + exts + right)
    requires w.firstBlock == exts[pos].firstBlock && w.Len() == exts[pos].Len() && w.blockCount <= exts[pos].blockCount
    ensures Sorted(left + exts[pos := w] + right)
    ensures left + exts + right == left + exts[..pos] + [exts[pos]] + (exts[pos + 1..] + right)
    ensures left + exts[pos := w] + right == left + exts[..pos] + [w] + (exts[pos + 1..] + right)
  {
    var a, e, b := left + exts[..pos], exts[pos], exts[pos + 1..] + right;
    CutAround(left, exts, right, pos, w);
    SortedMiddle(a, e, b);
    SortedParts(a + [e], b);
    SortedAround(a, w, b);
  }

  /** One of the first two branches of ext4_ext_convert_to_initialized is taken. */
  predicate TwoWay(e: Extent, split: nat, blocks: nat) {
    split + blocks == e.End() || e.firstBlock == split
  }

  /** ext4_ext_convert_to_initialized, for a range at either end of the extent */
  method ConvertToInitialized(path: ExtentPath, split: nat, blocks: nat, src: BlockSource)
    returns (err: Error, ghost done: bool)
    requires path.exts != [] && path.Sound(path.exts[0].firstBlock) && path.LeadsTo(split) && Searched(path.up, split)
    requires 0 <= path.pos < |path.exts| && path.exts[path.pos].IsUnwritten() && path.exts[path.pos].Covers(split)
    requires blocks > 0 && split + blocks <= path.exts[path.pos].End() && TwoWay(path.exts[path.pos], split, blocks)
    modifies path, src
    ensures err == EOK && path.sp.Valid() && Positioned(path.up) && Positioned(old(path.up))
    ensures done ==> path.exts != [] && path.Sound(path.exts[0].firstBlock)
    ensures done ==> MapOf(path.Whole()) == Initialized(MapOf(old(path.Whole())), split, split + blocks)
    ensures !done ==> |old(path.exts)| == old(path.max) && |old(src.supply)| < 1 + FullBelow(old(path.up))
    ensures done ==> Balanced(old(path.Tree()), path.Tree(), multiset{}, old(src.supply), src.supply)
  {
    hide PathOk, LeftFlat, RightFlat, Sorted, Below, Above, Searched, ExtentFound, MapOf, Initialized, Owned, Plug, FullBelow;
    var e := path.exts[path.pos];
    PathPositioned(path.up, 0, path.exts[0].firstBlock, path.sp.rootMax, path.sp.blockMax);
    ghost var a, b := LeftFlat(path.up) + path.exts[..path.pos], path.exts[path.pos + 1..] + RightFlat(path.up);
    CutAround(LeftFlat(path.up), path.exts, RightFlat(path.up), path.pos, e);
    ghost var lost;
    if split + blocks == e.End() {
      err, done, lost := SplitExtentAt(path, split, true, false, src, split);
      if split == e.firstBlock {
        MarkMaps(a, e, b);
      } else {
        SplitMaps(a, e, b, split, true, false, split, e.End());
      }
    } else {
      err, done, lost := SplitExtentAt(path, split + blocks, false, true, src, split);
      SplitMaps(a, e, b, split + blocks, false, true, split, split + blocks);
    }
  }

  /** Whether a block is mapped is decided by the extent that the search finds. */
  lemma FoundCovers(left: seq<Extent>, exts: seq<Extent>, right: seq<Extent>, pos: int, block: nat)
    requires Sorted(left + exts + right) && Below(left, block) && Above(right, block) && ExtentFound(exts, pos, block)
    ensures var m := MapOf(left + exts + right);
            if pos >= 0 && exts[pos].Covers(block) then block in m && m[block] == ExtentMap(exts[pos])[block] else block !in m
  {
    hide MapOf, ExtentMap;
    var whole := left + exts + right;
    MapOfCovers(whole, block);
    if pos >= 0 && exts[pos].Covers(block) {
      assert whole[|left| + pos] == exts[pos];
      MapOfAt(whole, |left| + pos, block);
    } else {
      NotCovered(left, exts, right, pos, block);
    }
  }

  lemma NotCovered(left: seq<Extent>, exts: seq<Extent>, right: seq<Extent>, pos: int, block: nat)
    requires Sorted(left + exts + right) && Below(left, block) && Above(right, block) && ExtentFound(exts, pos, block)
    requires pos >= 0 ==> !exts[pos].Covers(block)
    ensures var whole := left + exts + right; forall i :: 0 <= i < |whole| ==> !whole[i].Covers(block)
    ensures block < EXT_MAX_BLOCKS ==> forall start: nat :: NoOverlap(left + exts + right, Extent(block, 1, start))
  {
    var whole := left + exts + right;
    SortedParts(left + exts, right);
    SortedParts(left, exts);
    forall i | 0 <= i < |whole| ensures whole[i].End() <= block || block < whole[i].firstBlock {
      if |left| <= i < |left| + |exts| {
        var k := i - |left|;
        assert whole[i] == exts[k] && exts[k].Valid();
        if k < pos {
          assert exts[k].End() <= exts[pos].firstBlock && exts[pos].Valid();
        } else if k > pos {
          assert pos + 1 < |exts| && exts[pos + 1].Valid() && exts[pos + 1].firstBlock <= exts[k].firstBlock;
        }
      }
    }
  }

  /** The blocks of a found extent from block on are mapped in a row. */
  lemma RunMapped(left: seq<Extent>, exts: seq<Extent>, right: seq<Extent>, pos: nat, block: nat, count: nat)
    requires Sorted(left + exts + right) && pos < |exts| && exts[pos].Covers(block) && block + count <= exts[pos].End()
    ensures var m, e := MapOf(left + exts + right), exts[pos];
            forall k: nat :: block <= k < block + count ==> k in m && m[k] == Mapping(e.start + (k - e.firstBlock), e.IsUnwritten())
  {
    var whole, e := left + exts + right, exts[pos];
    assert whole[|left| + pos] == e;
    forall k: nat | block <= k < block + count
      ensures k in MapOf(whole) && MapOf(whole)[k] == Mapping(e.start + (k - e.firstBlock), e.IsUnwritten())
    {
      MapOfAt(whole, |left| + pos, k);
    }
  }

  /** What ext4_extent_get_blocks hands out: count mapped blocks in a row from block on, the first one at result. */
  ghost predicate Found(m: map<nat, Mapping>, block: nat, result: nat, count: nat, unwritten: bool) {
    forall k: nat :: block <= k < block + count ==> k in m && m[k] == Mapping(result + (k - block), unwritten)
  }

  /** What the caller gets. */
  datatype Blocks = Blocks(result: nat, count: nat)

  /** The map that a caller expects when block was mapped to start; an appended block takes the state of its neighbour. */
  ghost function WithBlock(m: map<nat, Mapping>, block: nat, start: nat, how: How): map<nat, Mapping> {
    m[block := Mapping(start, how.Append? && how.e.IsUnwritten())]
  }

  /** The new block is mapped where asked and nothing else changes, unless it was merged at the front of an extent. */
  lemma InsertedBlock(how: How, block: nat, start: nat)
    requires Sorted(how.Old()) && block < EXT_MAX_BLOCKS && how.Fits(Extent(block, 1, start))
    ensures how.Prepend? <==> MapOf(how.New(Extent(block, 1, start))) != WithBlock(MapOf(how.Old()), block, start, how)
  {
    hide MapOf;
    var x := Extent(block, 1, start);
    assert x.Covers(block) && forall b: nat :: x.Covers(b) <==> b == block;
    if how.Prepend? {
      PrependBreaks(how, x, block);
      NotInOld(how, x, block);
    } else {
      HowMaps(how, x);
      assert NewBlocks(how, x) == map[block := Mapping(start, how.Append? && how.e.IsUnwritten())];
    }
  }

  lemma NotInOld(how: How, x: Extent, block: nat)
    requires Sorted(how.Old()) && how.Fits(x) && how.Prepend? && x.Covers(block) && x.Valid()
    ensures !how.e.Covers(block) && ExtentMap(x)[block].physical == x.start + (block - x.firstBlock)
  {
  }

  /** The branch of ext4_extent_get_blocks that allocates; how tells what became of the new extent. */
  method MapNewBlock(path: ExtentPath, block: nat, src: BlockSource) returns (err: Error, got: Blocks, ghost how: How)
    requires block < EXT_MAX_BLOCKS && path.Sound(if path.exts == [] then block else path.exts[0].firstBlock)
    requires path.LeadsTo(block) && Searched(path.up, block) && (path.up != [] ==> path.exts != []) && -1 <= path.pos < |path.exts|
    requires path.pos >= 0 ==> !path.exts[path.pos].Covers(block)
    modifies path, src
    ensures Positioned(old(path.up)) && Positioned(path.up) && path.sp.Valid()
    ensures err == EOK ==> old(src.supply) != [] && got == Blocks(old(src.supply)[0], 1)
    ensures err == EOK ==> how.Old() == old(path.Whole()) && how.Fits(Extent(block, 1, got.result))
    ensures err == EOK ==> path.Whole() == how.New(Extent(block, 1, got.result))
    ensures err == EOK && !how.Prepend? ==> path.exts != [] && path.Sound(path.exts[0].firstBlock)
    ensures err == EOK ==> (how.Prepend? <==> MapOf(path.Whole()) != WithBlock(MapOf(old(path.Whole())), block, got.result, how))
    ensures err == EOK ==> (how.Prepend? <==>
      var x := Extent(block, 1, got.result);
      old(path.pos >= 0 && !CanAppend(path.exts[path.pos], x) && CanPrepend(path.exts[path.pos], x)))
    ensures err == EOK && !how.Prepend? ==> Balanced(old(path.Tree()), path.Tree(), multiset{}, old(src.supply), src.supply)
    ensures err != EOK ==> err == ENOSPC
    ensures err == EOK <==>
      && old(src.supply) != []
      && (|old(path.exts)| < old(path.max) || |old(src.supply)| >= 2 + FullBelow(old(path.up)) || old(path.Merges(Extent(block, 1, src.supply[0]))))
    ensures old(src.supply) == [] ==> path.Whole() == old(path.Whole())
  {
    hide PathOk, LeftFlat, RightFlat, Sorted, Below, Above, Searched, ExtentFound, MapOf, NoOverlap, How.Old, How.Fits, How.New, Owned, Plug,
      NodesUp, Gained, Balanced, FullBelow;
    PathPositioned(path.up, 0, if path.exts == [] then block else path.exts[0].firstBlock, path.sp.rootMax, path.sp.blockMax);
    NotCovered(LeftFlat(path.up), path.exts, RightFlat(path.up), path.pos, block);
    got, how := Blocks(0, 0), Insert([], []);
    var newBlock;
    err, newBlock := src.Alloc();
    if err != EOK {
      return;
    }
    var x := Extent(block, 1, newBlock);
    ghost var lost, t, supply, after := [], path.Tree(), old(src.supply), src.supply;
    err, how, lost := path.InsertExtent(x, false, src);
    if err != EOK {
      return;
    }
    if !how.Prepend? {
      GainedOne(how, x);
      assert supply[1..] == after;
      OneTaken(t, path.Tree(), supply, src.supply);
    }
    got := Blocks(newBlock, 1);
    InsertedBlock(how, block, newBlock);
  }

  lemma GainedOne(how: How, x: Extent)
    requires !how.Prepend? && x.Len() == 1
    ensures Gained(how, x) == multiset{x.start}
  {
    assert Run(x.start, 1) == [x.start];
  }

  ghost predicate FrontOrBack(exts: seq<Extent>, block: nat, maxBlocks: nat) {
    forall i :: 0 <= i < |exts| && exts[i].Covers(block) && exts[i].IsUnwritten() ==>
      exts[i].firstBlock == block || exts[i].End() <= block + maxBlocks
  }

  /**
   ext4_extent_get_blocks; how tells what an allocated block's insertion did, done whether a conversion had
   room.  An unwritten extent is not to be converted in its middle: see ThreeWayOverlaps.
   */
  method GetBlocks(path: ExtentPath, root: Tree, ghost depth: nat, block: nat, maxBlocks: nat, create: bool, src: BlockSource)
    returns (err: Error, got: Blocks, ghost how: How, ghost done: bool)
    requires path.sp.Valid() && TreeOk(root, depth, path.sp) && block < EXT_MAX_BLOCKS && maxBlocks > 0
    requires create ==> FrontOrBack(Flat(root), block, maxBlocks)
    modifies path, src
    ensures Positioned(path.up)
    ensures var m := MapOf(Flat(root)); block in m && (create || !m[block].unwritten) ==>
      err == EOK && 1 <= got.count <= maxBlocks && Found(m, block, got.result, got.count, m[block].unwritten)
    ensures var m := MapOf(Flat(root)); block in m && m[block].unwritten && !create ==> err == EOK && got.result == 0
    ensures var m := MapOf(Flat(root)); block in m && (!create || !m[block].unwritten) ==> path.Tree() == root
    ensures var m := MapOf(Flat(root)); block in m && m[block].unwritten && create && done ==>
      MapOf(path.Whole()) == Initialized(m, block, block + got.count)
    ensures block !in MapOf(Flat(root)) && !create ==> err == EOK && got == Blocks(0, 0) && path.Tree() == root
    ensures block !in MapOf(Flat(root)) && create && err == EOK ==>
      && old(src.supply) != [] && got == Blocks(old(src.supply)[0], 1)
      && how.Old() == Flat(root) && how.Fits(Extent(block, 1, got.result)) && path.Whole() == how.New(Extent(block, 1, got.result))
    ensures block !in MapOf(Flat(root)) && create && err == EOK ==>
      (how.Prepend? <==> MapOf(path.Whole()) != WithBlock(MapOf(Flat(root)), block, got.result, how))
    ensures err != EOK ==> err == ENOSPC && block !in MapOf(Flat(root)) && create
    ensures err == EOK && done && !how.Prepend? ==> TreeOk(path.Tree(), |path.up|, path.sp) && Flat(path.Tree()) == path.Whole()
    ensures err == EOK && done && !how.Prepend? ==> Balanced(root, path.Tree(), multiset{}, old(src.supply), src.supply)
  {
    hide Balanced, PathOk, LeftFlat, RightFlat, Sorted, Below, Above, Searched, ExtentFound, MapOf, TreeOk, Flat, Plug, How.Old, How.Fits,
      How.New, Initialized;
    got, how, done := Blocks(0, 0), Insert([], []), true;
    path.FindExtent(root, block, depth);
    NothingTaken(root, src.supply);
    TreeWhole(path, root);
    FoundCovers(LeftFlat(path.up), path.exts, RightFlat(path.up), path.pos, block);
    FoundRange(path.exts, path.pos, block);
    err := EOK;
    if path.pos >= 0 && path.exts[path.pos].firstBlock <= block < path.exts[path.pos].End() {
      var e := path.exts[path.pos];
      var count := if e.End() - block > maxBlocks then maxBlocks else e.End() - block;
      RunMapped(LeftFlat(path.up), path.exts, RightFlat(path.up), path.pos, block, count);
      if !e.IsUnwritten() {
        got := Blocks(e.start + (block - e.firstBlock), count);
      } else if !create {
        got := Blocks(0, count);
      } else {
        assert (LeftFlat(path.up) + path.exts + RightFlat(path.up))[|LeftFlat(path.up)| + path.pos] == e;
        err, done := ConvertToInitialized(path, block, count, src);
        got := Blocks(e.start + (block - e.firstBlock), count);
        if done {
          WholeTree(path.up, Leaf(path.blk, path.max, path.exts), path.exts[0].firstBlock, path.sp);
        }
      }
      return;
    }
    if !create {
      return;
    }
    err, got, how := MapNewBlock(path, block, src);
    if err == EOK && !how.Prepend? {
      WholeTree(path.up, Leaf(path.blk, path.max, path.exts), path.exts[0].firstBlock, path.sp);
    }
  }

  lemma FoundRange(exts: seq<Extent>, pos: int, block: nat)
    requires ExtentFound(exts, pos, block)
    ensures -1 <= pos < |exts|
  {
  }

  lemma TreeWhole(path: ExtentPath, root: Tree)
    requires Positioned(path.up) && path.Tree() == root
    ensures Flat(root) == path.Whole()
  {
    FlatPlug(path.up, Leaf(path.blk, path.max, path.exts));
    FlatOfNode(Leaf(path.blk, path.max, path.exts));
  }
}

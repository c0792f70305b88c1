/** The path array of the extent code as an object that lookups fill and insertions change. */
module ExtentPathOps {
  import opened BlockSupply
  import opened ExtentTree
  import opened ExtentZipper
  import opened ExtentSearch
  import opened ExtentInsert
  import opened ExtentSplit
  import opened ExtentNodes

  /** What n new nodes, one for the leaf and the others for the levels above it, have taken over from a path. */
  ghost function Taken(up: seq<Level>, exts: seq<Extent>, pos: int, n: nat): seq<Extent>
    requires Positioned(up) && n <= |up| + 1 && -1 <= pos < |exts|
  {
    if n == 0 then [] else exts[pos + 1..] + RightFlat(up[|up| - (n - 1)..])
  }

  /** There is an extent or an entry right of the path where n new nodes have cut it. */
  ghost predicate CutsOff(up: seq<Level>, exts: seq<Extent>, pos: int, n: nat) {
    n > 0 && (pos + 1 < |exts| || exists k: nat :: |up| - (n - 1) <= k < |up| && up[k].Behind() != [])
  }

  ghost predicate SameBlocks(a: seq<Level>, b: seq<Level>) { |a| == |b| && forall k :: 0 <= k < |a| ==> a[k].blk == b[k].blk }

  /** New nodes, made from the lowest one up, in the blocks that the allocator gave. */
  ghost predicate FromSupply(right: seq<Level>, supply: seq<nat>) {
    |right| <= |supply| && forall j :: 0 <= j < |right| ==> right[j].blk == supply[|right| - 1 - j]
  }

  /** After a split at level at: the path keeps its nodes' blocks, or it has moved on to the new nodes, the leaf in the first new block. */
  ghost predicate SplitBlocks(up: seq<Level>, blk: nat, exts: seq<Extent>, at: nat, before: seq<Level>, was: nat, supply: seq<nat>) {
    if exts != [] then blk == was && SameBlocks(up, before)
    else |up| == |before| && at <= |up| && supply != [] && blk == supply[0]
         && SameBlocks(up[..at], before[..at]) && FromSupply(up[at..], supply[1..])
  }

  /** A split that failed has left the path where it was, without what the cut nodes had behind it. */
  ghost predicate Cropped(whole: seq<Extent>, before: seq<Level>, leaf: seq<Extent>, pos: int, up: seq<Level>, exts: seq<Extent>,
                          lost: seq<Extent>, n: int)
  {
    && Positioned(before) && Positioned(up) && 0 <= pos < |leaf| && pos < |exts| && exts[..pos + 1] == leaf[..pos + 1]
    && whole == LeftFlat(up) + exts + lost + RightFlat(up) && LeftFlat(up) == LeftFlat(before)
    && 0 <= n <= |before| + 1 && lost == Taken(before, leaf, pos, n) && (lost != [] <==> CutsOff(before, leaf, pos, n))
  }

  lemma CroppedIs(whole: seq<Extent>, before: seq<Level>, leaf: seq<Extent>, pos: int, up: seq<Level>, exts: seq<Extent>, lost: seq<Extent>,
                  n: int)
    requires Positioned(before) && Positioned(up) && 0 <= pos < |leaf| && pos < |exts| && exts[..pos + 1] == leaf[..pos + 1]
    requires whole == LeftFlat(up) + exts + lost + RightFlat(up) && LeftFlat(up) == LeftFlat(before)
    requires 0 <= n <= |before| + 1 && lost == Taken(before, leaf, pos, n) && (lost != [] <==> CutsOff(before, leaf, pos, n))
    ensures Cropped(whole, before, leaf, pos, up, exts, lost, n)
  {
  }

  class ExtentPath {
    const sp: Space
    // The index levels from the root down, the leaf's block and contents, and the extent found there (-1: none).
    var up: seq<Level>
    var blk: nat
    var max: nat
    var exts: seq<Extent>
    var pos: int

    constructor (sp: Space)
      ensures this.sp == sp
    {
      this.sp := sp;
      up, blk, max, exts, pos := [], 0, 0, [], -1;
    }

    /** The tree that the path belongs to. */
    function Tree(): Tree
      reads this
      requires Positioned(up)
    {
      Plug(up, Leaf(blk, max, exts))
    }

    /** All extents of the tree, in order. */
    ghost function Whole(): seq<Extent>
      reads this
      requires Positioned(up)
    {
      LeftFlat(up) + exts + RightFlat(up)
    }

    /** The blocks that hold the tree's nodes. */
    ghost function NodeBlocks(): multiset<nat>
      reads this`up, this`blk
      requires Positioned(up)
    {
      NodesUp(up) + multiset{blk}
    }

    lemma NodeBlocksAre()
      requires Positioned(up)
      ensures Nodes(Tree()) == NodeBlocks()
    {
      hide NodesUp;
      NodesPlug(up, Leaf(blk, max, exts));
      LeafNodes(Leaf(blk, max, exts));
    }

    /** The levels are sound above a leaf whose first block is, or is going to be, first. */
    ghost predicate Sound(first: nat)
      reads this
    {
      && sp.Valid() && PathOk(up, 0, first, sp.rootMax, sp.blockMax)
      && max == HoleMax(up, sp) && |exts| <= max
      && (exts != [] ==> exts[0].firstBlock == first)
      && Sorted(Whole())
    }

    /** The path leads to where block belongs. */
    ghost predicate LeadsTo(block: nat)
      reads this
      requires Positioned(up)
    {
      Below(LeftFlat(up), block) && Above(RightFlat(up), block) && ExtentFound(exts, pos, block)
    }

    /** ext4_find_extent */
    method FindExtent(root: Tree, block: nat, ghost depth: nat)
      requires sp.Valid() && TreeOk(root, depth, sp)
      modifies this
      ensures Positioned(up) && Tree() == root && |up| == depth && (up != [] ==> exts != [])
      ensures Sound(if exts == [] then block else exts[0].firstBlock) && LeadsTo(block) && Searched(up, block)
    {
      hide EntryOk, SubOk, Flat, FlatAll, Plug, PathOk, LeftFlat, RightFlat, Sorted, First, TreeOk;
      var t := root;
      up := [];
      ghost var d := depth;
      RootStart(root, depth, sp);
      while t.Node?
        invariant Positioned(up) && Plug(up, t) == root && d == depth - |up|
        invariant AtNode(up, t, d, sp)
        invariant Below(LeftFlat(up), block) && Above(RightFlat(up), block) && Searched(up, block)
        invariant Sorted(LeftFlat(up) + Flat(t) + RightFlat(up))
        decreases d
      {
        NodeSorted(up, t, d, sp);
        var p := BinsearchIdx(t.entries, block);
        WalkStep(up, t, d, sp, p, block);
        up := up + [Level(t.blk, t.max, t.entries, p)];
        t := t.entries[p].child;
        d := d - 1;
      }
      NodeSorted(up, t, d, sp);
      FlatOfNode(t);
      LeafFirst(up, t, sp);
      blk, max, exts := t.blk, t.max, t.exts;
      pos := Binsearch(exts, block);
    }
  
    /** ext4_ext_correct_indexes, for a leaf whose first extent is now exts[0] */
    method CorrectIndexes(ghost old_first: nat)
      requires exts != [] && pos >= 0 && PathOk(up, 0, old_first, sp.rootMax, sp.blockMax)
      requires pos != 0 ==> exts[0].firstBlock == old_first
      modifies this`up
      ensures PathOk(up, 0, exts[0].firstBlock, sp.rootMax, sp.blockMax)
      ensures Positioned(old(up)) && LeftFlat(up) == LeftFlat(old(up)) && RightFlat(up) == RightFlat(old(up)) && |up| == |old(up)|
      ensures NodesUp(up) == NodesUp(old(up))
    {
      hide PathOk, FixKeys, TopFirst, LeftFlat, RightFlat, NodesUp;
      ghost var before := up;
      PathPositioned(up, 0, old_first, sp.rootMax, sp.blockMax);
      if up == [] || pos != 0 {
        EmptyPathOk(up, old_first, exts[0].firstBlock, sp);
        return;
      }
      var k := |up| - 1;
      var border := exts[0].firstBlock;
      NothingBelow(before, border);
      FixFrom(before, k, border);
      up := up[k := up[k].WithKey(border)];
      while k > 0
        invariant 0 <= k < |before| == |up| && up == before[..k] + FixKeys(before[k..], border)
        invariant TopFirst(FixKeys(before[k + 1..], border), border) == border
      {
        k := k - 1;
        FixHead(before, k + 1, border);
        if up[k + 1].pos != 0 {
          assert before == before[..k + 1] + before[k + 1..];
          FixKeysStable(before[..k + 1], before[k + 1..], 0, old_first, border, sp.rootMax, sp.blockMax);
          assert up == FixKeys(before, border);
          break;
        }
        FixFrom(before, k, border);
        up := up[k := up[k].WithKey(border)];
      }
      assert before[0..] == before && before[..0] + FixKeys(before[0..], border) == FixKeys(before, border);
      assert up == FixKeys(before, border);
      FixKeysOk(before, 0, old_first, border, sp.rootMax, sp.blockMax);
      FixKeysFlat(before, border);
      FixKeysNodes(before, border);
    }

    /** The first block that the leaf has, or gets with x. */
    ghost function FirstOr(x: Extent): nat
      reads this`exts
    {
      if exts == [] then x.firstBlock else exts[0].firstBlock
    }

    /** The merging branches of ext4_ext_insert_leaf apply. */
    predicate Merges(x: Extent)
      reads this`exts, this`pos
      requires pos < |exts|
    {
      pos >= 0 && (CanAppend(exts[pos], x) || CanPrepend(exts[pos], x))
    }

    /** ext4_ext_insert_leaf; how tells what became of x */
    method InsertLeaf(x: Extent, noCombine: bool) returns (err: Error, needSplit: bool, ghost how: How)
      requires x.Valid() && Sound(FirstOr(x)) && LeadsTo(x.firstBlock) && NoOverlap(Whole(), x) && -1 <= pos < |exts|
      modifies this`up, this`exts, this`pos
      ensures needSplit <==> |old(exts)| == max && (noCombine || !old(Merges(x)))
      ensures needSplit ==> err == EIO && up == old(up) && exts == old(exts) && pos == old(pos)
      ensures !needSplit ==> err == EOK && Positioned(up) && |up| == |old(up)|
      ensures !needSplit ==> how.Fits(x) && how.Old() == old(Whole()) && Whole() == how.New(x)
      ensures !needSplit && !how.Prepend? ==> exts != [] && Sound(exts[0].firstBlock)
      ensures !needSplit && how.Insert? ==> 0 <= pos < |exts| && exts[pos] == x
      ensures Positioned(old(up)) && Positioned(up) && NodeBlocks() == old(NodeBlocks())
      ensures !needSplit ==> (how.Insert? <==> noCombine || !old(Merges(x)))
      ensures !needSplit && !how.Insert? ==> (how.Append? <==> CanAppend(old(exts)[old(pos)], x))
    {
      hide PathOk, LeftFlat, RightFlat, Sorted, NoOverlap, ExtentFound, Below, Above, How.Fits, How.Old, How.New, NodesUp;
      PathPositioned(up, 0, FirstOr(x), sp.rootMax, sp.blockMax);
      ghost var left, right, leaf := LeftFlat(up), RightFlat(up), exts;
      needSplit := false;
      how := MakeRoom(left, exts, right, pos, x);
      if pos >= 0 && x.firstBlock == exts[pos].firstBlock {
        return EIO, false, how;
      }
      if !noCombine {
        if pos >= 0 && CanAppend(exts[pos], x) {
          how := MergeAppend(left, exts, right, pos, x);
          HowSorted(how, x);
          exts := exts[pos := exts[pos].(blockCount := MergedCount(exts[pos], x))];
          return EOK, false, how;
        }
        if pos >= 0 && CanPrepend(exts[pos], x) {
          how := MergePrepend(left, exts, right, pos, x);
          exts := exts[pos := exts[pos].(firstBlock := x.firstBlock, blockCount := MergedCount(exts[pos], x))];
          return EOK, false, how;
        }
      }
      if |exts| == max {
        return EIO, true, how;
      }
      HowSorted(how, x);
      var i := InsertAt(exts, pos, x);
      if pos < 0 {
        pos := i;
      }
      exts := exts[..i] + [x] + exts[i..];
      CorrectIndexes(if leaf == [] then x.firstBlock else leaf[0].firstBlock);
      PathPositioned(up, 0, exts[0].firstBlock, sp.rootMax, sp.blockMax);
      pos := i;
      err := EOK;
    }

    /** ext4_ext_insert_index for the new right-hand node child, which begins at key; the path moves there on demand. */
    method InsertIndex(k: nat, key: nat, child: Tree) returns (err: Error)
      requires k < |up| && up[k].HasPos() && up[k].Key() < key && |up[k].entries| < up[k].max
      modifies this`up
      ensures err == EOK && up == old(up)[k := WithRight(old(up)[k], key, child)]
    {
      var l := up[k];
      if key == l.Key() || |l.entries| == l.max {
        return EIO;
      }
      var ix := if key > l.Key() then l.pos + 1 else l.pos;
      up := up[k := l.(entries := l.entries[..ix] + [Entry(key, child)] + l.entries[ix..])];
      err := EOK;
    }

    /**
     The loop of ext4_ext_split_node over the index levels, which are full: each node is cut behind the
     path and the rest goes to a new node.  When the allocator runs dry, what was cut off so far is lost.
     */
    method CutLevels(at: nat, key: nat, leafBlk: nat, src: BlockSource, ghost first: nat)
      returns (err: Error, right: seq<Level>, ghost lost: seq<Extent>)
      requires 1 <= at <= |up| && PathOk(up, 0, first, sp.rootMax, sp.blockMax)
      requires forall i :: at <= i < |up| ==> |up[i].entries| == up[i].max
      modifies this`up, src
      ensures |up| == |old(up)| && Positioned(old(up)) && up[..at] == old(up)[..at]
      ensures err == EOK <==> |old(src.supply)| >= |up| - at
      ensures err == EOK ==> Cut(old(up)[at..], up[at..], right, first, key, sp.blockMax)
      ensures err == EOK ==> src.supply == old(src.supply)[|up| - at..]
      ensures err == EOK ==> NodesCut(old(up), up, right, at, old(src.supply))
      ensures err != EOK ==> err == ENOSPC && PathOk(up, 0, first, sp.rootMax, sp.blockMax) && Positioned(up)
      ensures err != EOK ==> LeftFlat(up) == LeftFlat(old(up)) && lost + RightFlat(up) == RightFlat(old(up))
      ensures err != EOK ==> lost == RightFlat(old(up)[|up| - |old(src.supply)|..])
    {
      hide PathOk, LeftFlat, RightFlat, Cutting, CutFailed, Cut, NodesCut;
      PathPositioned(up, 0, first, sp.rootMax, sp.blockMax);
      ghost var before, supply := up, src.supply;
      var i := |up|;
      right, err, lost := [], EOK, [];
      CuttingStart(up, supply, first, key, sp);
      var child := leafBlk;
      while i > at && err == EOK
        invariant at <= i <= |before| == |up| && |supply| >= |up| - i
        invariant if err == EOK then Cutting(before, up, right, i, supply, src.supply, first, key, sp)
                  else err == ENOSPC && i > at && |supply| == |up| - i && CutFailed(before, up, lost, i, first, sp)
        decreases i, err == EOK
      {
        err, right, child, lost := CutLevel(i, key, child, right, src, before, supply, first);
        if err == EOK {
          i := i - 1;
        }
      }
      if err == EOK {
        CuttingEnd(before, up, right, i, supply, src.supply, first, key, sp);
      } else {
        CutFailedIs(before, up, lost, i, at, first, sp);
      }
    }

    /** One turn of the loop. */
    method CutLevel(i: nat, key: nat, child: nat, right: seq<Level>, src: BlockSource, ghost before: seq<Level>, ghost supply: seq<nat>,
                    ghost first: nat)
      returns (err: Error, right': seq<Level>, child': nat, ghost lost: seq<Extent>)
      requires PathOk(before, 0, first, sp.rootMax, sp.blockMax) && 1 < i <= |before| == |up| && |supply| >= |up| - i
      requires Cutting(before, up, right, i, supply, src.supply, first, key, sp)
      modifies this`up, src
      ensures |up| == |before| && err == if |supply| > |up| - i then EOK else ENOSPC
      ensures if err == EOK then Cutting(before, up, right', i - 1, supply, src.supply, first, key, sp) else CutFailed(before, up, lost, i, first, sp)
    {
      hide PathOk, LeftFlat, RightFlat, Cut, TopFirst, LevelOk, Prefix, NodesCut, Kept, Moved;
      PathPositioned(before, 0, first, sp.rootMax, sp.blockMax);
      right', lost, child' := right, [], child;
      var blk;
      err, blk := src.Alloc();
      if err != EOK {
        lost := CutShort(before, up, i, right, first, key, sp);
      } else {
        CutNext(before, up, i, right, first, key, sp, child, blk);
        OneMoreCut(before, up, i, right, first, key, sp, child, supply);
        right' := [Moved(up[i - 1], key, child, blk, sp.blockMax)] + right;
        up := up[i - 1 := Kept(up[i - 1])];
        child' := blk;
      }
    }

    /** The levels from at down to the leaf have no room, the one above them has. */
    predicate FullFrom(at: nat)
      reads this
      requires at <= |up|
    {
      && |exts| == max && (forall i :: at <= i < |up| ==> |up[i].entries| == up[i].max)
      && (at > 0 ==> |up[at - 1].entries| < up[at - 1].max)
    }

    /** The end of a split when x goes left of the cut: the new nodes hang right of the path. */
    method HangRight(at: nat, key: nat, right: seq<Level>, node: Tree, ghost before: seq<Level>, ghost first: nat)
      requires 1 <= at <= |before| == |up| && PathOk(before, 0, first, sp.rootMax, sp.blockMax) && up[..at] == before[..at]
      requires Cut(before[at..], up[at..], right, first, key, sp.blockMax)
      requires up[at - 1].HasPos() && up[at - 1].Key() < key && |up[at - 1].entries| < up[at - 1].max
      requires node.Leaf? && node.max == sp.blockMax && 1 <= |node.exts| <= sp.blockMax && First(node) == key
      modifies this`up
      ensures |up| == |before| && PathOk(up, 0, first, sp.rootMax, sp.blockMax) && Positioned(up) && Positioned(before)
      ensures LeftFlat(up) == LeftFlat(before) && RightFlat(up) == node.exts + RightFlat(before)
      ensures Positioned(old(up)) && Positioned(right) && NodesUp(up) == NodesUp(old(up)) + NodesUp(right) + multiset{node.blk}
      ensures SameBlocks(up, old(up))
    {
      hide PathOk, LeftFlat, RightFlat, Cut, Plug, NodesUp;
      HungNodes(before, up, at, right, first, key, sp, node);
      PathPositioned(before, 0, first, sp.rootMax, sp.blockMax);
      TurnLeft(before, up, at, right, first, key, sp, node);
      var _ := InsertIndex(at - 1, key, Plug(right, node));
    }

    /** The end of a split when x goes right of it: the path moves into the new nodes, where the leaf is empty. */
    method MoveRight(at: nat, key: nat, right: seq<Level>, newLeaf: nat, ghost before: seq<Level>, ghost first: nat)
      requires 1 <= at <= |before| == |up| && PathOk(before, 0, first, sp.rootMax, sp.blockMax) && up[..at] == before[..at]
      requires Cut(before[at..], up[at..], right, first, key, sp.blockMax)
      requires up[at - 1].HasPos() && up[at - 1].Key() < key && |up[at - 1].entries| < up[at - 1].max
      requires max == sp.blockMax && 1 <= |exts| <= max && exts[0].firstBlock == first
      modifies this`up, this`blk, this`exts, this`pos
      ensures |up| == |before| && PathOk(up, 0, key, sp.rootMax, sp.blockMax) && Positioned(up) && Positioned(before)
      ensures LeftFlat(up) == LeftFlat(before) + old(exts) && RightFlat(up) == RightFlat(before)
      ensures blk == newLeaf && exts == [] && pos == -1
      ensures Positioned(old(up)) && Positioned(right) && NodesUp(up) == NodesUp(old(up)) + NodesUp(right) + multiset{old(blk)}
      ensures |right| == |up| - at && up[at..] == right && SameBlocks(up[..at], old(up)[..at])
    {
      hide PathOk, LeftFlat, RightFlat, Cut, Plug, NodesUp;
      MovedNodes(before, up, at, right, first, key, sp, Leaf(blk, max, exts), newLeaf);
      PathPositioned(before, 0, first, sp.rootMax, sp.blockMax);
      var node, kept := Leaf(blk, max, exts), up[at..];
      TurnRight(before, up, at, right, first, key, sp, node, newLeaf);
      ghost var l0 := up[at - 1];
      var _ := InsertIndex(at - 1, key, Leaf(newLeaf, 0, []));
      var l := up[at - 1];
      assert l == WithRight(l0, key, Leaf(newLeaf, 0, []));
      up := up[..at - 1] + ([l.(entries := l.entries[l.pos := Entry(l.Key(), Plug(kept, node))], pos := l.pos + 1)] + right);
      blk, exts, pos := newLeaf, [], -1;
    }

    /** The part of ext4_ext_split_node that cuts the leaf and the levels above it, as far as there are blocks. */
    method CutAll(at: nat, key: nat, src: BlockSource)
      returns (err: Error, right: seq<Level>, newLeaf: nat, moved: seq<Extent>, ghost lost: seq<Extent>)
      requires 1 <= at <= |up| && exts != [] && Sound(exts[0].firstBlock) && 0 <= pos < |exts|
      requires forall i :: at <= i < |up| ==> |up[i].entries| == up[i].max
      modifies this`up, this`exts, src
      ensures Positioned(old(up)) && (err != EOK ==> Positioned(up)) && |up| == |old(up)| && 0 <= pos < |old(exts)| && up[..at] == old(up)[..at]
      ensures err == EOK <==> |old(src.supply)| >= |up| - at + 1
      ensures err == EOK ==> Cut(old(up)[at..], up[at..], right, old(exts)[0].firstBlock, key, sp.blockMax)
      ensures err == EOK ==> exts == old(exts)[..pos + 1] && moved == old(exts)[pos + 1..]
      ensures err == EOK ==> newLeaf == old(src.supply)[0] && src.supply == old(src.supply)[|up| - at + 1..]
      ensures err == EOK ==> NodesCut(old(up), up, right, at, old(src.supply)[1..])
      ensures err != EOK ==> err == ENOSPC && old(Whole()) == LeftFlat(up) + exts + lost + RightFlat(up) && exts != []
      ensures err != EOK ==> Sound(exts[0].firstBlock) && LeftFlat(up) == LeftFlat(old(up)) && pos < |exts| && exts[..pos + 1] == old(exts)[..pos + 1]
      ensures err != EOK ==> lost == Taken(old(up), old(exts), pos, |old(src.supply)|)
    {
      hide PathOk, LeftFlat, RightFlat, Cut, TopFirst, Sorted, LevelOk, Plug, NodesCut;
      ghost var before, leaf, first := up, exts, exts[0].firstBlock;
      PathPositioned(up, 0, first, sp.rootMax, sp.blockMax);
      ghost var left, rest := LeftFlat(up), RightFlat(up);
      right, moved, lost := [], [], [];
      err, newLeaf := src.Alloc();
      if err != EOK {
        assert left + exts + lost + rest == left + exts + rest;
        return;
      }
      assert src.supply == old(src.supply)[1..];
      moved := exts[pos + 1..];
      exts := exts[..pos + 1];
      err, right, lost := CutLevels(at, key, newLeaf, src, first);
      if err != EOK {
        ShortWhole(left, leaf, pos + 1, lost, RightFlat(up), rest);
        lost := moved + lost;
      }
    }

    /**
     ext4_ext_split_node, and the replacing of the path behind it: the leaf and the full nodes above it are
     cut behind x's place, and the path goes on to the side where x belongs.
     */
    method SplitNode(at: nat, x: Extent, src: BlockSource) returns (err: Error, ghost lost: seq<Extent>)
      requires 1 <= at <= |up| && x.Valid() && exts != [] && Sound(exts[0].firstBlock) && LeadsTo(x.firstBlock)
      requires FullFrom(at) && NoOverlap(Whole(), x)
      modifies this`up, this`blk, this`exts, this`pos, src
      ensures Positioned(old(up)) && Positioned(up) && |up| == |old(up)| && Sound(FirstOr(x))
      ensures err == EOK <==> |old(src.supply)| >= |up| - at + 1
      ensures err == EOK ==> Whole() == old(Whole()) && LeadsTo(x.firstBlock) && |exts| < max
      ensures err == EOK ==> exts == [] || (pos == old(pos) && 0 <= pos < |exts| && exts[pos] == old(exts)[pos])
      ensures err == EOK ==> src.supply == old(src.supply)[|up| - at + 1..]
      ensures err == EOK ==> NodeBlocks() == old(NodeBlocks()) + multiset(old(src.supply)[..|up| - at + 1])
      ensures err == EOK ==> SplitBlocks(up, blk, exts, at, old(up), old(blk), old(src.supply))
      ensures err != EOK ==> err == ENOSPC && old(Whole()) == LeftFlat(up) + exts + lost + RightFlat(up)
      ensures err != EOK ==> pos == old(pos) && 0 <= pos < |exts| && exts[..pos + 1] == old(exts)[..pos + 1] && LeftFlat(up) == LeftFlat(old(up))
      ensures err != EOK ==> pos < |old(exts)| && lost == Taken(old(up), old(exts), pos, |old(src.supply)|)
      ensures err != EOK ==> (lost != [] <==> CutsOff(old(up), old(exts), pos, |old(src.supply)|))
    {
      hide PathOk, LeftFlat, RightFlat, Cut, TopFirst, Sorted, Below, Above, NoOverlap, LevelOk, Plug, CutsOff, NodesUp,
        NodesCut, SplitBlocks;
      ghost var before, leaf, first := up, exts, exts[0].firstBlock;
      PathPositioned(up, 0, first, sp.rootMax, sp.blockMax);
      ghost var left, rest := LeftFlat(up), RightFlat(up);
      SplitPlace(left, exts, rest, pos, x);
      var key := if pos + 1 != max then exts[pos + 1].firstBlock else x.firstBlock;
      var right, newLeaf, moved;
      err, right, newLeaf, moved, lost := CutAll(at, key, src);
      if err != EOK {
        TakenSome(before, leaf, pos, |old(src.supply)|, first, sp);
        return;
      }
      BehindLevel(before, up, at, first, leaf, rest, key, sp);
      FinishSplit(at, key, right, newLeaf, moved, x, before, leaf, old(src.supply));
    }

    /** The end of ext4_ext_split_node, when all nodes are cut: the new ones are hung in, and the path goes to x's side. */
    method FinishSplit(at: nat, key: nat, right: seq<Level>, newLeaf: nat, moved: seq<Extent>, x: Extent, ghost before: seq<Level>,
                       ghost leaf: seq<Extent>, ghost supply: seq<nat>)
      requires 1 <= at <= |before| == |up| && sp.Valid() && leaf != [] && |leaf| == max == sp.blockMax && x.Valid()
      requires PathOk(before, 0, leaf[0].firstBlock, sp.rootMax, sp.blockMax) && Positioned(before) && up[..at] == before[..at]
      requires Cut(before[at..], up[at..], right, leaf[0].firstBlock, key, sp.blockMax)
      requires up[at - 1].HasPos() && up[at - 1].Key() < key && |up[at - 1].entries| < up[at - 1].max
      requires 0 <= pos < |leaf| && exts == leaf[..pos + 1] && moved == leaf[pos + 1..] && ExtentFound(leaf, pos, x.firstBlock)
      requires key == if pos + 1 != |leaf| then leaf[pos + 1].firstBlock else x.firstBlock
      requires pos + 1 != |leaf| ==> x.firstBlock < key
      requires Below(LeftFlat(before), x.firstBlock) && Above(RightFlat(before), x.firstBlock)
      requires Sorted(LeftFlat(before) + leaf + RightFlat(before)) && NoOverlap(LeftFlat(before) + leaf + RightFlat(before), x)
      requires leaf[|leaf| - 1].firstBlock <= x.firstBlock || pos + 1 != |leaf|
      requires supply != [] && supply[0] == newLeaf && NodesCut(before, up, right, at, supply[1..])
      modifies this`up, this`blk, this`exts, this`pos
      ensures Positioned(up) && |up| == |before| && Sound(FirstOr(x)) && LeadsTo(x.firstBlock) && |exts| < max
      ensures Whole() == LeftFlat(before) + leaf + RightFlat(before)
      ensures exts == [] || (pos == old(pos) && 0 <= pos < |exts| && exts[pos] == leaf[pos])
      ensures NodeBlocks() == NodesUp(before) + multiset{old(blk)} + multiset(supply[..|up| - at + 1])
      ensures SplitBlocks(up, blk, exts, at, before, old(blk), supply)
    {
      hide PathOk, LeftFlat, RightFlat, Cut, TopFirst, Sorted, Below, Above, NoOverlap, LevelOk, Plug, NodesUp, SameBlocks,
        FromSupply, NodesCut, SplitBlocks;
      ghost var cut := up;
      ghost var left, rest, first := LeftFlat(before), RightFlat(before), leaf[0].firstBlock;
      assert exts[0] == leaf[0];
      if x.firstBlock < key {
        HangRight(at, key, right, Leaf(newLeaf, max, moved), before, first);
        LeftWhole(left, leaf, pos, rest, x);
      } else {
        assert exts == leaf;
        MoveRight(at, key, right, newLeaf, before, first);
        RightWhole(left, leaf, rest, x);
      }
      FinishNodes(before, cut, up, exts, right, old(blk), blk, at, supply, first, key, sp);
    }

    /** ext4_ext_grow_indepth and the new search behind it; every node on the path is full. */
    method GrowInDepth(x: Extent, src: BlockSource) returns (err: Error)
      requires exts != [] && Sound(exts[0].firstBlock) && LeadsTo(x.firstBlock) && Searched(up, x.firstBlock) && FullFrom(0)
      modifies this, src
      ensures Positioned(old(up)) && Positioned(up) && Sound(FirstOr(x)) && exts == old(exts) && pos == old(pos) && 0 <= pos < |exts|
      ensures err == EOK <==> old(src.supply) != []
      ensures err == EOK ==> src.supply == old(src.supply)[1..] && Whole() == old(Whole()) && |up| == |old(up)| + 1
      ensures err == EOK ==> LeadsTo(x.firstBlock)
      ensures err == EOK ==> NodeBlocks() == old(NodeBlocks()) + multiset(old(src.supply)[..1])
      ensures err == EOK ==> Tree() == Grown(old(Tree()), old(src.supply)[0], sp)
      ensures LeftFlat(up) == LeftFlat(old(up))
      ensures err == EOK ==> if old(up) == [] then |exts| < max else FullFrom(2)
      ensures err == EOK ==> forall i :: 0 <= i < |old(up)| ==> up[i + 1].Behind() == old(up)[i].Behind()
      ensures err != EOK ==> err == ENOSPC && up == old(up) && src.supply == []
    {
      hide PathOk, LeftFlat, RightFlat, Flat, TreeOk, Plug, Searched, Sorted, Below, Above, Level.Behind, Grown, Chosen, LevelOk,
        Nodes, NodesUp;
      ghost var before, leaf := up, Leaf(blk, max, exts);
      PathPositioned(up, 0, exts[0].firstBlock, sp.rootMax, sp.blockMax);
      NodeBlocksAre();
      var newBlk;
      err, newBlk := src.Alloc();
      if err != EOK {
        return;
      }
      WholeTree(up, leaf, exts[0].firstBlock, sp);
      GrownPath(up, leaf, newBlk, sp, x.firstBlock);
      var root := Tree();
      GrownOk(root, |up|, sp, newBlk);
      FindExtent(Grown(root, newBlk, sp), x.firstBlock, |up| + 1);
      ghost var g, leaf' := GrownUp(before, root, newBlk, sp), if before == [] then Leaf(newBlk, sp.blockMax, leaf.exts) else leaf;
      OnePath(up, Leaf(blk, max, exts), g, leaf', x.firstBlock);
      FlatPlug(up, Leaf(blk, max, exts));
      FlatOfNode(Leaf(blk, max, exts));
      OneExtent(exts, pos, old(pos), x.firstBlock, LeftFlat(up), RightFlat(up));
      TopMax(before, exts[0].firstBlock, sp);
      GrownFull(before, root, newBlk, sp, up);
      GrownBehind(before, root, newBlk, sp, up);
      GrownBlocks(root, newBlk, old(NodeBlocks()));
    }

    lemma GrownBlocks(t: Tree, newBlk: nat, was: multiset<nat>)
      requires Positioned(up) && (if t.Leaf? then t.exts != [] else t.entries != []) && Tree() == Grown(t, newBlk, sp) && Nodes(t) == was
      ensures NodeBlocks() == was + multiset{newBlk}
    {
      hide Nodes, NodesUp, Plug, Grown;
      NodeBlocksAre();
      GrownNodes(t, newBlk, sp);
    }

    /** The part of ext4_ext_insert_extent that makes room in a full leaf: one block for each full node above it and one more. */
    method MakeSpace(x: Extent, src: BlockSource) returns (err: Error, ghost lost: seq<Extent>)
      requires exts != [] && x.Valid() && Sound(exts[0].firstBlock) && LeadsTo(x.firstBlock) && Searched(up, x.firstBlock)
      requires |exts| == max && NoOverlap(Whole(), x)
      modifies this, src
      ensures Positioned(old(up)) && Positioned(up) && Sound(FirstOr(x))
      ensures err == EOK <==> |old(src.supply)| >= 1 + FullBelow(old(up))
      ensures err == EOK ==> Whole() == old(Whole()) && LeadsTo(x.firstBlock) && |exts| < max
      ensures err == EOK ==> exts == [] || (pos == old(pos) && 0 <= pos < |exts| && exts[pos] == old(exts)[pos])
      ensures err == EOK ==> src.supply == old(src.supply)[1 + FullBelow(old(up))..]
      ensures err == EOK ==> NodeBlocks() == old(NodeBlocks()) + multiset(old(src.supply)[..1 + FullBelow(old(up))])
      ensures err != EOK ==> err == ENOSPC && old(Whole()) == LeftFlat(up) + exts + lost + RightFlat(up)
      ensures err != EOK ==> pos == old(pos) && 0 <= pos < |exts| && exts[..pos + 1] == old(exts)[..pos + 1] && LeftFlat(up) == LeftFlat(old(up))
      ensures err != EOK ==> pos < |old(exts)| && lost == Taken(old(up), old(exts), pos, ForNodes(old(up), |old(src.supply)|))
      ensures err != EOK ==> (lost != [] <==> CutsOff(old(up), old(exts), pos, ForNodes(old(up), |old(src.supply)|)))
    {
      hide PathOk, LeftFlat, RightFlat, Sorted, Below, Above, NoOverlap, ExtentFound, Searched, Taken, FullBelow, CutsOff,
        NodesUp, SplitBlocks, Plug, Sound, LeadsTo, FullFrom, Whole, NodeBlocks, Positioned;
      SoundPath();
      PlaceFound(x.firstBlock);
      NothingLost();
      err, lost := EOK, [];
      ghost var before, leaf, place, blocks := up, exts, pos, |src.supply|;
      var depth := |up|;
      var level := FullLevels();
      ghost var supply := src.supply;
      TakenNone(before, leaf, place);
      if level > depth {
        err := GrowInDepth(x, src);
        if err != EOK {
          CutsNothing(before, leaf, place);
          return;
        }
        level, depth := level - 1, depth + 1;
        if level > 0 {
          ghost var grown, oneMore := up, NodeBlocks();
          err, lost := SplitNode(depth - (level - 1), x, src);
          if err == EOK {
            BlocksAdded(old(NodeBlocks()), oneMore, NodeBlocks(), supply, level);
          }
          TakenGrown(before, grown, leaf, place, blocks - 1);
          CutsOffGrown(before, grown, leaf, place, blocks - 1);
        }
      } else {
        err, lost := SplitNode(depth - (level - 1), x, src);
      }
    }

    lemma SoundPath()
      requires exts != [] && Sound(exts[0].firstBlock)
      ensures Positioned(up) && PathOk(up, 0, exts[0].firstBlock, sp.rootMax, sp.blockMax)
    {
      hide LeftFlat, RightFlat, Sorted, PathOk;
      PathPositioned(up, 0, exts[0].firstBlock, sp.rootMax, sp.blockMax);
    }

    lemma PlaceFound(block: nat)
      requires Positioned(up) && LeadsTo(block)
      ensures -1 <= pos < |exts|
    {
      hide LeftFlat, RightFlat, Below, Above;
      FoundPlace(exts, pos, block);
    }

    lemma NothingLost()
      requires Positioned(up)
      ensures Whole() == LeftFlat(up) + exts + [] + RightFlat(up)
    {
    }

    /** The search from the leaf up for the first node with room; level is one more than the number of full ones. */
    method FullLevels() returns (level: nat)
      requires exts != [] && PathOk(up, 0, exts[0].firstBlock, sp.rootMax, sp.blockMax) && |exts| == max
      ensures level == FullBelow(up) + 1 <= |up| + 1 && FullFrom(|up| - (level - 1))
    {
      hide PathOk;
      var depth := |up|;
      level := 1;
      var i := depth - 1;
      assert up[..i + 1] == up;
      while i >= 0 && |up[i].entries| == up[i].max
        invariant -1 <= i < depth == |up| && level == depth - i
        invariant forall k :: i < k < depth ==> |up[k].entries| == up[k].max
        invariant FullBelow(up) == level - 1 + FullBelow(up[..i + 1])
      {
        assert up[..i + 1][..i] == up[..i];
        i, level := i - 1, level + 1;
      }
      NotFull(up, i, exts[0].firstBlock, sp);
    }

    /** ext4_ext_insert_extent: a full leaf is split, and then the insertion is tried again. */
    method InsertLoop(x: Extent, noCombine: bool, src: BlockSource) returns (err: Error, ghost how: How, ghost lost: seq<Extent>)
      requires x.Valid() && Sound(FirstOr(x)) && LeadsTo(x.firstBlock) && Searched(up, x.firstBlock)
      requires NoOverlap(Whole(), x) && (up != [] ==> exts != []) && -1 <= pos < |exts|
      modifies this, src
      ensures Positioned(old(up)) && Positioned(up)
      ensures err == EOK <==> |old(exts)| < old(max) || (!noCombine && old(Merges(x))) || |old(src.supply)| >= 1 + FullBelow(old(up))
      ensures err == EOK ==> how.Fits(x) && how.Old() == old(Whole()) && Whole() == how.New(x)
      ensures err == EOK && !how.Prepend? ==> exts != [] && Sound(exts[0].firstBlock)
      ensures err == EOK ==>
        var n := if |old(exts)| < old(max) || (!noCombine && old(Merges(x))) then 0 else 1 + FullBelow(old(up));
        && src.supply == old(src.supply)[n..]
        && NodeBlocks() == old(NodeBlocks()) + multiset(old(src.supply)[..n])
      ensures err == EOK ==> (how.Insert? <==> noCombine || !old(Merges(x)))
      ensures err == EOK && !how.Insert? ==> (how.Append? <==> CanAppend(old(exts)[old(pos)], x))
      ensures err == EOK && how.Insert? ==> 0 <= pos < |exts| && exts[pos] == x
      ensures err != EOK ==> err == ENOSPC && Sound(FirstOr(x)) && pos == old(pos)
      ensures err != EOK ==> Cropped(old(Whole()), old(up), old(exts), pos, up, exts, lost, ForNodes(old(up), |old(src.supply)|))
    {
      hide PathOk, LeftFlat, RightFlat, Sorted, Below, Above, NoOverlap, Searched, How.Fits, How.Old, How.New, Taken, CutsOff,
        NodesUp, FullBelow, NodeBlocks, Positioned, Gained, Cropped, ForNodes, CanAppend, CanPrepend;
      PathPositioned(up, 0, FirstOr(x), sp.rootMax, sp.blockMax);
      lost := [];
      ghost var whole, before, merges := Whole(), up, Merges(x);
      assert src.supply[..0] == [] && src.supply[0..] == src.supply;
      while true
        invariant Positioned(up) && Sound(FirstOr(x)) && LeadsTo(x.firstBlock) && Whole() == whole && -1 <= pos < |exts|
        invariant !noCombine ==> Merges(x) == merges && (merges ==> exts[pos] == old(exts)[old(pos)])
        invariant |exts| == max ==> max == old(max) && up == before && blk == old(blk) && exts == old(exts) && pos == old(pos)
        invariant |exts| == max ==> exts != [] && Searched(up, x.firstBlock) && src.supply == old(src.supply)
        invariant |exts| < max ==> |old(exts)| < old(max) || |old(src.supply)| >= 1 + FullBelow(before)
        invariant |exts| < max && |old(exts)| < old(max) ==> src.supply == old(src.supply) && NodeBlocks() == old(NodeBlocks())
        invariant |exts| < max && |old(exts)| >= old(max) ==>
          && !(!noCombine && merges) && src.supply == old(src.supply)[1 + FullBelow(before)..]
          && NodeBlocks() == old(NodeBlocks()) + multiset(old(src.supply)[..1 + FullBelow(before)])
        decreases if |exts| == max then 1 else 0
      {
        var needSplit;
        err, needSplit, how := InsertLeaf(x, noCombine);
        if !needSplit {
          return;
        }
        err, lost := MakeSpace(x, src);
        if err != EOK {
          CroppedIs(whole, before, old(exts), pos, up, exts, lost, ForNodes(before, |old(src.supply)|));
          return;
        }
      }
    }

    /** ext4_ext_insert_extent */
    method InsertExtent(x: Extent, noCombine: bool, src: BlockSource) returns (err: Error, ghost how: How, ghost lost: seq<Extent>)
      requires x.Valid() && Sound(FirstOr(x)) && LeadsTo(x.firstBlock) && Searched(up, x.firstBlock)
      requires NoOverlap(Whole(), x) && (up != [] ==> exts != []) && -1 <= pos < |exts|
      modifies this, src
      ensures Positioned(old(up)) && Positioned(up)
      ensures err == EOK <==> |old(exts)| < old(max) || (!noCombine && old(Merges(x))) || |old(src.supply)| >= 1 + FullBelow(old(up))
      ensures err == EOK ==> how.Fits(x) && how.Old() == old(Whole()) && Whole() == how.New(x)
      ensures err == EOK && !how.Prepend? ==> exts != [] && Sound(exts[0].firstBlock)
      ensures err == EOK ==>
        var n := if |old(exts)| < old(max) || (!noCombine && old(Merges(x))) then 0 else 1 + FullBelow(old(up));
        && src.supply == old(src.supply)[n..]
        && NodeBlocks() == old(NodeBlocks()) + multiset(old(src.supply)[..n])
        && Owned(Tree()) == Owned(old(Tree())) + Gained(how, x) + multiset(old(src.supply)[..n])
        && Balanced(old(Tree()), Tree(), Gained(how, x), old(src.supply), src.supply)
      ensures err == EOK ==> (how.Insert? <==> noCombine || !old(Merges(x)))
      ensures err == EOK && !how.Insert? ==> (how.Append? <==> CanAppend(old(exts)[old(pos)], x))
      ensures err == EOK && how.Insert? ==> 0 <= pos < |exts| && exts[pos] == x
      ensures err != EOK ==> err == ENOSPC && old(Whole()) == LeftFlat(up) + exts + lost + RightFlat(up) && Sound(FirstOr(x))
      ensures err != EOK ==> pos == old(pos) && 0 <= pos < |exts| && exts[..pos + 1] == old(exts)[..pos + 1] && LeftFlat(up) == LeftFlat(old(up))
      ensures err != EOK ==> pos < |old(exts)| && lost == Taken(old(up), old(exts), pos, ForNodes(old(up), |old(src.supply)|))
      ensures err != EOK ==> (lost != [] <==> CutsOff(old(up), old(exts), pos, ForNodes(old(up), |old(src.supply)|)))
    {
      hide PathOk, LeftFlat, RightFlat, Sorted, Below, Above, NoOverlap, Searched, How.Fits, How.Old, How.New, Taken, CutsOff, NodesUp,
           FullBelow, Plug, Owned, DataOf, Gained, Balanced;
      PathPositioned(up, 0, FirstOr(x), sp.rootMax, sp.blockMax);
      TreeOwned();
      err, how, lost := InsertLoop(x, noCombine, src);
      if err == EOK {
        TreeOwned();
        HowGains(how, x);
        ghost var n := if |old(exts)| < old(max) || (!noCombine && old(Merges(x))) then 0 else 1 + FullBelow(old(up));
        BalancedIs(old(Tree()), Tree(), Gained(how, x), old(src.supply), src.supply, n);
      }
    }

    lemma TreeOwned()
      requires Positioned(up)
      ensures Owned(Tree()) == NodeBlocks() + DataOf(Whole())
    {
      hide LeftFlat, RightFlat, Plug, NodesUp, Nodes, Owned, DataOf, Flat;
      NodeBlocksAre();
      OwnedIs(Tree());
      FlatPlug(up, Leaf(blk, max, exts));
      FlatOfNode(Leaf(blk, max, exts));
    }
  }

  /** Where a full leaf is cut: behind the extent found for x, which is not the first one unless others follow it. */
  lemma SplitPlace(left: seq<Extent>, exts: seq<Extent>, right: seq<Extent>, pos: int, x: Extent)
    requires Sorted(left + exts + right) && |exts| >= 2 && ExtentFound(exts, pos, x.firstBlock)
    ensures 0 <= pos < |exts| && exts[0].firstBlock < (if pos + 1 != |exts| then exts[pos + 1].firstBlock else x.firstBlock)
    ensures pos + 1 != |exts| ==> x.firstBlock < exts[pos + 1].firstBlock
  {
    SortedParts(left + exts, right);
    SortedParts(left, exts);
    assert exts[0].Valid();
  }

  lemma ShortWhole(left: seq<Extent>, exts: seq<Extent>, n: nat, lost: seq<Extent>, right: seq<Extent>, rest: seq<Extent>)
    requires n <= |exts| && lost + right == rest && Sorted(left + exts + rest)
    ensures left + exts[..n] + (exts[n..] + lost) + right == left + exts + rest
    ensures Sorted(left + exts[..n] + right)
  {
    var a, b, c := left + exts[..n], exts[n..] + lost, right;
    assert exts == exts[..n] + exts[n..];
    assert a + b + c == left + exts + rest;
    SortedParts(a + b, c);
    SortedParts(a, b);
    assert a <= a + b;
    SortedJoin(a, c);
  }

  lemma BehindLevel(before: seq<Level>, up: seq<Level>, at: nat, first: nat, exts: seq<Extent>, rest: seq<Extent>, key: nat, sp: Space)
    requires PathOk(before, 0, first, sp.rootMax, sp.blockMax) && Positioned(before) && 1 <= at <= |before|
    requires exts != [] && first == exts[0].firstBlock < key && Sorted(LeftFlat(before) + exts + rest)
    requires |up| == |before| && up[..at] == before[..at]
    ensures up[at - 1] == before[at - 1] && up[at - 1].HasPos() && up[at - 1].Key() < key
  {
    hide PathOk, LeftFlat, Sorted;
    assert up[..at][at - 1] == before[..at][at - 1];
    var a, l, b := before[..at - 1], before[at - 1], before[at..];
    assert before == a + ([l] + b) == (a + [l]) + b;
    ConcatPositioned(a + [l], b, first, sp);
    LeftBegins(a + [l], b, exts, rest);
    KeyBehind(a, l, b, first, key, sp);
  }

  lemma TurnLeft(before: seq<Level>, up: seq<Level>, at: nat, right: seq<Level>, first: nat, key: nat, sp: Space, node: Tree)
    requires PathOk(before, 0, first, sp.rootMax, sp.blockMax) && Positioned(before) && 1 <= at <= |before| == |up|
    requires up[..at] == before[..at] && Cut(before[at..], up[at..], right, first, key, sp.blockMax)
    requires up[at - 1].HasPos() && |up[at - 1].entries| < up[at - 1].max
    requires node.Leaf? && node.max == sp.blockMax && 1 <= |node.exts| <= sp.blockMax && First(node) == key
    ensures Positioned(right)
    ensures var up' := up[at - 1 := WithRight(up[at - 1], key, Plug(right, node))];
            && PathOk(up', 0, first, sp.rootMax, sp.blockMax) && Positioned(up')
            && LeftFlat(up') == LeftFlat(before) && RightFlat(up') == node.exts + RightFlat(before)
  {
    hide PathOk, LeftFlat, RightFlat, Plug, Cut;
    var a, l, b := before[..at - 1], before[at - 1], before[at..];
    assert up[..at][at - 1] == before[..at][at - 1] && up[..at][..at - 1] == before[..at][..at - 1];
    assert before == a + ([l] + b);
    SplitLeft(a, l, b, up[at..], right, first, key, sp, node);
    assert up[at - 1 := WithRight(l, key, Plug(right, node))] == a + ([WithRight(l, key, Plug(right, node))] + up[at..]);
  }

  lemma TurnRight(before: seq<Level>, up: seq<Level>, at: nat, right: seq<Level>, first: nat, key: nat, sp: Space,
                  node: Tree, blk: nat)
    requires PathOk(before, 0, first, sp.rootMax, sp.blockMax) && Positioned(before) && 1 <= at <= |before| == |up|
    requires up[..at] == before[..at] && Cut(before[at..], up[at..], right, first, key, sp.blockMax)
    requires up[at - 1].HasPos() && |up[at - 1].entries| < up[at - 1].max
    requires node.Leaf? && node.max == sp.blockMax && 1 <= |node.exts| <= sp.blockMax && First(node) == first
    ensures Positioned(up[at..])
    ensures var l := WithRight(up[at - 1], key, Leaf(blk, 0, []));
            var l' := l.(entries := l.entries[l.pos := Entry(l.Key(), Plug(up[at..], node))], pos := l.pos + 1);
            var up' := up[..at - 1] + ([l'] + right);
            && |right| == |up| - at && PathOk(up', 0, key, sp.rootMax, sp.blockMax) && Positioned(up')
            && LeftFlat(up') == LeftFlat(before) + node.exts && RightFlat(up') == RightFlat(before)
  {
    hide PathOk, LeftFlat, RightFlat, Plug;
    var a, l, b := before[..at - 1], before[at - 1], before[at..];
    assert up[..at][at - 1] == before[..at][at - 1] && up[..at][..at - 1] == before[..at][..at - 1];
    assert up[..at - 1] == a && before == a + ([l] + b);
    SplitRight(a, l, b, up[at..], right, first, key, sp, node, blk);
    var e := WithRight(l, key, Leaf(blk, 0, [])).entries;
    assert e[l.pos := Entry(l.Key(), Plug(up[at..], node))] == MovedOn(l, Plug(up[at..], node), key, blk).entries;
  }

  lemma PathBlocks(before: seq<Level>, cut: seq<Level>, up: seq<Level>, at: nat)
    requires |before| == |cut| == |up| && at <= |up| && SameBlocks(cut, before)
    ensures SameBlocks(up, cut) ==> SameBlocks(up, before)
    ensures SameBlocks(up[..at], cut[..at]) ==> SameBlocks(up[..at], before[..at])
  {
    assert forall k :: 0 <= k < at ==> cut[..at][k].blk == cut[k].blk == before[k].blk == before[..at][k].blk;
  }

  /** The blocks of the path, and of all nodes, after a split. */
  lemma FinishNodes(before: seq<Level>, cut: seq<Level>, up: seq<Level>, exts: seq<Extent>, right: seq<Level>, was: nat, blk: nat, at: nat,
                    supply: seq<nat>, first: nat, key: nat, sp: Space)
    requires PathOk(before, 0, first, sp.rootMax, sp.blockMax) && 1 <= at <= |before| == |cut| == |up| && Positioned(before)
    requires Positioned(cut) && Positioned(up) && cut[..at] == before[..at] && Cut(before[at..], cut[at..], right, first, key, sp.blockMax)
    requires supply != [] && NodesCut(before, cut, right, at, supply[1..]) && Positioned(right)
    requires if exts != [] then blk == was && SameBlocks(up, cut) && NodesUp(up) == NodesUp(cut) + NodesUp(right) + multiset{supply[0]}
             else blk == supply[0] && up[at..] == right && SameBlocks(up[..at], cut[..at])
                  && NodesUp(up) == NodesUp(cut) + NodesUp(right) + multiset{was}
    ensures NodesUp(up) + multiset{blk} == NodesUp(before) + multiset{was} + multiset(supply[..|up| - at + 1])
    ensures SplitBlocks(up, blk, exts, at, before, was, supply)
  {
    hide PathOk, NodesUp, Cut;
    CutHolds(before, cut, right, at, supply[1..]);
    PathBlocks(before, cut, up, at);
    AllSplitNodes(before, cut, right, was, supply[0], at, supply, NodesUp(up) + multiset{blk}, first, key, sp);
  }

  lemma AllSplitNodes(before: seq<Level>, cut: seq<Level>, right: seq<Level>, blk: nat, newLeaf: nat, at: nat, supply: seq<nat>,
                      all: multiset<nat>, first: nat, key: nat, sp: Space)
    requires PathOk(before, 0, first, sp.rootMax, sp.blockMax) && 1 <= at <= |before| == |cut| && Positioned(before) && Positioned(cut)
    requires cut[..at] == before[..at] && Cut(before[at..], cut[at..], right, first, key, sp.blockMax)
    requires |supply| >= |before| - at + 1 && supply[0] == newLeaf
    requires Positioned(cut[at..]) && Positioned(right) && Positioned(before[at..])
    requires NodesUp(cut[at..]) + NodesUp(right) == NodesUp(before[at..]) + multiset(supply[1..][..|before| - at])
    requires all == NodesUp(cut) + multiset{blk} + NodesUp(right) + multiset{newLeaf}
    ensures all == NodesUp(before) + multiset{blk} + multiset(supply[..|before| - at + 1])
  {
    hide PathOk, NodesUp, Cut, Positioned;
    assert cut == cut[..at] + cut[at..] && before == before[..at] + before[at..];
    FrontPositioned(before, at);
    UpConcat(cut[..at], cut[at..]);
    UpConcat(before[..at], before[at..]);
    TakenSplit(supply, 1, |before| - at + 1);
    assert supply[..1] == [newLeaf];
    Balance(NodesUp(cut[..at]), NodesUp(cut[at..]), NodesUp(right), NodesUp(before[at..]), multiset(supply[1..][..|before| - at]),
            multiset{blk}, multiset{newLeaf});
  }

  lemma BlocksAdded(a: multiset<nat>, b: multiset<nat>, c: multiset<nat>, supply: seq<nat>, n: nat)
    requires 1 + n <= |supply| && b == a + multiset(supply[..1]) && c == b + multiset(supply[1..][..n])
    ensures c == a + multiset(supply[..1 + n])
  {
    TakenSplit(supply, 1, 1 + n);
    assert supply[1..][..1 + n - 1] == supply[1..][..n];
  }

  lemma FrontPositioned(up: seq<Level>, at: nat)
    requires Positioned(up) && at <= |up|
    ensures Positioned(up[..at])
  {
  }

  lemma Balance(a: multiset<nat>, b: multiset<nat>, c: multiset<nat>, d: multiset<nat>, e: multiset<nat>, f: multiset<nat>, g: multiset<nat>)
    requires b + c == d + e
    ensures (a + b) + f + c + g == (a + d) + f + (g + e)
  {
    forall x ensures ((a + b) + f + c + g)[x] == ((a + d) + f + (g + e))[x] {
      assert (b + c)[x] == (d + e)[x];
    }
  }

  /** The levels of a path that is being split, apart. */
  lemma SplitApart(before: seq<Level>, up: seq<Level>, at: nat, right: seq<Level>, first: nat, key: nat, sp: Space)
    requires PathOk(before, 0, first, sp.rootMax, sp.blockMax) && 1 <= at <= |before| == |up|
    requires up[..at] == before[..at] && Cut(before[at..], up[at..], right, first, key, sp.blockMax)
    ensures Positioned(up[..at - 1]) && up[at - 1].HasPos() && Positioned(up[at..]) && Positioned(right) && Positioned(up)
    ensures NodesUp(up) == NodesUp(up[..at - 1]) + NodesBeside(up[at - 1]) + NodesUp(up[at..])
  {
    hide PathOk, NodesUp, NodesBeside;
    PathPositioned(before, 0, first, sp.rootMax, sp.blockMax);
    var a, l, b := up[..at - 1], up[at - 1], up[at..];
    assert up[..at][at - 1] == before[..at][at - 1] && a == up[..at][..at - 1] == before[..at][..at - 1] == before[..at - 1];
    assert up == a + ([l] + b);
    UpAround(a, l, b);
  }

  lemma HungNodes(before: seq<Level>, up: seq<Level>, at: nat, right: seq<Level>, first: nat, key: nat, sp: Space, node: Tree)
    requires PathOk(before, 0, first, sp.rootMax, sp.blockMax) && 1 <= at <= |before| == |up| && node.Leaf?
    requires up[..at] == before[..at] && Cut(before[at..], up[at..], right, first, key, sp.blockMax)
    ensures Positioned(up) && Positioned(right) && up[at - 1].HasPos()
    ensures var up' := up[at - 1 := WithRight(up[at - 1], key, Plug(right, node))];
            Positioned(up') && NodesUp(up') == NodesUp(up) + NodesUp(right) + multiset{node.blk}
  {
    hide PathOk, NodesUp, NodesBeside, Cut, Plug;
    SplitApart(before, up, at, right, first, key, sp);
    var a, l, b := up[..at - 1], up[at - 1], up[at..];
    var l' := WithRight(l, key, Plug(right, node));
    WithRightNodes(l, key, Plug(right, node));
    NodesPlug(right, node);
    LeafNodes(node);
    UpAround(a, l', b);
    assert up[at - 1 := l'] == a + ([l'] + b);
  }

  lemma MovedNodes(before: seq<Level>, up: seq<Level>, at: nat, right: seq<Level>, first: nat, key: nat, sp: Space, node: Tree, blk: nat)
    requires PathOk(before, 0, first, sp.rootMax, sp.blockMax) && 1 <= at <= |before| == |up| && node.Leaf?
    requires up[..at] == before[..at] && Cut(before[at..], up[at..], right, first, key, sp.blockMax)
    ensures Positioned(up) && Positioned(right) && up[at - 1].HasPos() && Positioned(up[at..])
    ensures var l := WithRight(up[at - 1], key, Leaf(blk, 0, []));
            var l' := l.(entries := l.entries[l.pos := Entry(l.Key(), Plug(up[at..], node))], pos := l.pos + 1);
            var up' := up[..at - 1] + ([l'] + right);
            Positioned(up') && NodesUp(up') == NodesUp(up) + NodesUp(right) + multiset{node.blk}
  {
    hide PathOk, NodesUp, NodesBeside, Cut, Plug;
    SplitApart(before, up, at, right, first, key, sp);
    var a, l, b := up[..at - 1], up[at - 1], up[at..];
    var l' := MovedOn(l, Plug(b, node), key, blk);
    MovedOnNodes(l, Plug(b, node), key, blk);
    NodesPlug(b, node);
    LeafNodes(node);
    UpAround(a, l', right);
    var e := WithRight(l, key, Leaf(blk, 0, [])).entries;
    assert e[l.pos := Entry(l.Key(), Plug(b, node))] == l'.entries;
  }

  lemma LeftWhole(left: seq<Extent>, exts: seq<Extent>, pos: nat, rest: seq<Extent>, x: Extent)
    requires pos + 1 < |exts| && Sorted(left + exts + rest) && ExtentFound(exts, pos, x.firstBlock) && Above(rest, x.firstBlock)
    ensures left + exts[..pos + 1] + (exts[pos + 1..] + rest) == left + exts + rest
    ensures ExtentFound(exts[..pos + 1], pos, x.firstBlock) && Above(exts[pos + 1..] + rest, x.firstBlock)
  {
    SortedParts(left + exts, rest);
    SortedParts(left, exts);
  }

  lemma RightWhole(left: seq<Extent>, exts: seq<Extent>, rest: seq<Extent>, x: Extent)
    requires exts != [] && Sorted(left + exts + rest) && NoOverlap(left + exts + rest, x) && x.Valid()
    requires exts[|exts| - 1].firstBlock <= x.firstBlock
    ensures left + exts + [] + rest == left + exts + rest
    ensures Below(left + exts, x.firstBlock)
  {
    var whole, n := left + exts + rest, |left + exts|;
    assert left + exts + [] == left + exts;
    assert whole[n - 1] == exts[|exts| - 1];
    forall i | 0 <= i < n ensures (left + exts)[i].End() <= x.firstBlock {
      assert whole[i] == (left + exts)[i] && whole[i].Valid();
    }
  }

  /** How many nodes are full in a row, from the end of the path up. */
  function FullBelow(up: seq<Level>): nat {
    if up == [] then 0
    else
      var l := up[|up| - 1];
      if |l.entries| < l.max then 0 else 1 + FullBelow(up[..|up| - 1])
  }

  lemma FoundPlace(exts: seq<Extent>, pos: int, block: nat)
    requires ExtentFound(exts, pos, block)
    ensures -1 <= pos < |exts|
  {
  }

  lemma TakenNone(up: seq<Level>, exts: seq<Extent>, pos: int)
    requires Positioned(up) && -1 <= pos < |exts|
    ensures Taken(up, exts, pos, 0) == []
  {
  }

  /** Growing adds a level at the other end of the path. */
  lemma TakenGrown(up: seq<Level>, grown: seq<Level>, exts: seq<Extent>, pos: int, n: int)
    requires Positioned(up) && Positioned(grown) && |grown| == |up| + 1 && -1 <= pos < |exts|
    requires forall i :: 0 <= i < |up| ==> grown[i + 1].Behind() == up[i].Behind()
    ensures 0 <= n <= |up| + 1 ==> Taken(grown, exts, pos, n) == Taken(up, exts, pos, n)
  {
    hide RightFlat;
    if 0 < n <= |up| + 1 {
      var a, b := grown[|grown| - (n - 1)..], up[|up| - (n - 1)..];
      assert forall i :: 0 <= i < |b| ==> a[i] == grown[|up| - (n - 1) + i + 1] && b[i] == up[|up| - (n - 1) + i];
      SameBehind(a, b);
    }
  }

  lemma CutsNothing(up: seq<Level>, exts: seq<Extent>, pos: int)
    ensures !CutsOff(up, exts, pos, 0)
  {
  }

  lemma CutsOffGrown(up: seq<Level>, grown: seq<Level>, exts: seq<Extent>, pos: int, n: int)
    requires |grown| == |up| + 1 && forall i :: 0 <= i < |up| ==> grown[i + 1].Behind() == up[i].Behind()
    ensures 0 <= n <= |up| + 1 ==> (CutsOff(grown, exts, pos, n) <==> CutsOff(up, exts, pos, n))
  {
    if 0 < n <= |up| + 1 {
      forall k: nat | |up| - (n - 1) <= k < |up| ensures grown[k + 1].Behind() == up[k].Behind() {
      }
      assert forall k: nat :: 0 < k < |grown| ==> grown[k].Behind() == up[k - 1].Behind();
    }
  }

  /** Something is taken over just when a new node was made and there is an extent or an entry right of the path where it was cut. */
  lemma TakenSome(up: seq<Level>, exts: seq<Extent>, pos: int, n: nat, first: nat, sp: Space)
    requires PathOk(up, 0, first, sp.rootMax, sp.blockMax) && n <= |up| + 1 && -1 <= pos < |exts|
    ensures Positioned(up)
    ensures Taken(up, exts, pos, n) != [] <==> CutsOff(up, exts, pos, n)
  {
    hide PathOk, RightFlat;
    PathPositioned(up, 0, first, sp.rootMax, sp.blockMax);
    if n > 0 {
      var m := |up| - (n - 1);
      BehindSome(up, first, sp, m);
    }
  }

  /** A path has extents right of it from a level on just when one of its levels there has entries right of it. */
  lemma {:induction false} BehindSome(up: seq<Level>, first: nat, sp: Space, m: nat)
    requires PathOk(up, 0, first, sp.rootMax, sp.blockMax) && m <= |up|
    ensures Positioned(up) && (RightFlat(up[m..]) != [] <==> exists k :: m <= k < |up| && up[k].Behind() != [])
    decreases |up| - m
  {
    hide PathOk, LevelOk;
    PathPositioned(up, 0, first, sp.rootMax, sp.blockMax);
    if m < |up| {
      BehindSome(up, first, sp, m + 1);
      assert up[m..][1..] == up[m + 1..] && up[m..][0] == up[m];
      LevelBehind(up, m, first, sp);
    }
  }

  lemma LevelBehind(up: seq<Level>, m: nat, first: nat, sp: Space)
    requires PathOk(up, 0, first, sp.rootMax, sp.blockMax) && m < |up|
    ensures up[m].HasPos() && (FlatAll(up[m].entries[up[m].pos + 1..]) != [] <==> up[m].Behind() != [])
  {
    hide PathOk, FlatAll;
    assert up == up[..m] + ([up[m]] + up[m + 1..]);
    SplitPath(up[..m], up[m], up[m + 1..], first, sp);
    TailSome(up[m], |up| - m - 1, TopFirst(up[m + 1..], first), if m == 0 then sp.rootMax else sp.blockMax, sp.blockMax);
  }

  lemma TailSome(l: Level, depth: nat, first: nat, max: nat, blockMax: nat)
    requires LevelOk(l, depth, first, max, blockMax)
    ensures l.HasPos() && (FlatAll(l.entries[l.pos + 1..]) != [] <==> l.Behind() != [])
  {
    hide EntryOk;
    var tail := l.entries[l.pos + 1..];
    if tail != [] {
      assert tail[0] == l.entries[l.pos + 1];
      EntryFirst(tail[0], depth, blockMax);
    }
  }

  lemma EntryFirst(e: Entry, depth: nat, blockMax: nat)
    requires EntryOk(e, depth, blockMax)
    ensures FlatEntry(e) != []
  {
    SubFirst(e.child, depth, blockMax);
  }

  /** How many of the blocks that are left go to split nodes, when they do not suffice: when all nodes are full the first one becomes the root. */
  function ForNodes(up: seq<Level>, blocks: nat): (n: nat)
    ensures blocks < 1 + FullBelow(up) ==> n <= |up|
  {
    FullAtMost(up);
    if FullBelow(up) == |up| && blocks > 0 then blocks - 1 else blocks
  }

  lemma FullAtMost(up: seq<Level>)
    ensures FullBelow(up) <= |up|
  {
    if up != [] {
      FullAtMost(up[..|up| - 1]);
    }
  }

  /** Where the search for a node with room stops. */
  lemma NotFull(up: seq<Level>, i: int, first: nat, sp: Space)
    requires PathOk(up, 0, first, sp.rootMax, sp.blockMax) && -1 <= i < |up|
    requires i >= 0 ==> |up[i].entries| != up[i].max
    ensures i >= 0 ==> |up[i].entries| < up[i].max && FullBelow(up[..i + 1]) == 0
    ensures i < 0 ==> FullBelow(up[..i + 1]) == 0
  {
    hide LevelOk;
    if i >= 0 {
      assert up == up[..i] + ([up[i]] + up[i + 1..]);
      SplitPath(up[..i], up[i], up[i + 1..], first, sp);
      LevelRoom(up[i], |up| - i - 1, TopFirst(up[i + 1..], first), if i == 0 then sp.rootMax else sp.blockMax, sp.blockMax);
    }
  }

  lemma LevelRoom(l: Level, depth: nat, first: nat, max: nat, blockMax: nat)
    requires LevelOk(l, depth, first, max, blockMax)
    ensures |l.entries| <= l.max
  {
  }

  /** A sound path with a leaf that is not empty is that of a sound tree. */
  lemma WholeTree(up: seq<Level>, leaf: Tree, first: nat, sp: Space)
    requires sp.Valid() && leaf.Leaf? && leaf.exts != [] && leaf.exts[0].firstBlock == first && |leaf.exts| <= leaf.max == HoleMax(up, sp)
    requires PathOk(up, 0, first, sp.rootMax, sp.blockMax) && Positioned(up)
    requires Sorted(LeftFlat(up) + leaf.exts + RightFlat(up))
    ensures TreeOk(Plug(up, leaf), |up|, sp)
    ensures Flat(Plug(up, leaf)) == LeftFlat(up) + leaf.exts + RightFlat(up)
  {
    hide PathOk, LeftFlat, RightFlat, EntryOk, Sorted;
    FlatPlug(up, leaf);
    FlatOfNode(leaf);
    if up != [] {
      PlugOk(up, leaf, 0, sp.rootMax, sp.blockMax);
    } else {
      EmptyPlug(leaf);
    }
  }

  lemma EmptyPlug(leaf: Tree)
    ensures Plug([], leaf) == leaf
  {
  }

  /** The search in a leaf has one outcome. */
  lemma OneExtent(exts: seq<Extent>, p: int, p': int, block: nat, left: seq<Extent>, right: seq<Extent>)
    requires Sorted(left + exts + right) && ExtentFound(exts, p, block) && ExtentFound(exts, p', block)
    ensures p == p'
  {
    SortedParts(left + exts, right);
    SortedParts(left, exts);
    var q := if p < p' then p + 1 else p' + 1;
    assert 0 <= q < |exts| ==> exts[q].Valid();
  }

  lemma TopMax(up: seq<Level>, first: nat, sp: Space)
    requires PathOk(up, 0, first, sp.rootMax, sp.blockMax)
    ensures up != [] ==> up[0].max == sp.rootMax
  {
  }

  /** What lies right of the path is the same after growing. */
  lemma GrownBehind(before: seq<Level>, t: Tree, blk: nat, sp: Space, up: seq<Level>)
    requires (if t.Leaf? then t.exts != [] else t.entries != []) && |up| == |before| + 1
    requires var g := GrownUp(before, t, blk, sp); forall i :: 0 <= i < |up| ==> up[i].Behind() == g[i].Behind()
    ensures forall i :: 0 <= i < |before| ==> up[i + 1].Behind() == before[i].Behind()
  {
    var g := GrownUp(before, t, blk, sp);
    forall i | 0 <= i < |before| ensures up[i + 1].Behind() == before[i].Behind() {
      assert g[i + 1].Behind() == before[i].Behind();
    }
  }

  /** When all nodes were full, then after growing all are but the new root and the node below it. */
  lemma GrownFull(before: seq<Level>, t: Tree, blk: nat, sp: Space, up: seq<Level>)
    requires sp.Valid() && (if t.Leaf? then t.exts != [] else t.entries != []) && |up| == |before| + 1
    requires forall i :: 0 <= i < |before| ==> |before[i].entries| == before[i].max
    requires before != [] ==> before[0].max == sp.rootMax
    requires var g := GrownUp(before, t, blk, sp); forall i :: 0 <= i < |up| ==> up[i].max == g[i].max && |up[i].entries| == |g[i].entries|
    ensures forall i :: 2 <= i < |up| ==> |up[i].entries| == up[i].max
    ensures before != [] ==> |up[1].entries| < up[1].max
  {
    var g := GrownUp(before, t, blk, sp);
    forall i | 2 <= i < |up| ensures |up[i].entries| == up[i].max {
      assert g[i] == before[i - 1];
    }
  }

  lemma NothingBelow(up: seq<Level>, first: nat)
    ensures up[|up|..] == [] && FixKeys([], first) == [] && TopFirst([], first) == first && up[..|up|] + [] == up
  {
  }

  lemma EmptyPathOk(up: seq<Level>, old_first: nat, first: nat, sp: Space)
    requires PathOk(up, 0, old_first, sp.rootMax, sp.blockMax) && (up == [] || first == old_first)
    ensures PathOk(up, 0, first, sp.rootMax, sp.blockMax)
  {
  }

  /** The walk stands at node t, at the given depth below up. */
  ghost predicate AtNode(up: seq<Level>, t: Tree, depth: nat, sp: Space) {
    && sp.Valid() && Positioned(up)
    && if depth == 0 then
         && t.Leaf? && t.max == HoleMax(up, sp) && |t.exts| <= t.max && (up != [] ==> t.exts != [])
         && (t.exts != [] ==> PathOk(up, 0, First(t), sp.rootMax, sp.blockMax))
       else
         && NodeOk(t, depth, HoleMax(up, sp), sp.blockMax)
         && PathOk(up, depth, First(t), sp.rootMax, sp.blockMax)
  }

  lemma RootStart(root: Tree, depth: nat, sp: Space)
    requires sp.Valid() && TreeOk(root, depth, sp)
    ensures Plug([], root) == root && LeftFlat([]) == [] && RightFlat([]) == []
    ensures AtNode([], root, depth, sp) && Sorted(LeftFlat([]) + Flat(root) + RightFlat([]))
  {
    assert LeftFlat([]) + Flat(root) + RightFlat([]) == Flat(root);
  }

  /** The extents under the node are sorted, and so are its keys. */
  lemma NodeSorted(up: seq<Level>, t: Tree, depth: nat, sp: Space)
    requires AtNode(up, t, depth, sp) && Sorted(LeftFlat(up) + Flat(t) + RightFlat(up))
    ensures Sorted(Flat(t)) && (t.Leaf? <==> depth == 0)
    ensures t.Node? ==> t.entries != [] && forall i, j :: 0 <= i < j < |t.entries| ==> t.entries[i].key < t.entries[j].key
  {
    hide EntryOk, Flat, FlatAll, LeftFlat, RightFlat, PathOk;
    SortedParts(LeftFlat(up) + Flat(t), RightFlat(up));
    SortedParts(LeftFlat(up), Flat(t));
    if t.Node? {
      FlatOfNode(t);
      forall i, j | 0 <= i < j < |t.entries| ensures t.entries[i].key < t.entries[j].key {
        KeysAscend(t.entries, depth - 1, sp.blockMax, i, j);
      }
    }
  }

  lemma LeafFirst(up: seq<Level>, t: Tree, sp: Space)
    requires AtNode(up, t, 0, sp)
    ensures t.Leaf? && t.max == HoleMax(up, sp) && |t.exts| <= t.max && (up != [] ==> t.exts != [])
    ensures if t.exts == [] then forall b: nat :: PathOk(up, 0, b, sp.rootMax, sp.blockMax)
            else PathOk(up, 0, t.exts[0].firstBlock, sp.rootMax, sp.blockMax)
  {
  }

  lemma FlatOfNode(t: Tree)
    ensures if t.Leaf? then Flat(t) == t.exts else Flat(t) == FlatAll(t.entries)
  {
  }

  lemma WalkStep(up: seq<Level>, t: Tree, depth: nat, sp: Space, p: nat, block: nat)
    requires AtNode(up, t, depth, sp) && t.Node? && KeyFound(t.entries, p, block)
    requires Below(LeftFlat(up), block) && Above(RightFlat(up), block)
    requires Sorted(LeftFlat(up) + Flat(t) + RightFlat(up))
    ensures var up', child := up + [Level(t.blk, t.max, t.entries, p)], t.entries[p].child;
            && depth > 0 && AtNode(up', child, depth - 1, sp) && Plug(up', child) == Plug(up, t)
            && Below(LeftFlat(up'), block) && Above(RightFlat(up'), block)
            && Sorted(LeftFlat(up') + Flat(child) + RightFlat(up'))
  {
    hide EntryOk, Flat, FlatAll, LeftFlat, RightFlat, PathOk, Plug, Sorted;
    NodeSorted(up, t, depth, sp);
    FlatOfNode(t);
    LevelSearch(t.entries, depth - 1, sp.blockMax, p, block);
    Descend(up, t, p);
    DescendOk(up, t, depth, sp, p);
    FlatAllAt(t.entries, p);
    ChildAtNode(up + [Level(t.blk, t.max, t.entries, p)], t.entries[p].child, depth - 1, sp);
    var l, m, r := FlatAll(t.entries[..p]), Flat(t.entries[p].child), FlatAll(t.entries[p + 1..]);
    assert LeftFlat(up) + (l + m + r) + RightFlat(up) == (LeftFlat(up) + l) + m + (r + RightFlat(up));
  }

  lemma ChildAtNode(up: seq<Level>, t: Tree, depth: nat, sp: Space)
    requires sp.Valid() && up != [] && Positioned(up) && SubOk(t, depth, sp.blockMax)
    requires PathOk(up, depth, First(t), sp.rootMax, sp.blockMax)
    ensures AtNode(up, t, depth, sp)
  {
    hide PathOk;
  }

  lemma NothingRight()
    ensures RightFlat([]) == [] && Positioned([])
  {
  }

  /** The paths agree in their first i levels. */
  ghost predicate Prefix(up: seq<Level>, before: seq<Level>, i: nat) {
    i <= |up| && i <= |before| && forall k :: 0 <= k < i ==> up[k] == before[k]
  }

  lemma PrefixAll(up: seq<Level>)
    ensures Prefix(up, up, |up|) && up[|up|..] == []
  {
  }

  lemma PrefixSame(up: seq<Level>, before: seq<Level>, i: nat, at: nat)
    requires Prefix(up, before, i) && at <= i
    ensures up[..at] == before[..at] && up[..at] + up[at..] == up && before[..at] + before[at..] == before
  {
  }

  lemma PrefixLess(up: seq<Level>, before: seq<Level>, i: nat, l: Level)
    requires Prefix(up, before, i) && i > 0
    ensures up[i - 1] == before[i - 1] && Prefix(up[i - 1 := l], before, i - 1)
    ensures up[i - 1 := l][i - 1..] == [l] + up[i..] && before[i - 1..] == [before[i - 1]] + before[i..]
    ensures before == before[..i - 1] + ([before[i - 1]] + before[i..])
  {
  }

  /** Cutting one more level of the path before. */
  lemma CutNext(before: seq<Level>, up: seq<Level>, i: nat, right: seq<Level>, first: nat, key: nat, sp: Space, child: nat, blk: nat)
    requires PathOk(before, 0, first, sp.rootMax, sp.blockMax) && 1 < i <= |before| == |up| && Prefix(up, before, i)
    requires Cut(before[i..], up[i..], right, first, key, sp.blockMax)
    ensures up[i - 1].HasPos()
    ensures var up' := up[i - 1 := Kept(up[i - 1])];
            && Cut(before[i - 1..], up'[i - 1..], [Moved(up[i - 1], key, child, blk, sp.blockMax)] + right, first, key, sp.blockMax)
            && Prefix(up', before, i - 1)
  {
    hide PathOk, Cut, LevelOk, Prefix;
    var a, l, b := before[..i - 1], before[i - 1], before[i..];
    PrefixLess(up, before, i, l);
    SplitPath(a, l, b, first, sp);
    CutMore(l, b, up[i..], right, first, key, sp.blockMax, child, blk);
    PrefixLess(up, before, i, Kept(l));
  }

  /** The levels from i on are cut, and the new nodes lie in the first blocks of the supply. */
  ghost predicate NodesCut(before: seq<Level>, up: seq<Level>, right: seq<Level>, i: nat, supply: seq<nat>) {
    && i <= |up| == |before| && Positioned(before[i..]) && Positioned(up[i..]) && Positioned(right)
    && |right| == |up| - i <= |supply|
    && NodesUp(up[i..]) + NodesUp(right) == NodesUp(before[i..]) + multiset(supply[..|up| - i])
    && SameBlocks(up, before) && FromSupply(right, supply)
  }

  /** The state of the cutting loop when the levels from i on are cut. */
  ghost predicate Cutting(before: seq<Level>, up: seq<Level>, right: seq<Level>, i: nat, supply: seq<nat>, rest: seq<nat>, first: nat, key: nat,
                          sp: Space)
  {
    && i <= |before| == |up| && Prefix(up, before, i) && Cut(before[i..], up[i..], right, first, key, sp.blockMax)
    && |up| - i <= |supply| && rest == supply[|up| - i..] && NodesCut(before, up, right, i, supply)
  }

  /** There was no block for level i - 1. */
  ghost predicate CutFailed(before: seq<Level>, up: seq<Level>, lost: seq<Extent>, i: nat, first: nat, sp: Space) {
    && i <= |before| == |up| && Prefix(up, before, i) && Positioned(before) && Positioned(up)
    && PathOk(up, 0, first, sp.rootMax, sp.blockMax)
    && LeftFlat(up) == LeftFlat(before) && lost + RightFlat(up) == RightFlat(before)
    && Positioned(before[i..]) && lost == RightFlat(before[i..])
  }

  lemma CuttingStart(up: seq<Level>, supply: seq<nat>, first: nat, key: nat, sp: Space)
    ensures Cutting(up, up, [], |up|, supply, supply, first, key, sp)
  {
    hide Cut, NodesCut, Prefix;
    PrefixAll(up);
    NoneCut(up, supply);
    CutNothing(first, key, sp.blockMax);
    assert up[|up|..] == [];
  }

  lemma CuttingEnd(before: seq<Level>, up: seq<Level>, right: seq<Level>, i: nat, supply: seq<nat>, rest: seq<nat>, first: nat, key: nat, sp: Space)
    requires Cutting(before, up, right, i, supply, rest, first, key, sp)
    ensures i <= |before| == |up| && up[..i] == before[..i] && Cut(before[i..], up[i..], right, first, key, sp.blockMax)
    ensures |up| - i <= |supply| && rest == supply[|up| - i..] && NodesCut(before, up, right, i, supply)
  {
    hide Cut, NodesCut, Prefix;
    PrefixSame(up, before, i, i);
  }

  lemma CutFailedIs(before: seq<Level>, up: seq<Level>, lost: seq<Extent>, i: nat, at: nat, first: nat, sp: Space)
    requires CutFailed(before, up, lost, i, first, sp) && at <= i
    ensures i <= |before| == |up| && up[..at] == before[..at] && Positioned(before) && Positioned(up)
    ensures PathOk(up, 0, first, sp.rootMax, sp.blockMax) && LeftFlat(up) == LeftFlat(before) && lost + RightFlat(up) == RightFlat(before)
    ensures Positioned(before[i..]) && lost == RightFlat(before[i..])
  {
    hide Prefix, PathOk, LeftFlat, RightFlat;
    PrefixSame(up, before, i, at);
  }

  lemma NoneCut(up: seq<Level>, supply: seq<nat>)
    ensures NodesCut(up, up, [], |up|, supply)
  {
    assert up[|up|..] == [] && supply[..0] == [];
  }

  lemma CutHolds(before: seq<Level>, up: seq<Level>, right: seq<Level>, i: nat, supply: seq<nat>)
    requires NodesCut(before, up, right, i, supply)
    ensures i <= |up| == |before| && Positioned(before[i..]) && Positioned(up[i..]) && Positioned(right)
    ensures |right| == |up| - i <= |supply| && SameBlocks(up, before) && FromSupply(right, supply)
    ensures NodesUp(up[i..]) + NodesUp(right) == NodesUp(before[i..]) + multiset(supply[..|up| - i])
  {
  }

  lemma OneMoreCut(before: seq<Level>, up: seq<Level>, i: nat, right: seq<Level>, first: nat, key: nat, sp: Space, child: nat, supply: seq<nat>)
    requires PathOk(before, 0, first, sp.rootMax, sp.blockMax) && 1 < i <= |before| == |up| && Prefix(up, before, i)
    requires NodesCut(before, up, right, i, supply) && |up| - i < |supply|
    ensures up[i - 1].HasPos()
    ensures var blk := supply[|up| - i];
            NodesCut(before, up[i - 1 := Kept(up[i - 1])], [Moved(up[i - 1], key, child, blk, sp.blockMax)] + right, i - 1, supply)
  {
    hide PathOk, LevelOk, Prefix, NodesUp, SameBlocks, FromSupply, Kept, Moved, Positioned;
    var blk := supply[|up| - i];
    CutNextNodes(before, up, i, right, first, key, sp, child, blk, supply[..|up| - i]);
    KeptBlock(up[i - 1], key, child, blk, sp.blockMax);
    OneMoreBlock(up, before, i, right, supply, Kept(up[i - 1]), Moved(up[i - 1], key, child, blk, sp.blockMax));
  }

  lemma OneMoreBlock(up: seq<Level>, before: seq<Level>, i: nat, right: seq<Level>, supply: seq<nat>, kept: Level, moved: Level)
    requires 0 < i <= |up| && SameBlocks(up, before) && FromSupply(right, supply) && |right| == |up| - i < |supply|
    requires kept.blk == up[i - 1].blk && moved.blk == supply[|up| - i]
    ensures SameBlocks(up[i - 1 := kept], before) && FromSupply([moved] + right, supply)
    ensures supply[..|up| - i + 1] == supply[..|up| - i] + [moved.blk]
  {
  }

  lemma KeptBlock(l: Level, key: nat, child: nat, blk: nat, max: nat)
    requires l.pos < |l.entries|
    ensures Kept(l).blk == l.blk && Moved(l, key, child, blk, max).blk == blk
  {
  }

  lemma CutNextNodes(before: seq<Level>, up: seq<Level>, i: nat, right: seq<Level>, first: nat, key: nat, sp: Space, child: nat, blk: nat,
                     added: seq<nat>)
    requires PathOk(before, 0, first, sp.rootMax, sp.blockMax) && 1 < i <= |before| == |up| && Prefix(up, before, i)
    requires Positioned(before[i..]) && Positioned(up[i..]) && Positioned(right)
    requires NodesUp(up[i..]) + NodesUp(right) == NodesUp(before[i..]) + multiset(added)
    ensures up[i - 1].HasPos()
    ensures var up' := up[i - 1 := Kept(up[i - 1])]; var right' := [Moved(up[i - 1], key, child, blk, sp.blockMax)] + right;
            && Positioned(up'[i - 1..]) && Positioned(right') && Positioned(before[i - 1..])
            && NodesUp(up'[i - 1..]) + NodesUp(right') == NodesUp(before[i - 1..]) + multiset(added + [blk])
  {
    hide PathOk, LevelOk, Prefix, NodesUp;
    PathPositioned(before, 0, first, sp.rootMax, sp.blockMax);
    var l := before[i - 1];
    PrefixLess(up, before, i, Kept(l));
    CutNodes(l, before[i..], up[i..], right, key, child, blk, sp.blockMax, multiset(added));
  }

  /** A cut that got only as far as level i leaves a sound path, without what was right of the levels cut. */
  lemma CutShort(before: seq<Level>, up: seq<Level>, i: nat, right: seq<Level>, first: nat, key: nat, sp: Space)
    returns (lost: seq<Extent>)
    requires PathOk(before, 0, first, sp.rootMax, sp.blockMax) && 1 <= i <= |before| == |up| && Prefix(up, before, i)
    requires Cut(before[i..], up[i..], right, first, key, sp.blockMax)
    ensures Positioned(before) && Positioned(up) && PathOk(up, 0, first, sp.rootMax, sp.blockMax)
    ensures LeftFlat(up) == LeftFlat(before) && lost + RightFlat(up) == RightFlat(before)
    ensures Positioned(before[i..]) && lost == RightFlat(before[i..])
  {
    hide PathOk, LeftFlat, RightFlat, TopFirst, Prefix;
    PrefixSame(up, before, i, i);
    var a, b, kept := before[..i], before[i..], up[i..];
    ConcatPositioned(a, b, first, sp);
    PathConcat(a, b, 0, first, sp.rootMax, sp.blockMax);
    PathConcat(a, kept, 0, first, sp.rootMax, sp.blockMax);
    FlatConcat(a, b);
    FlatConcat(a, kept);
    lost := RightFlat(b);
  }
}

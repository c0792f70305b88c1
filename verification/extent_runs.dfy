/** A tree in which an insertion that runs out of blocks loses extents. */
module ExtentRuns {
  import opened BlockSupply
  import opened ExtentTree
  import opened ExtentZipper
  import opened ExtentSearch
  import opened ExtentInsert
  import opened ExtentPathOps

  function One(block: nat): Extent { Extent(block, 1, 1000 + 2 * block) }

  function Leaves(): seq<Entry> {
    [Entry(0, Leaf(11, 3, [One(0), One(10), One(20)])), Entry(30, Leaf(12, 3, [One(30)])), Entry(40, Leaf(13, 3, [One(40)]))]
  }

  /** A root with room above a full node with a full leaf. */
  function Narrow(): Tree { Node(1, 2, [Entry(0, Node(10, 3, Leaves()))]) }

  lemma LeavesOk(i: nat)
    requires i < 3
    ensures EntryOk(Leaves()[i], 0, 3)
  {
  }

  lemma LeavesFlat()
    ensures FlatAll(Leaves()) == [One(0), One(10), One(20)] + ([One(30)] + ([One(40)] + []))
    ensures FlatAll(Leaves()[1..]) == [One(30)] + ([One(40)] + [])
  {
    var e := Leaves();
    assert e[1..][1..] == [e[2]] && [e[2]][1..] == [];
    assert FlatAll([e[2]]) == [One(40)] + FlatAll([]);
    assert FlatAll(e[1..]) == FlatEntry(e[1]) + FlatAll(e[1..][1..]);
    assert FlatAll(e) == FlatEntry(e[0]) + FlatAll(e[1..]);
  }

  function All(): seq<Extent> { [One(0), One(10), One(20), One(30), One(40)] }

  lemma AllSorted()
    ensures Sorted(All())
  {
  }

  lemma NodeOk()
    ensures SubOk(Node(10, 3, Leaves()), 1, 3)
  {
    hide EntryOk;
    forall i {:trigger Leaves()[i]} | 0 <= i < 3 ensures EntryOk(Leaves()[i], 0, 3) {
      LeavesOk(i);
    }
  }

  lemma NarrowOk()
    ensures TreeOk(Narrow(), 2, Space(2, 3)) && Flat(Narrow()) == All()
  {
    hide SubOk, Sorted, Leaves, FlatAll;
    var node := Node(10, 3, Leaves());
    NodeOk();
    NodeKey();
    LeavesFlat();
    AllSorted();
    FlatAllOne(Entry(0, node));
    assert Narrow().entries[0] == Entry(0, node) && EntryOk(Entry(0, node), 1, 3);
    assert Flat(Narrow()) == All();
    forall i {:trigger Narrow().entries[i]} | 0 <= i < |Narrow().entries| ensures EntryOk(Narrow().entries[i], 1, 3) {
    }
  }

  lemma NodeKey()
    ensures Leaves() != [] && First(Node(10, 3, Leaves())) == 0
  {
  }

  /** The path that a search for block 5 takes. */
  function Path5(): seq<Level> { [Level(1, 2, [Entry(0, Node(10, 3, Leaves()))], 0), Level(10, 3, Leaves(), 0)] }

  lemma Path5Is()
    ensures Positioned(Path5()) && Plug(Path5(), Leaf(11, 3, [One(0), One(10), One(20)])) == Narrow() && Searched(Path5(), 5)
    ensures LeftFlat(Path5()) == []
  {
    var up, leaf := Path5(), Leaf(11, 3, [One(0), One(10), One(20)]);
    assert up[1..] == [up[1]] && [up[1]][1..] == [];
    assert Plug([up[1]], leaf) == Node(10, 3, Leaves()[0 := Entry(0, leaf)]);
    assert Leaves()[0 := Entry(0, leaf)] == Leaves();
    assert Chosen(up[0], 5) && Chosen(up[1], 5);
    assert up[0].entries[..0] == [] && up[1].entries[..0] == [];
  }

  /** Where the search has to end, and how full the nodes are there. */
  lemma Found5(up: seq<Level>, blk: nat, max: nat, exts: seq<Extent>, pos: int)
    requires Positioned(up) && |up| == 2 && Plug(up, Leaf(blk, max, exts)) == Narrow() && Searched(up, 5) && ExtentFound(exts, pos, 5)
    ensures exts == [One(0), One(10), One(20)] && max == 3 && pos == 0 && LeftFlat(up) == [] && FullBelow(up) == 1
  {
    hide LeftFlat, Plug, Searched, Leaves;
    Path5Is();
    OnePath(up, Leaf(blk, max, exts), Path5(), Leaf(11, 3, [One(0), One(10), One(20)]), 5);
    Path5Full();
    assert up[..1][0] == up[0];
  }

  lemma Path5Full()
    ensures |Path5()[1].entries| == 3 && |Path5()[0].entries| == 1
  {
  }

  /** The path object after the search for block 5. */
  method Find5() returns (p: ExtentPath)
    ensures fresh(p) && Positioned(p.up) && |p.up| == 2 && p.Sound(0) && p.LeadsTo(5) && Searched(p.up, 5) && p.Whole() == All()
    ensures p.exts == [One(0), One(10), One(20)] && p.max == 3 && p.pos == 0 && LeftFlat(p.up) == [] && FullBelow(p.up) == 1
  {
    hide LeftFlat, RightFlat, Sorted, Below, Above, Searched, ExtentFound, FullBelow, Plug, Leaves, TreeOk, PathOk;
    NarrowOk();
    p := new ExtentPath(Space(2, 3));
    p.FindExtent(Narrow(), 5, 2);
    Found5(p.up, p.blk, p.max, p.exts, p.pos);
    FlatPlug(p.up, Leaf(p.blk, p.max, p.exts));
    FlatOfNode(Leaf(p.blk, p.max, p.exts));
  }

  /**
   Block 5 is to be inserted while one block is left: the leaf is cut behind its first extent, then there is no block for the
   node above it, and the two extents cut off are gone.
   */
  method LosesExtents() returns (p: ExtentPath, err: Error)
    ensures err == ENOSPC && Positioned(p.up) && p.Whole() == [One(0), One(30), One(40)]
  {
    hide PathOk, LeftFlat, RightFlat, How.Fits, How.Old, How.New, FullBelow, CutsOff, Searched, ExtentPath.LeadsTo, ExtentPath.Sound;
    p := Find5();
    var src := new BlockSource([99]);
    ghost var how, lost, up, exts := Insert([], []), [], p.up, p.exts;
    assert up[2..] == [] && exts[1..] == [One(10), One(20)];
    err, how, lost := p.InsertExtent(One(5), false, src);
    NothingAbove();
    assert lost == [One(10), One(20)];
    TwoGone(p.exts, RightFlat(p.up));
    assert LeftFlat(p.up) + p.exts + lost + RightFlat(p.up) == p.exts + [One(10), One(20)] + RightFlat(p.up);
  }

  lemma NothingAbove()
    ensures RightFlat([]) == []
  {
  }

  lemma TwoGone(exts: seq<Extent>, right: seq<Extent>)
    requires exts + [One(10), One(20)] + right == All()
    ensures exts + right == [One(0), One(30), One(40)] == [] + exts + right
  {
    var n := |exts|;
    assert All()[n] == One(10);
    assert n == 1;
    assert exts == All()[..1] && right == All()[3..];
  }
}
